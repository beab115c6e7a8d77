/** Identifiers, clock values, roles and the failure-compatible wrappers shared by every module. */
module Common {

  /** Document ids (MongoDB ObjectIds) are opaque; only equality matters. */
  type UserId = nat
  type ActivityId = nat
  type RuleId = nat
  type RewardId = nat
  type ImageId = nat

  /** `Date.now()` values: abstract, totally ordered instants. */
  type Time = int

  /** The two account roles of the User schema. */
  datatype Role = Student | Admin

  datatype Option<+T> = None | Some(value: T) {
    predicate IsFailure() { None? }
    function PropagateFailure<U>(): Option<U> requires None? { None }
    function Extract(): T requires Some? { value }
  }

  datatype Result<+T, +E> = Ok(value: T) | Err(error: E) {
    predicate IsFailure() { Err? }
    function PropagateFailure<U>(): Result<U, E> requires Err? { Err(error) }
    function Extract(): T requires Ok? { value }
  }

  /** JavaScript truthiness of an optional string: `undefined` and `''` are falsy. */
  predicate Truthy(s: Option<string>) {
    s.Some? && s.value != ""
  }
}
