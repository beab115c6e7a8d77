/**
 * The Activity document: its enumerations, defaults and the constraints the schema checks
 * whenever a document is saved (`required`, `enum`, `min`), plus the casting of request
 * values onto its paths, which creation and update share.
 */
module ActivitySchema {
  import opened Common

  datatype ActivityType = Volunteer | Academic | Sports | Art | Other

  /** Activity status; the schema's default is `Draft`. */
  datatype Status = Draft | Ongoing | Completed | Cancelled

  const DefaultStatus: Status := Draft

  function TypeName(t: ActivityType): string {
    match t
    case Volunteer => "volunteer"
    case Academic => "academic"
    case Sports => "sports"
    case Art => "art"
    case Other => "other"
  }

  function StatusName(s: Status): string {
    match s
    case Draft => "draft"
    case Ongoing => "ongoing"
    case Completed => "completed"
    case Cancelled => "cancelled"
  }

  /** The `enum` check on `type`: a string names a type iff it is one of the five names. */
  function ParseType(s: string): (r: Option<ActivityType>)
    ensures r.Some? <==> s in {"volunteer", "academic", "sports", "art", "other"}
    ensures r.Some? ==> TypeName(r.value) == s
  {
    if s == "volunteer" then Some(Volunteer)
    else if s == "academic" then Some(Academic)
    else if s == "sports" then Some(Sports)
    else if s == "art" then Some(Art)
    else if s == "other" then Some(Other)
    else None
  }

  /** The `enum` check on `status`. */
  function ParseStatus(s: string): (r: Option<Status>)
    ensures r.Some? <==> s in {"draft", "ongoing", "completed", "cancelled"}
    ensures r.Some? ==> StatusName(r.value) == s
  {
    if s == "draft" then Some(Draft)
    else if s == "ongoing" then Some(Ongoing)
    else if s == "completed" then Some(Completed)
    else if s == "cancelled" then Some(Cancelled)
    else None
  }

  lemma {:induction false} TypeNamesRoundTrip(t: ActivityType)
    ensures ParseType(TypeName(t)) == Some(t)
  {
    match t
    case Volunteer =>
    case Academic =>
    case Sports =>
    case Art =>
    case Other =>
  }

  lemma {:induction false} StatusNamesRoundTrip(s: Status)
    ensures ParseStatus(StatusName(s)) == Some(s)
  {
    match s
    case Draft =>
    case Ongoing =>
    case Completed =>
    case Cancelled =>
  }

  /** Participant-entry statuses as stored strings. */
  const Registered: string := "registered"
  const CheckedIn: string := "checked-in"
  const Absent: string := "absent"

  /** The `enum` of an embedded participant entry's `status`. */
  predicate IsParticipantStatus(s: string) {
    s == Registered || s == CheckedIn || s == Absent
  }

  const DefaultCover: string := "/images/default-activity.jpg"

  /** An embedded participant entry. */
  datatype Participant = Participant(user: UserId, status: string, registeredAt: Time)

  /** An entry of the image gallery; `url` is required. */
  datatype Image = Image(id: ImageId, url: string, description: string, uploadedAt: Time)

  /** An activity document (tags and `updatedAt` are not part of this model). */
  datatype Activity = Activity(
    title: string,
    description: string,
    kind: ActivityType,
    pointsRule: RuleId,
    startDate: Time,
    endDate: Time,
    location: string,
    maxParticipants: int,
    currentParticipants: int,
    status: Status,
    organizer: UserId,
    participants: seq<Participant>,
    coverImage: string,
    images: seq<Image>,
    requirements: Option<string>,
    checkInCode: Option<string>,
    createdAt: Time)

  /**
   * What validation on save accepts: required strings non-empty, `maxParticipants >= 1`,
   * every entry status inside its enum and every image with a url. (The type and status
   * enums and the required references and dates hold by construction of the datatype.)
   */
  predicate SchemaValid(a: Activity) {
    a.title != "" && a.description != "" && a.location != "" &&
    a.maxParticipants >= 1 &&
    (forall k :: 0 <= k < |a.participants| ==> IsParticipantStatus(a.participants[k].status)) &&
    (forall k :: 0 <= k < |a.images| ==> a.images[k].url != "")
  }

  /** A valid document never carries the controller's "0 means unlimited" capacity. */
  lemma ValidCapacityIsBounded(a: Activity)
    requires SchemaValid(a)
    ensures a.maxParticipants > 0
  {
  }

  /**
   * A body value as the schema casts it for its path, one alternative per kind of scalar
   * path; a value the cast would refuse, or a string it would trim, is not represented.
   */
  datatype Value = Text(s: string) | Num(n: int) | When(t: Time) | Ref(id: nat)

  /** `Object.keys(Activity.schema.paths)`: every top-level path, including the automatic ones. */
  const SchemaPaths: set<string> := {
    "title", "description", "type", "points", "startDate", "endDate", "location",
    "maxParticipants", "currentParticipants", "status", "organizer", "participants",
    "coverImage", "images", "requirements", "tags", "checkInCode",
    "_id", "__v", "createdAt", "updatedAt"
  }

  /** The string set on path `key`, or `current` when the path is not supplied as a string. */
  function TextOr(data: map<string, Value>, key: string, current: string): (r: string)
    ensures key in data && data[key].Text? ==> Text(r) == data[key]
    ensures !(key in data && data[key].Text?) ==> r == current
  {
    if key in data && data[key].Text? then data[key].s else current
  }

  function OptionalTextOr(data: map<string, Value>, key: string, current: Option<string>): (r: Option<string>)
    ensures key in data && data[key].Text? ==> r == Some(data[key].s)
    ensures !(key in data && data[key].Text?) ==> r == current
  {
    if key in data && data[key].Text? then Some(data[key].s) else current
  }

  function TimeOr(data: map<string, Value>, key: string, current: Time): (r: Time)
    ensures key in data && data[key].When? ==> When(r) == data[key]
    ensures !(key in data && data[key].When?) ==> r == current
  {
    if key in data && data[key].When? then data[key].t else current
  }

  function RefOr(data: map<string, Value>, key: string, current: nat): (r: nat)
    ensures key in data && data[key].Ref? ==> Ref(r) == data[key]
    ensures !(key in data && data[key].Ref?) ==> r == current
  {
    if key in data && data[key].Ref? then data[key].id else current
  }

  function NumberOr(data: map<string, Value>, key: string, current: int): (r: int)
    ensures key in data && data[key].Num? ==> Num(r) == data[key]
    ensures !(key in data && data[key].Num?) ==> r == current
  {
    if key in data && data[key].Num? then data[key].n else current
  }

  /** The activity type named on path "type", or `current` when it names none. */
  function TypeOr(data: map<string, Value>, current: ActivityType): (r: ActivityType)
    ensures "type" in data && data["type"].Text? && ParseType(data["type"].s).Some? ==> Text(TypeName(r)) == data["type"]
    ensures !("type" in data && data["type"].Text? && ParseType(data["type"].s).Some?) ==> r == current
  {
    if "type" in data && data["type"].Text? && ParseType(data["type"].s).Some? then ParseType(data["type"].s).value
    else current
  }

  /** The status named on path "status", or `current` when it names none. */
  function StatusOr(data: map<string, Value>, current: Status): (r: Status)
    ensures "status" in data && data["status"].Text? && ParseStatus(data["status"].s).Some? ==>
      Text(StatusName(r)) == data["status"]
    ensures !("status" in data && data["status"].Text? && ParseStatus(data["status"].s).Some?) ==> r == current
  {
    if "status" in data && data["status"].Text? && ParseStatus(data["status"].s).Some? then ParseStatus(data["status"].s).value
    else current
  }
}
