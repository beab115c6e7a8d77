/**
 * The state the activity and points controllers write besides activities: the balance held
 * by each user document and the collection of points records.
 */
module Ledger {
  import opened Common
  import Sequences

  datatype Kind = Earn | Spend

  /** What a record is for; the text of its description is built from these. */
  datatype Reason = ActivityAward(activityTitle: string) | RewardExchange(rewardName: string)

  datatype PointsRecord = PointsRecord(
    user: UserId, points: int, kind: Kind, reason: Reason, activity: Option<ActivityId>, createdAt: Time)

  /** The `points` balance of every user document, by user id. */
  class UserDirectory {
    var balances: map<UserId, int>

    /** The schema's `min: 0` on `points`: a saved user never holds a negative balance. */
    ghost predicate Valid()
      reads this
    {
      forall u :: u in balances ==> balances[u] >= 0
    }

    constructor(initial: map<UserId, nat>)
      ensures balances == initial
      ensures Valid()
    {
      balances := initial;
    }
  }

  /** The points-record collection, in insertion order. */
  class PointsLedger {
    var records: seq<PointsRecord>

    constructor()
      ensures records == []
    {
      records := [];
    }
  }

  /**
   * `PointsRecord.find({ user }).sort('-createdAt')`: the records of one user, newest first,
   * and no record of anyone else.
   */
  function History(records: seq<PointsRecord>, u: UserId): (r: seq<PointsRecord>)
    ensures Sequences.SortedDesc(r, (p: PointsRecord) => p.createdAt)
    ensures forall p :: p in r <==> p in records && p.user == u
    ensures multiset(r) == multiset(Sequences.Filter(records, (p: PointsRecord) => p.user == u))
  {
    var mine := Sequences.Filter(records, (p: PointsRecord) => p.user == u);
    var r := Sequences.SortDesc(mine, (p: PointsRecord) => p.createdAt);
    forall p ensures p in r <==> p in mine {
      assert p in r <==> p in multiset(r);
      assert p in mine <==> p in multiset(mine);
    }
    r
  }

  /** Balances after adding `v` once for every occurrence in `us` of an existing user, in order. */
  function Credit(b: map<UserId, int>, us: seq<UserId>, v: int): (c: map<UserId, int>)
    ensures c.Keys == b.Keys
  {
    if us == [] then b
    else
      var c := Credit(b, us[..|us| - 1], v);
      var u := us[|us| - 1];
      if u in c then c[u := c[u] + v] else c
  }

  /** Occurrences of `u` in `us`. */
  function Occurrences(us: seq<UserId>, u: UserId): nat {
    if us == [] then 0
    else Occurrences(us[..|us| - 1], u) + (if us[|us| - 1] == u then 1 else 0)
  }

  /** Each user's balance rises by `v` times the number of times the user is listed. */
  lemma {:induction false} CreditAddsPerOccurrence(b: map<UserId, int>, us: seq<UserId>, v: int, u: UserId)
    requires u in b
    ensures Credit(b, us, v)[u] == b[u] + v * Occurrences(us, u)
  {
    if us != [] {
      CreditAddsPerOccurrence(b, us[..|us| - 1], v, u);
    }
  }

  /** Crediting a non-negative amount keeps every balance non-negative. */
  lemma CreditKeepsBalancesNonNegative(b: map<UserId, int>, us: seq<UserId>, v: nat)
    requires forall u :: u in b ==> b[u] >= 0
    ensures forall u :: u in Credit(b, us, v) ==> Credit(b, us, v)[u] >= b[u] >= 0
  {
    forall u | u in Credit(b, us, v) ensures Credit(b, us, v)[u] >= b[u] {
      CreditAddsPerOccurrence(b, us, v, u);
    }
  }

  /** The "earn" records the completion loop appends for the listed users who exist. */
  function Awards(us: seq<UserId>, present: set<UserId>, v: int, id: ActivityId, title: string, now: Time): (r: seq<PointsRecord>)
    ensures |r| <= |us|
    ensures var listed := Sequences.Filter(us, (x: UserId) => x in present);
      |r| == |listed| &&
      forall k :: 0 <= k < |r| ==> r[k] == PointsRecord(listed[k], v, Earn, ActivityAward(title), Some(id), now)
    ensures forall k :: 0 <= k < |r| ==> r[k].user in present && r[k].user in us
  {
    if us == [] then []
    else
      var u := us[|us| - 1];
      Sequences.FilterAppend(us[..|us| - 1], u, (x: UserId) => x in present);
      assert us == us[..|us| - 1] + [u];
      Awards(us[..|us| - 1], present, v, id, title, now) +
        (if u in present then [PointsRecord(u, v, Earn, ActivityAward(title), Some(id), now)] else [])
  }
}
