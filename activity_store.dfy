/**
 * The activity collection and the participant mirror collection beside it, with one method
 * per activity endpoint. Each method loads the activity, applies the transition of module
 * Lifecycle, runs the schema validation of `save`, and performs the controller's follow-up
 * writes to the mirror, the user balances and the points records.
 */
module Activities {
  import opened Common
  import opened ActivitySchema
  import opened Lifecycle
  import Sequences
  import Ledger

  /** A record of the mirror collection (ActivityParticipant). */
  datatype Enrollment = Enrollment(activity: ActivityId, user: UserId, status: string, registeredAt: Time)

  /** The users of the mirror records of activity `id`, in collection order. */
  function MirrorUsers(es: seq<Enrollment>, id: ActivityId): seq<UserId> {
    if es == [] then []
    else MirrorUsers(es[..|es| - 1], id) + (if es[|es| - 1].activity == id then [es[|es| - 1].user] else [])
  }

  /** The users of the mirror records of activity `id` whose status is "checked-in". */
  function CheckedInUsers(es: seq<Enrollment>, id: ActivityId): (us: seq<UserId>)
    ensures |us| == Sequences.Count(es, (e: Enrollment) => e.activity == id && e.status == CheckedIn)
    ensures forall e :: e in es && e.activity == id && e.status == CheckedIn ==> e.user in us
    ensures forall u :: u in us ==> exists e :: e in es && e.activity == id && e.status == CheckedIn && e.user == u
  {
    if es == [] then []
    else
      var e := es[|es| - 1];
      Sequences.FilterSnoc(es, (e: Enrollment) => e.activity == id && e.status == CheckedIn);
      assert forall x :: x in es <==> x in es[..|es| - 1] || x == e by {
        assert es == es[..|es| - 1] + [e];
      }
      CheckedInUsers(es[..|es| - 1], id) + (if e.activity == id && e.status == CheckedIn then [e.user] else [])
  }

  /** The users of an embedded participant list, in order. */
  function Users(ps: seq<Participant>): (us: seq<UserId>)
    ensures |us| == |ps| && forall k :: 0 <= k < |ps| ==> us[k] == ps[k].user
  {
    seq(|ps|, k requires 0 <= k < |ps| => ps[k].user)
  }

  /** The mirror and the embedded list name the same users, as many times each. */
  predicate Mirrored(a: Activity, es: seq<Enrollment>, id: ActivityId) {
    multiset(MirrorUsers(es, id)) == multiset(Users(a.participants))
  }

  /** Two mirror states that differ at most in the records' statuses. */
  predicate SameButStatus(es: seq<Enrollment>, fs: seq<Enrollment>) {
    |es| == |fs| &&
    forall k :: 0 <= k < |es| ==>
      fs[k].activity == es[k].activity && fs[k].user == es[k].user && fs[k].registeredAt == es[k].registeredAt
  }

  /** `findOneAndDelete({ activity: id, user: u })`: the first matching record goes, if any. */
  function RemoveRecord(es: seq<Enrollment>, id: ActivityId, u: UserId): (r: seq<Enrollment>)
    ensures var k := Sequences.FirstIndex(es, (e: Enrollment) => e.activity == id && e.user == u);
      r == if k == -1 then es else es[..k] + es[k + 1..]
  {
    var k := Sequences.FirstIndex(es, (e: Enrollment) => e.activity == id && e.user == u);
    if k == -1 then es else Sequences.RemoveAt(es, k)
  }

  /** `findOneAndUpdate({ activity: id, user: u }, { status })`: the first matching record changes. */
  function SetRecordStatus(es: seq<Enrollment>, id: ActivityId, u: UserId, status: string): (r: seq<Enrollment>)
    ensures SameButStatus(es, r)
    ensures var k := Sequences.FirstIndex(es, (e: Enrollment) => e.activity == id && e.user == u);
      r == if k == -1 then es else es[k := es[k].(status := status)]
  {
    var k := Sequences.FirstIndex(es, (e: Enrollment) => e.activity == id && e.user == u);
    if k == -1 then es else es[k := es[k].(status := status)]
  }

  /** `updateMany({ activity: id, status: 'registered' }, { status: 'absent' })`. */
  function MarkAbsent(es: seq<Enrollment>, id: ActivityId): (r: seq<Enrollment>)
    ensures SameButStatus(es, r)
    ensures forall k :: 0 <= k < |es| ==>
      r[k].status == (if es[k].activity == id && es[k].status == Registered then Absent else es[k].status)
  {
    seq(|es|, k requires 0 <= k < |es| =>
      if es[k].activity == id && es[k].status == Registered then es[k].(status := Absent) else es[k])
  }

  lemma {:induction false} MirrorUsersAppend(es: seq<Enrollment>, fs: seq<Enrollment>, id: ActivityId)
    ensures MirrorUsers(es + fs, id) == MirrorUsers(es, id) + MirrorUsers(fs, id)
  {
    if fs == [] {
      assert es + fs == es;
    } else {
      assert (es + fs)[..|es + fs| - 1] == es + fs[..|fs| - 1];
      MirrorUsersAppend(es, fs[..|fs| - 1], id);
    }
  }

  lemma {:induction false} MirrorUsersIgnoreStatus(es: seq<Enrollment>, fs: seq<Enrollment>, id: ActivityId)
    requires SameButStatus(es, fs)
    ensures MirrorUsers(es, id) == MirrorUsers(fs, id)
  {
    if es != [] {
      MirrorUsersIgnoreStatus(es[..|es| - 1], fs[..|fs| - 1], id);
    }
  }

  /** Dropping the record at `k` drops one occurrence of its user from its activity's mirror users. */
  lemma MirrorUsersRemove(es: seq<Enrollment>, k: nat, id: ActivityId)
    requires k < |es|
    ensures multiset(MirrorUsers(es[..k] + es[k + 1..], id)) ==
      multiset(MirrorUsers(es, id)) - (if es[k].activity == id then multiset{es[k].user} else multiset{})
  {
    assert es == es[..k] + ([es[k]] + es[k + 1..]);
    MirrorUsersAppend(es[..k], [es[k]] + es[k + 1..], id);
    MirrorUsersAppend([es[k]], es[k + 1..], id);
    MirrorUsersAppend(es[..k], es[k + 1..], id);
    assert MirrorUsers([es[k]], id) == MirrorUsers([], id) + (if es[k].activity == id then [es[k].user] else []);
  }

  /** The checked-in users of an activity are among its mirror users. */
  lemma {:induction false} CheckedInAmongMirror(es: seq<Enrollment>, id: ActivityId)
    ensures multiset(CheckedInUsers(es, id)) <= multiset(MirrorUsers(es, id))
  {
    if es != [] {
      CheckedInAmongMirror(es[..|es| - 1], id);
    }
  }

  lemma UsersOfRemoval(ps: seq<Participant>, k: nat)
    requires k < |ps|
    ensures multiset(Users(ps[..k] + ps[k + 1..])) == multiset(Users(ps)) - multiset{ps[k].user}
  {
    assert Users(ps) == Users(ps[..k]) + [ps[k].user] + Users(ps[k + 1..]);
    assert Users(ps[..k] + ps[k + 1..]) == Users(ps[..k]) + Users(ps[k + 1..]);
  }

  /** With nobody listed twice, every user occurs at most once. */
  lemma {:induction false} DistinctUsersOnce(ps: seq<Participant>, u: UserId)
    requires Distinct(ps)
    ensures multiset(Users(ps))[u] <= 1
  {
    if ps != [] {
      var init := ps[..|ps| - 1];
      DistinctUsersOnce(init, u);
      assert Users(ps) == Users(init) + [ps[|ps| - 1].user];
      if ps[|ps| - 1].user == u {
        assert u !in Users(init);
      }
    }
  }

  /**
   * Every stored activity passed validation and lists nobody twice, every mirror record has
   * a status of the enum and refers to an id already issued, and for every stored activity
   * the mirror names the users of the embedded list.
   */
  ghost predicate StoreValid(acts: map<ActivityId, Activity>, es: seq<Enrollment>, next: ActivityId) {
    (forall id :: id in acts ==> id < next && SchemaValid(acts[id]) && Distinct(acts[id].participants)) &&
    RecordsValid(es, next) &&
    (forall id :: id in acts ==> Mirrored(acts[id], es, id))
  }

  ghost predicate RecordsValid(es: seq<Enrollment>, next: ActivityId) {
    forall k :: 0 <= k < |es| ==> es[k].activity < next && IsParticipantStatus(es[k].status)
  }

  /** Replacing a stored activity by a valid one with the same participants keeps the store valid. */
  lemma ReplaceKeepsStore(acts: map<ActivityId, Activity>, es: seq<Enrollment>, next: ActivityId, id: ActivityId, b: Activity)
    requires StoreValid(acts, es, next) && id in acts
    requires SchemaValid(b) && b.participants == acts[id].participants
    ensures StoreValid(acts[id := b], es, next)
  {
  }

  /** A successful signup keeps the store valid. */
  lemma SignupKeepsStore(acts: map<ActivityId, Activity>, es: seq<Enrollment>, next: ActivityId, id: ActivityId, u: UserId, now: Time)
    requires StoreValid(acts, es, next) && id in acts && Signup(acts[id], u, now).Ok?
    ensures StoreValid(acts[id := Signup(acts[id], u, now).value], es + [Enrollment(id, u, Registered, now)], next)
  {
    var b := Signup(acts[id], u, now).value;
    CancelKeepsActivities(acts, acts[id := b], next, id, b);
    SignupKeepsMirrors(acts, acts[id := b], es, id, u, now);
  }

  lemma SignupKeepsMirrors(acts: map<ActivityId, Activity>, acts': map<ActivityId, Activity>, es: seq<Enrollment>,
                           id: ActivityId, u: UserId, now: Time)
    requires forall x :: x in acts ==> Mirrored(acts[x], es, x)
    requires id in acts && Signup(acts[id], u, now).Ok? && acts' == acts[id := Signup(acts[id], u, now).value]
    ensures forall x :: x in acts' ==> Mirrored(acts'[x], es + [Enrollment(id, u, Registered, now)], x)
  {
    var e := Enrollment(id, u, Registered, now);
    assert Users(acts'[id].participants) == Users(acts[id].participants) + [u];
    forall other | other in acts' ensures Mirrored(acts'[other], es + [e], other) {
      MirrorUsersAppend(es, [e], other);
      assert MirrorUsers([e], other) == MirrorUsers([], other) + (if id == other then [u] else []);
      if other != id {
        assert acts'[other] == acts[other];
      }
    }
  }

  /** A successful cancellation keeps the store valid. */
  lemma CancelKeepsStore(acts: map<ActivityId, Activity>, es: seq<Enrollment>, next: ActivityId, id: ActivityId, u: UserId)
    requires StoreValid(acts, es, next) && id in acts && CancelSignup(acts[id], u).Ok?
    ensures StoreValid(acts[id := CancelSignup(acts[id], u).value], RemoveRecord(es, id, u), next)
  {
    var b := CancelSignup(acts[id], u).value;
    CancelKeepsActivities(acts, acts[id := b], next, id, b);
    RemoveRecordKeepsRecords(es, next, id, u);
    CancelKeepsMirrors(acts, acts[id := b], es, id, u);
  }

  lemma CancelKeepsActivities(acts: map<ActivityId, Activity>, acts': map<ActivityId, Activity>, next: ActivityId,
                              id: ActivityId, b: Activity)
    requires forall x :: x in acts ==> x < next && SchemaValid(acts[x]) && Distinct(acts[x].participants)
    requires id in acts && SchemaValid(b) && Distinct(b.participants) && acts' == acts[id := b]
    ensures forall x :: x in acts' ==> x < next && SchemaValid(acts'[x]) && Distinct(acts'[x].participants)
  {
  }

  lemma CancelKeepsMirrors(acts: map<ActivityId, Activity>, acts': map<ActivityId, Activity>, es: seq<Enrollment>,
                           id: ActivityId, u: UserId)
    requires forall x :: x in acts ==> Mirrored(acts[x], es, x)
    requires id in acts && CancelSignup(acts[id], u).Ok? && acts' == acts[id := CancelSignup(acts[id], u).value]
    ensures forall x :: x in acts' ==> Mirrored(acts'[x], RemoveRecord(es, id, u), x)
  {
    CancelKeepsMirror(acts[id], es, u, id);
    MirrorsOutside(acts, acts', es, id, RemoveRecord(es, id, u));
  }

  /** Replacing activity `id` keeps every mirror when `id`'s is kept and no other activity's records change. */
  lemma MirrorsOutside(acts: map<ActivityId, Activity>, acts': map<ActivityId, Activity>, es: seq<Enrollment>,
                       id: ActivityId, es': seq<Enrollment>)
    requires forall x :: x in acts ==> Mirrored(acts[x], es, x)
    requires id in acts && id in acts' && acts' == acts[id := acts'[id]] && Mirrored(acts'[id], es', id)
    requires forall other :: other != id ==> multiset(MirrorUsers(es', other)) == multiset(MirrorUsers(es, other))
    ensures forall x :: x in acts' ==> Mirrored(acts'[x], es', x)
  {
  }

  lemma RemoveRecordKeepsRecords(es: seq<Enrollment>, next: ActivityId, id: ActivityId, u: UserId)
    requires RecordsValid(es, next)
    ensures RecordsValid(RemoveRecord(es, id, u), next)
  {
    var es' := RemoveRecord(es, id, u);
    var k := Sequences.FirstIndex(es, (e: Enrollment) => e.activity == id && e.user == u);
    if k != -1 {
      forall i | 0 <= i < |es'| ensures es'[i].activity < next && IsParticipantStatus(es'[i].status) {
        if i < k { assert es'[i] == es[i]; } else { assert es'[i] == es[i + 1]; }
      }
    }
  }

  /** A change of mirror statuses to enum values together with a valid replacement keeps the store valid. */
  lemma RestatusKeepsStore(acts: map<ActivityId, Activity>, es: seq<Enrollment>, next: ActivityId,
                           id: ActivityId, b: Activity, es': seq<Enrollment>)
    requires StoreValid(acts, es, next) && id in acts
    requires SchemaValid(b) && Users(b.participants) == Users(acts[id].participants) && Distinct(b.participants)
    requires SameButStatus(es, es') && forall k :: 0 <= k < |es'| ==> IsParticipantStatus(es'[k].status)
    ensures StoreValid(acts[id := b], es', next)
  {
    StatusChangeKeepsMirror(es, es');
  }

  /** A successful check-in keeps the store valid. */
  lemma CheckInKeepsStore(acts: map<ActivityId, Activity>, es: seq<Enrollment>, next: ActivityId, id: ActivityId,
                          u: UserId, code: Option<string>)
    requires StoreValid(acts, es, next) && id in acts && Lifecycle.CheckIn(acts[id], u, code).Ok?
    ensures StoreValid(acts[id := Lifecycle.CheckIn(acts[id], u, code).value], SetRecordStatus(es, id, u, CheckedIn), next)
  {
    var b := Lifecycle.CheckIn(acts[id], u, code).value;
    assert Users(b.participants) == Users(acts[id].participants);
    RestatusKeepsStore(acts, es, next, id, b, SetRecordStatus(es, id, u, CheckedIn));
  }

  /** A successful completion keeps the store valid. */
  lemma CompleteKeepsStore(acts: map<ActivityId, Activity>, es: seq<Enrollment>, next: ActivityId, id: ActivityId)
    requires StoreValid(acts, es, next) && id in acts && Lifecycle.Complete(acts[id]).Ok?
    ensures StoreValid(acts[id := Lifecycle.Complete(acts[id]).value], MarkAbsent(es, id), next)
  {
    var b := Lifecycle.Complete(acts[id]).value;
    assert Users(b.participants) == Users(acts[id].participants);
    RestatusKeepsStore(acts, es, next, id, b, MarkAbsent(es, id));
  }

  class ActivityStore {
    var activities: map<ActivityId, Activity>
    var enrollments: seq<Enrollment>
    var nextId: ActivityId

    /** See StoreValid. */
    ghost predicate Valid()
      reads this
    {
      StoreValid(activities, enrollments, nextId)
    }

    constructor()
      ensures activities == map[] && enrollments == [] && nextId == 0
      ensures Valid()
    {
      activities := map[];
      enrollments := [];
      nextId := 0;
    }

    /** `createActivity`: the new activity gets a fresh id. */
    method Create(body: map<string, Value>, organizer: UserId, now: Time) returns (r: Result<ActivityId, Failure>)
      requires Valid()
      modifies this
      ensures Valid()
      ensures r.Ok? <==> NewActivity(body, organizer, now).Some?
      ensures r.Err? ==> r.error == Invalid && unchanged(this)
      ensures r.Ok? ==>
        r.value == old(nextId) && r.value !in old(activities) && nextId == old(nextId) + 1 &&
        activities == old(activities)[r.value := NewActivity(body, organizer, now).value] &&
        enrollments == old(enrollments)
    {
      match NewActivity(body, organizer, now)
      case None =>
        r := Err(Invalid);
      case Some(a) =>
        NoRecordsForFreshId(enrollments, nextId);
        activities := activities[nextId := a];
        r := Ok(nextId);
        nextId := nextId + 1;
    }

    /** `getActivity`. */
    method Get(id: ActivityId, role: Role) returns (r: Result<Activity, Failure>)
      ensures id !in activities ==> r == Err(NotFound)
      ensures id in activities ==> r == View(activities[id], role)
    {
      if id !in activities {
        r := Err(NotFound);
      } else {
        r := View(activities[id], role);
      }
    }

    /** `updateActivity`: the kept body paths are set with validators on. */
    method Update(id: ActivityId, body: map<string, Value>) returns (r: Result<(), Failure>)
      requires Valid()
      modifies this
      ensures Valid()
      ensures id !in old(activities) ==> r == Err(NotFound)
      ensures id in old(activities) ==> (r.Ok? <==> Lifecycle.Update(old(activities)[id], body).Ok?)
      ensures r.Err? ==> unchanged(this)
      ensures r.Ok? ==>
        activities == old(activities)[id := Lifecycle.Update(old(activities)[id], body).value] &&
        enrollments == old(enrollments) && nextId == old(nextId)
    {
      if id !in activities {
        return Err(NotFound);
      }
      var a := activities[id];
      var data := BuildUpdateData(a.status, body);
      match ApplyUpdate(a, data)
      case None =>
        r := Err(Invalid);
      case Some(b) =>
        ReplaceKeepsStore(activities, enrollments, nextId, id, b);
        activities := activities[id := b];
        r := Ok(());
    }

    /** `deleteActivity`: the mirror records of the activity stay behind. */
    method Delete(id: ActivityId) returns (r: Result<(), Failure>)
      requires Valid()
      modifies this
      ensures Valid()
      ensures id !in old(activities) ==> r == Err(NotFound)
      ensures id in old(activities) ==> r == Deletable(old(activities)[id])
      ensures r.Err? ==> unchanged(this)
      ensures r.Ok? ==> activities == old(activities) - {id} && enrollments == old(enrollments) && nextId == old(nextId)
    {
      if id !in activities {
        return Err(NotFound);
      }
      r := Deletable(activities[id]);
      if r.Ok? {
        activities := activities - {id};
      }
    }

    /** `startActivity`. */
    method Start(id: ActivityId) returns (r: Result<(), Failure>)
      requires Valid()
      modifies this
      ensures Valid()
      ensures id !in old(activities) ==> r == Err(NotFound)
      ensures id in old(activities) ==> (r.Ok? <==> old(activities)[id].status == Draft)
      ensures r.Err? ==> unchanged(this)
      ensures r.Ok? ==>
        activities == old(activities)[id := old(activities)[id].(status := Ongoing)] &&
        enrollments == old(enrollments) && nextId == old(nextId)
    {
      if id !in activities {
        return Err(NotFound);
      }
      match Lifecycle.Start(activities[id])
      case Err(e) =>
        r := Err(e);
      case Ok(b) =>
        activities := activities[id := b];
        r := Ok(());
    }

    /** `signupActivity`: an embedded entry and a mirror record with the same time. */
    method Signup(id: ActivityId, u: UserId, now: Time) returns (r: Result<(), Failure>)
      requires Valid()
      modifies this
      ensures Valid()
      ensures id !in old(activities) ==> r == Err(NotFound)
      ensures id in old(activities) && Lifecycle.Signup(old(activities)[id], u, now).Err? ==>
        r == Err(Lifecycle.Signup(old(activities)[id], u, now).error)
      ensures r.Ok? <==> id in old(activities) && Lifecycle.Signup(old(activities)[id], u, now).Ok?
      ensures r.Err? ==> unchanged(this)
      ensures r.Ok? ==>
        id in old(activities) && Lifecycle.Signup(old(activities)[id], u, now).Ok? &&
        activities == old(activities)[id := Lifecycle.Signup(old(activities)[id], u, now).value] &&
        enrollments == old(enrollments) + [Enrollment(id, u, Registered, now)] && nextId == old(nextId)
    {
      if id !in activities {
        return Err(NotFound);
      }
      var a := activities[id];
      match Lifecycle.Signup(a, u, now)
      case Err(e) =>
        r := Err(e);
      case Ok(b) =>
        var es' := enrollments + [Enrollment(id, u, Registered, now)];
        SignupKeepsStore(activities, enrollments, nextId, id, u, now);
        activities := activities[id := b];
        enrollments := es';
        r := Ok(());
    }

    /** `cancelSignupActivity`: the caller's embedded entry and first mirror record go. */
    method CancelSignup(id: ActivityId, u: UserId) returns (r: Result<(), Failure>)
      requires Valid()
      modifies this
      ensures Valid()
      ensures id !in old(activities) ==> r == Err(NotFound)
      ensures id in old(activities) && Lifecycle.CancelSignup(old(activities)[id], u).Err? ==>
        r == Err(Lifecycle.CancelSignup(old(activities)[id], u).error)
      ensures r.Ok? <==> id in old(activities) && Lifecycle.CancelSignup(old(activities)[id], u).Ok?
      ensures r.Err? ==> unchanged(this)
      ensures r.Ok? ==>
        id in old(activities) && Lifecycle.CancelSignup(old(activities)[id], u).Ok? &&
        activities == old(activities)[id := Lifecycle.CancelSignup(old(activities)[id], u).value] &&
        enrollments == RemoveRecord(old(enrollments), id, u) && nextId == old(nextId)
    {
      if id !in activities {
        return Err(NotFound);
      }
      var a := activities[id];
      match Lifecycle.CancelSignup(a, u)
      case Err(e) =>
        r := Err(e);
      case Ok(b) =>
        var es' := RemoveRecord(enrollments, id, u);
        CancelKeepsStore(activities, enrollments, nextId, id, u);
        activities := activities[id := b];
        enrollments := es';
        r := Ok(());
    }

    /** `checkInActivity` as evidently intended: entry and mirror record both become "checked-in". */
    method CheckIn(id: ActivityId, u: UserId, code: Option<string>) returns (r: Result<(), Failure>)
      requires Valid()
      modifies this
      ensures Valid()
      ensures id !in old(activities) ==> r == Err(NotFound)
      ensures id in old(activities) && Lifecycle.CheckIn(old(activities)[id], u, code).Err? ==>
        r == Err(Lifecycle.CheckIn(old(activities)[id], u, code).error)
      ensures r.Ok? <==> id in old(activities) && Lifecycle.CheckIn(old(activities)[id], u, code).Ok?
      ensures r.Err? ==> unchanged(this)
      ensures r.Ok? ==>
        id in old(activities) && Lifecycle.CheckIn(old(activities)[id], u, code).Ok? &&
        activities == old(activities)[id := Lifecycle.CheckIn(old(activities)[id], u, code).value] &&
        enrollments == SetRecordStatus(old(enrollments), id, u, CheckedIn) && nextId == old(nextId)
    {
      if id !in activities {
        return Err(NotFound);
      }
      var a := activities[id];
      match Lifecycle.CheckIn(a, u, code)
      case Err(e) =>
        r := Err(e);
      case Ok(b) =>
        var es' := SetRecordStatus(enrollments, id, u, CheckedIn);
        CheckInKeepsStore(activities, enrollments, nextId, id, u, code);
        activities := activities[id := b];
        enrollments := es';
        r := Ok(());
    }

    /**
     * `checkInActivity` as written: the entry gets "checkedIn", the save's validation refuses
     * it, and the mirror update after the save is never reached.
     */
    method CheckInAsWritten(id: ActivityId, u: UserId, code: Option<string>) returns (r: Result<(), Failure>)
      requires Valid()
      modifies this
      ensures r.Err? && unchanged(this)
      ensures id !in old(activities) ==> r == Err(NotFound)
      ensures id in old(activities) ==> (r == Err(Invalid) <==> Lifecycle.CheckIn(old(activities)[id], u, code).Ok?)
    {
      if id !in activities {
        return Err(NotFound);
      }
      match Lifecycle.CheckInAsWritten(activities[id], u, code)
      case Err(e) =>
        r := Err(e);
      case Ok(b) =>
        r := Err(Invalid);
    }

    /** `setCheckInCode` as written: refused for every caller, since no user has `isAdmin`. */
    method SetCheckInCodeAsWritten(id: ActivityId, flags: map<string, bool>, code: Option<string>) returns (r: Result<(), Failure>)
      requires flags.Keys <= UserProperties
      modifies this
      ensures unchanged(this)
      ensures r == if id in old(activities) then Err(Forbidden) else Err(NotFound)
    {
      if id !in activities {
        return Err(NotFound);
      }
      match Lifecycle.SetCheckInCodeAsWritten(activities[id], flags, code)
      case Err(e) =>
        r := Err(e);
      case Ok(b) =>
        assert false;
        r := Err(Forbidden);
    }

    /** `setCheckInCode` as evidently intended: an administrator sets the code. */
    method SetCheckInCode(id: ActivityId, role: Role, code: Option<string>) returns (r: Result<(), Failure>)
      requires Valid()
      modifies this
      ensures Valid()
      ensures id !in old(activities) ==> r == Err(NotFound)
      ensures id in old(activities) ==> (r.Ok? <==> role == Admin)
      ensures r.Err? ==> unchanged(this)
      ensures r.Ok? ==>
        activities == old(activities)[id := old(activities)[id].(checkInCode := code)] &&
        enrollments == old(enrollments) && nextId == old(nextId)
    {
      if id !in activities {
        return Err(NotFound);
      }
      match Lifecycle.SetCheckInCode(activities[id], role, code)
      case Err(e) =>
        r := Err(e);
      case Ok(b) =>
        activities := activities[id := b];
        r := Ok(());
    }

    /**
     * `completeActivity` with the per-user award `award`: the activity becomes completed, every
     * checked-in mirror record of an existing user earns `award` and one "earn" record, and then
     * the activity's still-registered mirror records become absent. The embedded list is untouched.
     */
    method CompleteWith(id: ActivityId, award: nat, users: Ledger.UserDirectory, ledger: Ledger.PointsLedger, now: Time)
      returns (r: Result<(), Failure>)
      requires Valid() && users.Valid()
      modifies this, users, ledger
      ensures Valid() && users.Valid()
      ensures id !in old(activities) ==> r == Err(NotFound)
      ensures id in old(activities) ==> (r.Ok? <==> old(activities)[id].status == Ongoing)
      ensures r.Err? ==> unchanged(this) && unchanged(users) && unchanged(ledger)
      ensures users.balances.Keys == old(users.balances).Keys
      ensures r.Ok? ==>
        var checked := CheckedInUsers(old(enrollments), id);
        activities == old(activities)[id := old(activities)[id].(status := Completed)] &&
        enrollments == MarkAbsent(old(enrollments), id) && nextId == old(nextId) &&
        users.balances == Ledger.Credit(old(users.balances), checked, award) &&
        ledger.records == old(ledger.records) +
          Ledger.Awards(checked, old(users.balances).Keys, award, id, old(activities)[id].title, now)
    {
      if id !in activities {
        return Err(NotFound);
      }
      var a := activities[id];
      var completed := Lifecycle.Complete(a);
      if completed.Err? {
        return Err(completed.error);
      }
      var b := completed.value;
      var es' := MarkAbsent(enrollments, id);
      var checked := CheckedInUsers(enrollments, id);
      CompleteKeepsStore(activities, enrollments, nextId, id);
      activities := activities[id := b];
      enrollments := es';
      assert Valid();
      if |checked| > 0 {
        AwardEach(checked, award, users, ledger, id, a.title, now);
      }
      r := Ok(());
    }

    /** `completeActivity` as written: `activity.points.value || 0` awards nothing. */
    method CompleteAsWritten(id: ActivityId, users: Ledger.UserDirectory, ledger: Ledger.PointsLedger, now: Time)
      returns (r: Result<(), Failure>)
      requires Valid() && users.Valid()
      modifies this, users, ledger
      ensures Valid() && users.Valid()
      ensures users.balances == old(users.balances)
      ensures id !in old(activities) ==> r == Err(NotFound)
      ensures id in old(activities) ==> (r.Ok? <==> old(activities)[id].status == Ongoing)
      ensures r.Ok? ==> forall k :: old(|ledger.records|) <= k < |ledger.records| ==> ledger.records[k].points == 0
    {
      r := CompleteWith(id, 0, users, ledger, now);
      if r.Ok? {
        forall u | u in old(users.balances) ensures users.balances[u] == old(users.balances)[u] {
          Ledger.CreditAddsPerOccurrence(old(users.balances), CheckedInUsers(old(enrollments), id), 0, u);
        }
      }
    }

    /**
     * `completeActivity` as evidently intended: each participant earns the base points of the
     * activity's point rule (`rules` maps a rule id to its `basePoints`), or nothing when the rule is gone.
     */
    method Complete(id: ActivityId, rules: map<RuleId, nat>, users: Ledger.UserDirectory, ledger: Ledger.PointsLedger, now: Time)
      returns (r: Result<(), Failure>)
      requires Valid() && users.Valid()
      modifies this, users, ledger
      ensures Valid() && users.Valid()
      ensures id !in old(activities) ==> r == Err(NotFound)
      ensures id in old(activities) ==> (r.Ok? <==> old(activities)[id].status == Ongoing)
      ensures users.balances.Keys == old(users.balances).Keys
      ensures r.Ok? ==>
        var a := old(activities)[id];
        var award := if a.pointsRule in rules then rules[a.pointsRule] else 0;
        forall u :: u in old(users.balances) ==>
          users.balances[u] == old(users.balances)[u] + award * Ledger.Occurrences(CheckedInUsers(old(enrollments), id), u)
    {
      var award := 0;
      if id in activities && activities[id].pointsRule in rules {
        award := rules[activities[id].pointsRule];
      }
      ghost var checked := CheckedInUsers(enrollments, id);
      r := CompleteWith(id, award, users, ledger, now);
      if r.Ok? {
        forall u | u in old(users.balances)
          ensures users.balances[u] == old(users.balances)[u] + award * Ledger.Occurrences(checked, u)
        {
          Ledger.CreditAddsPerOccurrence(old(users.balances), checked, award, u);
        }
      }
    }

    /** `getActivityParticipants`: the activity's mirror records, earliest registration first. */
    method Participants(id: ActivityId) returns (r: Result<seq<Enrollment>, Failure>)
      ensures id !in activities ==> r == Err(NotFound)
      ensures id in activities ==> r.Ok?
      ensures r.Ok? ==> forall i, j :: 0 <= i < j < |r.value| ==> r.value[i].registeredAt <= r.value[j].registeredAt
      ensures r.Ok? ==> multiset(r.value) == multiset(Sequences.Filter(enrollments, (e: Enrollment) => e.activity == id))
    {
      if id !in activities {
        return Err(NotFound);
      }
      var mine := Sequences.Filter(enrollments, (e: Enrollment) => e.activity == id);
      var sorted := Sequences.SortDesc(mine, (e: Enrollment) => -e.registeredAt);
      r := Ok(sorted);
    }

    /** The collection scan behind a query: every stored activity once, in an unspecified order. */
    method Documents() returns (docs: seq<Activity>, ghost ids: seq<ActivityId>)
      ensures |docs| == |ids| == |activities|
      ensures forall k :: 0 <= k < |ids| ==> ids[k] in activities && docs[k] == activities[ids[k]]
      ensures forall id :: id in activities ==> id in ids
      ensures forall i, j :: 0 <= i < j < |ids| ==> ids[i] != ids[j]
    {
      var remaining := activities.Keys;
      docs, ids := [], [];
      while remaining != {}
        invariant remaining <= activities.Keys
        invariant |docs| == |ids|
        invariant forall k :: 0 <= k < |ids| ==> ids[k] in activities && ids[k] !in remaining && docs[k] == activities[ids[k]]
        invariant forall id :: id in activities ==> id in remaining || id in ids
        invariant forall i, j :: 0 <= i < j < |ids| ==> ids[i] != ids[j]
        invariant |ids| + |remaining| == |activities.Keys|
        decreases remaining
      {
        var id :| id in remaining;
        docs := docs + [activities[id]];
        ids := ids + [id];
        remaining := remaining - {id};
      }
      assert |activities.Keys| == |activities|;
    }

    /**
     * Each user is credited at most once when the activity completes: the checked-in mirror
     * records of a stored activity name each user at most once.
     */
    lemma CompletionCreditsOnce(id: ActivityId, u: UserId)
      requires Valid() && id in activities
      ensures Ledger.Occurrences(CheckedInUsers(enrollments, id), u) <= 1
    {
      CheckedInAmongMirror(enrollments, id);
      DistinctUsersOnce(activities[id].participants, u);
      OccurrencesIsMultiplicity(CheckedInUsers(enrollments, id), u);
    }
  }

  lemma {:induction false} OccurrencesIsMultiplicity(us: seq<UserId>, u: UserId)
    ensures Ledger.Occurrences(us, u) == multiset(us)[u]
  {
    if us != [] {
      OccurrencesIsMultiplicity(us[..|us| - 1], u);
      assert us == us[..|us| - 1] + [us[|us| - 1]];
    }
  }

  lemma {:induction false} NoRecordsForFreshId(es: seq<Enrollment>, id: ActivityId)
    requires forall k :: 0 <= k < |es| ==> es[k].activity < id
    ensures MirrorUsers(es, id) == []
  {
    if es != [] {
      NoRecordsForFreshId(es[..|es| - 1], id);
    }
  }

  /** A change of statuses alone keeps what the mirror says about every activity. */
  lemma StatusChangeKeepsMirror(es: seq<Enrollment>, fs: seq<Enrollment>)
    requires SameButStatus(es, fs)
    ensures forall id :: MirrorUsers(fs, id) == MirrorUsers(es, id)
  {
    forall id ensures MirrorUsers(fs, id) == MirrorUsers(es, id) {
      MirrorUsersIgnoreStatus(es, fs, id);
    }
  }

  lemma {:induction false} MirrorUserHasRecord(es: seq<Enrollment>, id: ActivityId, u: UserId)
    requires u in MirrorUsers(es, id)
    ensures exists k :: 0 <= k < |es| && es[k].activity == id && es[k].user == u
  {
    var init := es[..|es| - 1];
    if u in MirrorUsers(init, id) {
      MirrorUserHasRecord(init, id, u);
      var k :| 0 <= k < |init| && init[k].activity == id && init[k].user == u;
      assert es[k] == init[k];
    }
  }

  /**
   * Cancelling removes the caller from the mirror of the activity exactly as from its embedded
   * list, and leaves the mirror of every other activity as it was.
   */
  lemma CancelKeepsMirror(a: Activity, es: seq<Enrollment>, u: UserId, id: ActivityId)
    requires Mirrored(a, es, id) && CancelSignup(a, u).Ok?
    ensures Mirrored(CancelSignup(a, u).value, RemoveRecord(es, id, u), id)
    ensures forall other :: other != id ==>
      multiset(MirrorUsers(RemoveRecord(es, id, u), other)) == multiset(MirrorUsers(es, other))
  {
    var k := EntryIndex(a.participants, u);
    UsersOfRemoval(a.participants, k);
    assert Users(a.participants)[k] == u;
    assert u in multiset(MirrorUsers(es, id));
    MirrorUserHasRecord(es, id, u);
    var j := Sequences.FirstIndex(es, (e: Enrollment) => e.activity == id && e.user == u);
    assert j != -1;
    MirrorUsersRemove(es, j, id);
    forall other | other != id
      ensures multiset(MirrorUsers(RemoveRecord(es, id, u), other)) == multiset(MirrorUsers(es, other))
    {
      MirrorUsersRemove(es, j, other);
    }
  }

  /** The crediting loop of `completeActivity`: one balance raise and one "earn" record per listed existing user. */
  method AwardEach(checked: seq<UserId>, award: nat, users: Ledger.UserDirectory, ledger: Ledger.PointsLedger,
                   id: ActivityId, title: string, now: Time)
    requires users.Valid()
    modifies users, ledger
    ensures users.Valid()
    ensures users.balances == Ledger.Credit(old(users.balances), checked, award)
    ensures ledger.records == old(ledger.records) + Ledger.Awards(checked, old(users.balances).Keys, award, id, title, now)
  {
    ghost var start := users.balances;
    var i := 0;
    while i < |checked|
      invariant 0 <= i <= |checked|
      invariant users.balances == Ledger.Credit(start, checked[..i], award)
      invariant ledger.records == old(ledger.records) + Ledger.Awards(checked[..i], start.Keys, award, id, title, now)
    {
      var u := checked[i];
      assert checked[..i + 1] == checked[..i] + [u];
      assert checked[..i + 1][..i] == checked[..i];
      if u in users.balances {
        users.balances := users.balances[u := users.balances[u] + award];
        ledger.records := ledger.records + [Ledger.PointsRecord(u, award, Ledger.Earn, Ledger.ActivityAward(title), Some(id), now)];
      }
      i := i + 1;
    }
    assert checked[..|checked|] == checked;
    Ledger.CreditKeepsBalancesNonNegative(start, checked, award);
  }

  /** The loop of `updateActivity` over the body's keys. */
  method BuildUpdateData(s: Status, body: map<string, Value>) returns (data: map<string, Value>)
    ensures data == UpdateData(s, body)
  {
    data := map[];
    var remaining := body.Keys;
    while remaining != {}
      invariant remaining <= body.Keys
      invariant data == map key | key in body && key !in remaining && Kept(s, key) :: body[key]
      decreases remaining
    {
      var key :| key in remaining;
      if Kept(s, key) {
        data := data[key := body[key]];
      }
      remaining := remaining - {key};
    }
  }
}
