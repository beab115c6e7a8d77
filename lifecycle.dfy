/**
 * What each activity endpoint does to one loaded activity document: the guard chain in the
 * order the controller checks it, and the edited document it would save. The store applies
 * these transitions and then runs the schema validation of `save`.
 */
module Lifecycle {
  import opened Common
  import opened ActivitySchema
  import Sequences

  /** Why an endpoint refuses; each stands for one error response of the controller. */
  datatype Failure =
    | NotFound
    | Forbidden
    | NotDraft
    | NotOngoing
    | OngoingNotDeletable
    | AlreadyRegistered
    | Full
    | NotRegistered
    | WrongCode
    | Invalid
    | NoFile
    | ImageNotFound

  /** `participants.findIndex(p => p.user == u)`. */
  function EntryIndex(ps: seq<Participant>, u: UserId): (r: int)
    ensures -1 <= r < |ps|
    ensures r >= 0 ==> ps[r].user == u && forall k :: 0 <= k < r ==> ps[k].user != u
    ensures r == -1 <==> forall k :: 0 <= k < |ps| ==> ps[k].user != u
  {
    Sequences.FirstIndex(ps, (p: Participant) => p.user == u)
  }

  predicate Enrolled(ps: seq<Participant>, u: UserId) {
    exists k :: 0 <= k < |ps| && ps[k].user == u
  }

  /** No user holds two entries. */
  predicate Distinct(ps: seq<Participant>) {
    forall i, j :: 0 <= i < j < |ps| ==> ps[i].user != ps[j].user
  }

  /** The counter agrees with the list and nobody is listed twice. */
  predicate Consistent(a: Activity) {
    a.currentParticipants == |a.participants| && Distinct(a.participants)
  }

  // ----- create -----

  /** Paths the controller overrides whatever the body says. */
  const ControlPaths: set<string> := {"organizer", "participants", "currentParticipants", "status"}

  /** Paths the schema marks required that a request body must supply. */
  const RequiredPaths: set<string> :=
    {"title", "description", "type", "points", "startDate", "endDate", "location", "maxParticipants"}

  /**
   * Whether validation accepts value `v` on path `key` (cast, `required`, `enum`, `min`).
   * The array paths and the automatic ones are let through unchecked; `Assign` does not set them.
   */
  predicate Acceptable(key: string, v: Value) {
    if key == "title" || key == "description" || key == "location" then v.Text? && v.s != ""
    else if key == "type" then v.Text? && ParseType(v.s).Some?
    else if key == "status" then v.Text? && ParseStatus(v.s).Some?
    else if key == "points" || key == "organizer" then v.Ref?
    else if key == "startDate" || key == "endDate" then v.When?
    else if key == "maxParticipants" then v.Num? && v.n >= 1
    else if key == "currentParticipants" then v.Num?
    else if key == "coverImage" || key == "requirements" || key == "checkInCode" then v.Text?
    else true
  }

  /** Every scalar path named in `data` holds the supplied value in `b`. */
  predicate Carries(b: Activity, data: map<string, Value>) {
    ("title" in data ==> Text(b.title) == data["title"]) &&
    ("description" in data ==> Text(b.description) == data["description"]) &&
    ("type" in data ==> Text(TypeName(b.kind)) == data["type"]) &&
    ("points" in data ==> Ref(b.pointsRule) == data["points"]) &&
    ("startDate" in data ==> When(b.startDate) == data["startDate"]) &&
    ("endDate" in data ==> When(b.endDate) == data["endDate"]) &&
    ("location" in data ==> Text(b.location) == data["location"]) &&
    ("maxParticipants" in data ==> Num(b.maxParticipants) == data["maxParticipants"]) &&
    ("currentParticipants" in data ==> Num(b.currentParticipants) == data["currentParticipants"]) &&
    ("status" in data ==> Text(StatusName(b.status)) == data["status"]) &&
    ("organizer" in data ==> Ref(b.organizer) == data["organizer"]) &&
    ("coverImage" in data ==> Text(b.coverImage) == data["coverImage"]) &&
    ("requirements" in data ==> data["requirements"].Text? && b.requirements == Some(data["requirements"].s)) &&
    ("checkInCode" in data ==> data["checkInCode"].Text? && b.checkInCode == Some(data["checkInCode"].s))
  }

  /** `a` and `b` differ at most on the paths in `keys`. */
  predicate AgreeOutside(a: Activity, b: Activity, keys: set<string>) {
    ("title" !in keys ==> a.title == b.title) &&
    ("description" !in keys ==> a.description == b.description) &&
    ("type" !in keys ==> a.kind == b.kind) &&
    ("points" !in keys ==> a.pointsRule == b.pointsRule) &&
    ("startDate" !in keys ==> a.startDate == b.startDate) &&
    ("endDate" !in keys ==> a.endDate == b.endDate) &&
    ("location" !in keys ==> a.location == b.location) &&
    ("maxParticipants" !in keys ==> a.maxParticipants == b.maxParticipants) &&
    ("currentParticipants" !in keys ==> a.currentParticipants == b.currentParticipants) &&
    ("status" !in keys ==> a.status == b.status) &&
    ("organizer" !in keys ==> a.organizer == b.organizer) &&
    ("coverImage" !in keys ==> a.coverImage == b.coverImage) &&
    ("requirements" !in keys ==> a.requirements == b.requirements) &&
    ("checkInCode" !in keys ==> a.checkInCode == b.checkInCode) &&
    ("participants" !in keys ==> a.participants == b.participants) &&
    ("images" !in keys ==> a.images == b.images) &&
    a.createdAt == b.createdAt
  }

  /** Every path of `data` passes validation. */
  predicate AllAcceptable(data: map<string, Value>) {
    forall key :: key in data ==> Acceptable(key, data[key])
  }

  /** `a` with every scalar path of an acceptable `data` set. */
  function Assign(a: Activity, data: map<string, Value>): (b: Activity)
    requires AllAcceptable(data)
    ensures Carries(b, data) && AgreeOutside(a, b, data.Keys)
  {
    ScalarPathsAcceptable(data);
    a.(title := TextOr(data, "title", a.title),
       description := TextOr(data, "description", a.description),
       kind := TypeOr(data, a.kind),
       pointsRule := RefOr(data, "points", a.pointsRule),
       startDate := TimeOr(data, "startDate", a.startDate),
       endDate := TimeOr(data, "endDate", a.endDate),
       location := TextOr(data, "location", a.location),
       maxParticipants := NumberOr(data, "maxParticipants", a.maxParticipants),
       currentParticipants := NumberOr(data, "currentParticipants", a.currentParticipants),
       status := StatusOr(data, a.status),
       organizer := RefOr(data, "organizer", a.organizer),
       coverImage := TextOr(data, "coverImage", a.coverImage),
       requirements := OptionalTextOr(data, "requirements", a.requirements),
       checkInCode := OptionalTextOr(data, "checkInCode", a.checkInCode))
  }

  lemma ScalarPathsAcceptable(data: map<string, Value>)
    requires AllAcceptable(data)
    ensures "title" in data ==> data["title"].Text? && data["title"].s != ""
    ensures "description" in data ==> data["description"].Text? && data["description"].s != ""
    ensures "location" in data ==> data["location"].Text? && data["location"].s != ""
    ensures "type" in data ==> data["type"].Text? && ParseType(data["type"].s).Some?
    ensures "status" in data ==> data["status"].Text? && ParseStatus(data["status"].s).Some?
    ensures "points" in data ==> data["points"].Ref?
    ensures "organizer" in data ==> data["organizer"].Ref?
    ensures "startDate" in data ==> data["startDate"].When?
    ensures "endDate" in data ==> data["endDate"].When?
    ensures "maxParticipants" in data ==> data["maxParticipants"].Num? && data["maxParticipants"].n >= 1
    ensures "currentParticipants" in data ==> data["currentParticipants"].Num?
    ensures "coverImage" in data ==> data["coverImage"].Text?
    ensures "requirements" in data ==> data["requirements"].Text?
    ensures "checkInCode" in data ==> data["checkInCode"].Text?
  {
    var keys := ["title", "description", "location", "type", "status", "points", "organizer",
                 "startDate", "endDate", "maxParticipants", "currentParticipants", "coverImage",
                 "requirements", "checkInCode"];
    forall i | 0 <= i < |keys| && keys[i] in data ensures Acceptable(keys[i], data[keys[i]]) {
    }
  }

  lemma AssignKeepsSchema(a: Activity, data: map<string, Value>)
    requires AllAcceptable(data) && SchemaValid(a)
    ensures SchemaValid(Assign(a, data))
  {
    ScalarPathsAcceptable(data);
  }

  /**
   * Setting the paths of `data` on `a` with validators on, as an update with
   * `runValidators` does: every supplied scalar path is cast and validated, the others stay.
   */
  function ApplyUpdate(a: Activity, data: map<string, Value>): (r: Option<Activity>)
    ensures r.Some? <==> AllAcceptable(data)
    ensures r.Some? ==> Carries(r.value, data) && AgreeOutside(a, r.value, data.Keys)
    ensures r.Some? ==> r.value.participants == a.participants && r.value.images == a.images
    ensures r.Some? && SchemaValid(a) ==> SchemaValid(r.value)
  {
    if AllAcceptable(data) then
      if SchemaValid(a) then AssignKeepsSchema(a, data); Some(Assign(a, data))
      else Some(Assign(a, data))
    else None
  }

  /** The document create starts from before the body's paths are set. */
  function Seed(organizer: UserId, now: Time): Activity {
    Activity("", "", Other, 0, now, now, "", 1, 0, Ongoing, organizer, [], DefaultCover, [], None, None, now)
  }

  /**
   * `Activity.create({...body, organizer, participants: [], currentParticipants: 0, status: 'ongoing'})`:
   * the body may not decide the organizer, the participants, the counter or the status.
   */
  function NewActivity(body: map<string, Value>, organizer: UserId, now: Time): (r: Option<Activity>)
    ensures r.Some? <==> RequiredPaths <= body.Keys && AllAcceptable(body - ControlPaths)
    ensures r.Some? ==>
      r.value.status == Ongoing && r.value.participants == [] && r.value.currentParticipants == 0 &&
      r.value.organizer == organizer && r.value.images == [] && r.value.createdAt == now
    ensures r.Some? ==> SchemaValid(r.value) && Consistent(r.value)
    ensures r.Some? && "coverImage" !in body ==> r.value.coverImage == DefaultCover
  {
    var data := body - ControlPaths;
    if RequiredPaths <= body.Keys then
      SeedFilled(data, organizer, now);
      ApplyUpdate(Seed(organizer, now), data)
    else None
  }

  lemma SeedFilled(data: map<string, Value>, organizer: UserId, now: Time)
    requires RequiredPaths <= data.Keys
    requires "status" !in data && "participants" !in data && "currentParticipants" !in data && "organizer" !in data
    ensures AllAcceptable(data) ==>
      var b := Assign(Seed(organizer, now), data);
      SchemaValid(b) && Consistent(b) && b.status == Ongoing && b.participants == [] &&
      b.currentParticipants == 0 && b.organizer == organizer && b.images == [] && b.createdAt == now &&
      ("coverImage" !in data ==> b.coverImage == DefaultCover)
  {
    if AllAcceptable(data) {
      ScalarPathsAcceptable(data);
      var b := Assign(Seed(organizer, now), data);
      assert "title" in data && "description" in data && "location" in data && "maxParticipants" in data;
      assert AgreeOutside(Seed(organizer, now), b, data.Keys);
    }
  }

  /** Two bodies that agree outside the overridden paths create the same activity. */
  lemma CreateIgnoresControlPaths(b1: map<string, Value>, b2: map<string, Value>, organizer: UserId, now: Time)
    requires b1 - ControlPaths == b2 - ControlPaths
    ensures NewActivity(b1, organizer, now) == NewActivity(b2, organizer, now)
  {
    assert RequiredPaths <= b1.Keys <==> RequiredPaths <= b2.Keys by {
      forall key | key in RequiredPaths ensures key in b1 <==> key in b2 {
        assert key !in ControlPaths;
        assert key in b1 <==> key in b1 - ControlPaths;
        assert key in b2 <==> key in b2 - ControlPaths;
      }
    }
  }

  // ----- update -----

  /** The only paths an ongoing activity lets through. */
  const AllowedIfOngoing: set<string> := {"description", "location", "startDate", "endDate", "maxParticipants"}

  /** Whether the update loop keeps body key `key` for an activity in status `s`. */
  predicate Kept(s: Status, key: string) {
    key in SchemaPaths && (s == Ongoing ==> key in AllowedIfOngoing)
  }

  /** The `updateData` the loop over the body's keys assembles. */
  function UpdateData(s: Status, body: map<string, Value>): (data: map<string, Value>)
    ensures data.Keys <= body.Keys && data.Keys <= SchemaPaths
    ensures s == Ongoing ==> data.Keys <= AllowedIfOngoing
    ensures forall key :: key in data ==> data[key] == body[key]
    ensures forall key :: key in body && Kept(s, key) ==> key in data
  {
    map key | key in body && Kept(s, key) :: body[key]
  }

  /** The whole update endpoint on a loaded activity. */
  function Update(a: Activity, body: map<string, Value>): (r: Result<Activity, Failure>)
    ensures r.Ok? <==> forall key :: key in body && Kept(a.status, key) ==> Acceptable(key, body[key])
    ensures r.Err? ==> r.error == Invalid
    ensures r.Ok? ==>
      var data := UpdateData(a.status, body);
      Carries(r.value, data) && AgreeOutside(a, r.value, data.Keys) &&
      r.value.participants == a.participants && r.value.images == a.images
    ensures r.Ok? && SchemaValid(a) ==> SchemaValid(r.value)
  {
    match ApplyUpdate(a, UpdateData(a.status, body))
    case Some(b) => Ok(b)
    case None => Err(Invalid)
  }

  /**
   * While an activity is ongoing an update touches only the five allowed paths, so it stays
   * ongoing and its participant list and counter are kept.
   */
  lemma OngoingUpdateIsLimited(a: Activity, body: map<string, Value>)
    requires a.status == Ongoing
    requires Update(a, body).Ok?
    ensures AgreeOutside(a, Update(a, body).value, AllowedIfOngoing)
    ensures Update(a, body).value.status == Ongoing
    ensures Consistent(a) ==> Consistent(Update(a, body).value)
  {
    var data := UpdateData(a.status, body);
    var b := ApplyUpdate(a, data).value;
    assert AgreeOutside(a, b, data.Keys);
  }

  /** A completed activity can be put back into draft by an update: "completed" is not terminal. */
  lemma CompletedIsNotTerminal(a: Activity)
    requires a.status == Completed
    ensures Update(a, map["status" := Text("draft")]) == Ok(a.(status := Draft))
  {
    var body := map["status" := Text("draft")];
    var data := UpdateData(a.status, body);
    assert data == body;
    var r := ApplyUpdate(a, data);
    assert r.Some?;
    assert AgreeOutside(a, r.value, {"status"}) && Carries(r.value, data);
    assert StatusName(r.value.status) == "draft";
  }

  /** An update of an activity that is not ongoing can set the counter away from the list length. */
  lemma UpdateCanBreakCount(a: Activity)
    requires a.status != Ongoing
    ensures Update(a, map["currentParticipants" := Num(|a.participants| + 1)]).Ok?
    ensures !Consistent(Update(a, map["currentParticipants" := Num(|a.participants| + 1)]).value)
  {
    var body := map["currentParticipants" := Num(|a.participants| + 1)];
    var data := UpdateData(a.status, body);
    assert data == body;
    var r := ApplyUpdate(a, data);
    assert r.Some?;
    assert Carries(r.value, data) && AgreeOutside(a, r.value, data.Keys);
  }

  // ----- get, delete, start, complete -----

  /** `getActivity`: students see only ongoing activities. */
  function View(a: Activity, role: Role): (r: Result<Activity, Failure>)
    ensures r.Err? <==> role == Student && a.status != Ongoing
    ensures r.Err? ==> r.error == Forbidden
    ensures r.Ok? ==> r.value == a
  {
    if role == Student && a.status != Ongoing then Err(Forbidden) else Ok(a)
  }

  /** `deleteActivity`'s guard: an ongoing activity cannot be deleted. */
  function Deletable(a: Activity): (r: Result<(), Failure>)
    ensures r.Ok? <==> a.status != Ongoing
    ensures r.Err? ==> r.error == OngoingNotDeletable
  {
    if a.status == Ongoing then Err(OngoingNotDeletable) else Ok(())
  }

  /** `startActivity`: only a draft starts, and it becomes ongoing. */
  function Start(a: Activity): (r: Result<Activity, Failure>)
    ensures r.Ok? <==> a.status == Draft
    ensures r.Err? ==> r.error == NotDraft
    ensures r.Ok? ==> r.value.status == Ongoing && AgreeOutside(a, r.value, {"status"})
    ensures r.Ok? && SchemaValid(a) ==> SchemaValid(r.value)
    ensures r.Ok? && Consistent(a) ==> Consistent(r.value)
  {
    if a.status != Draft then Err(NotDraft) else Ok(a.(status := Ongoing))
  }

  /**
   * `completeActivity`'s change to the document: only an ongoing activity completes; the
   * embedded participant entries are left exactly as they were.
   */
  function Complete(a: Activity): (r: Result<Activity, Failure>)
    ensures r.Ok? <==> a.status == Ongoing
    ensures r.Err? ==> r.error == NotOngoing
    ensures r.Ok? ==> r.value.status == Completed && AgreeOutside(a, r.value, {"status"})
    ensures r.Ok? && SchemaValid(a) ==> SchemaValid(r.value)
    ensures r.Ok? && Consistent(a) ==> Consistent(r.value)
  {
    if a.status != Ongoing then Err(NotOngoing) else Ok(a.(status := Completed))
  }

  // ----- enrollment -----

  /**
   * `signupActivity`: refuses, in this order, an activity that is not ongoing, a caller who
   * already has an entry and a full activity; otherwise appends one registered entry.
   */
  function Signup(a: Activity, u: UserId, now: Time): (r: Result<Activity, Failure>)
    ensures a.status != Ongoing ==> r == Err(NotOngoing)
    ensures a.status == Ongoing && Enrolled(a.participants, u) ==> r == Err(AlreadyRegistered)
    ensures (a.status == Ongoing && !Enrolled(a.participants, u) &&
             a.maxParticipants > 0 && |a.participants| >= a.maxParticipants) ==> r == Err(Full)
    ensures r.Ok? <==>
      a.status == Ongoing && !Enrolled(a.participants, u) &&
      !(a.maxParticipants > 0 && |a.participants| >= a.maxParticipants)
    ensures r.Ok? ==>
      r.value.participants == a.participants + [Participant(u, Registered, now)] &&
      r.value.currentParticipants == |r.value.participants| &&
      AgreeOutside(a, r.value, {"participants", "currentParticipants"})
    ensures r.Ok? ==> (a.maxParticipants > 0 ==> |r.value.participants| <= a.maxParticipants)
    ensures r.Ok? && Distinct(a.participants) ==> Consistent(r.value)
    ensures r.Ok? && SchemaValid(a) ==> SchemaValid(r.value)
  {
    if a.status != Ongoing then Err(NotOngoing)
    else if EntryIndex(a.participants, u) != -1 then Err(AlreadyRegistered)
    else if a.maxParticipants > 0 && |a.participants| >= a.maxParticipants then Err(Full)
    else
      var ps := a.participants + [Participant(u, Registered, now)];
      Ok(a.(participants := ps, currentParticipants := |ps|))
  }

  /**
   * `cancelSignupActivity`: refuses an activity that is not ongoing and a caller without an
   * entry; otherwise removes the caller's first entry and recounts.
   */
  function CancelSignup(a: Activity, u: UserId): (r: Result<Activity, Failure>)
    ensures a.status != Ongoing ==> r == Err(NotOngoing)
    ensures a.status == Ongoing && !Enrolled(a.participants, u) ==> r == Err(NotRegistered)
    ensures a.status == Ongoing && Enrolled(a.participants, u) ==> r.Ok?
    ensures r.Ok? ==>
      var k := EntryIndex(a.participants, u);
      0 <= k && a.participants[k].user == u &&
      r.value.participants == a.participants[..k] + a.participants[k + 1..] &&
      r.value.currentParticipants == |r.value.participants| &&
      AgreeOutside(a, r.value, {"participants", "currentParticipants"})
    ensures r.Ok? && Distinct(a.participants) ==>
      Consistent(r.value) && !Enrolled(r.value.participants, u) &&
      forall v :: v != u ==> (Enrolled(r.value.participants, v) <==> Enrolled(a.participants, v))
    ensures r.Ok? && SchemaValid(a) ==> SchemaValid(r.value)
  {
    if a.status != Ongoing then Err(NotOngoing)
    else
      var k := EntryIndex(a.participants, u);
      if k == -1 then Err(NotRegistered)
      else
        var ps := Sequences.RemoveAt(a.participants, k);
        assert ps == a.participants[..k] + a.participants[k + 1..];
        var b := a.(participants := ps, currentParticipants := |ps|);
        if Distinct(a.participants) then
          RemoveEntryKeepsOthers(a.participants, k);
          Ok(b)
        else Ok(b)
  }

  lemma RemoveEntryKeepsOthers(ps: seq<Participant>, k: nat)
    requires k < |ps| && Distinct(ps)
    ensures Distinct(Sequences.RemoveAt(ps, k))
    ensures !Enrolled(Sequences.RemoveAt(ps, k), ps[k].user)
    ensures forall v :: v != ps[k].user ==> (Enrolled(Sequences.RemoveAt(ps, k), v) <==> Enrolled(ps, v))
  {
    var rs := Sequences.RemoveAt(ps, k);
    forall v | v != ps[k].user && Enrolled(ps, v) ensures Enrolled(rs, v) {
      var i :| 0 <= i < |ps| && ps[i].user == v;
      if i < k { assert rs[i].user == v; } else { assert rs[i - 1].user == v; }
    }
  }

  /**
   * The check-in edit with the status string it writes: refuses an activity that is not
   * ongoing, a missing stored code or a submitted code that differs from it, and a caller
   * without an entry; otherwise sets the caller's entry to `mark`.
   */
  function MarkEntry(a: Activity, u: UserId, code: Option<string>, mark: string): (r: Result<Activity, Failure>)
    ensures a.status != Ongoing ==> r == Err(NotOngoing)
    ensures a.status == Ongoing && (!Truthy(a.checkInCode) || code != a.checkInCode) ==> r == Err(WrongCode)
    ensures a.status == Ongoing && Truthy(a.checkInCode) && code == a.checkInCode && !Enrolled(a.participants, u) ==>
      r == Err(NotRegistered)
    ensures r.Ok? <==> a.status == Ongoing && Truthy(a.checkInCode) && code == a.checkInCode && Enrolled(a.participants, u)
    ensures r.Ok? ==>
      var k := EntryIndex(a.participants, u);
      0 <= k && r.value.participants == a.participants[k := a.participants[k].(status := mark)] &&
      AgreeOutside(a, r.value, {"participants"})
  {
    if a.status != Ongoing then Err(NotOngoing)
    else if !Truthy(a.checkInCode) || code != a.checkInCode then Err(WrongCode)
    else
      var k := EntryIndex(a.participants, u);
      if k == -1 then Err(NotRegistered)
      else Ok(a.(participants := a.participants[k := a.participants[k].(status := mark)]))
  }

  /** Check-in as evidently intended: the caller's entry, and only it, becomes "checked-in". */
  function CheckIn(a: Activity, u: UserId, code: Option<string>): (r: Result<Activity, Failure>)
    ensures a.status != Ongoing ==> r == Err(NotOngoing)
    ensures a.status == Ongoing && (!Truthy(a.checkInCode) || code != a.checkInCode) ==> r == Err(WrongCode)
    ensures a.status == Ongoing && Truthy(a.checkInCode) && code == a.checkInCode && !Enrolled(a.participants, u) ==>
      r == Err(NotRegistered)
    ensures r.Ok? <==> a.status == Ongoing && Truthy(a.checkInCode) && code == a.checkInCode && Enrolled(a.participants, u)
    ensures r.Ok? ==>
      var k := EntryIndex(a.participants, u);
      0 <= k && a.participants[k].user == u &&
      r.value.participants == a.participants[k := a.participants[k].(status := CheckedIn)] &&
      AgreeOutside(a, r.value, {"participants"})
    ensures r.Ok? ==>
      |r.value.participants| == |a.participants| &&
      (forall k :: 0 <= k < |a.participants| && a.participants[k].user != u ==> r.value.participants[k] == a.participants[k]) &&
      (exists k :: 0 <= k < |a.participants| && r.value.participants[k] == a.participants[k].(status := CheckedIn) &&
        a.participants[k].user == u)
    ensures r.Ok? && SchemaValid(a) ==> SchemaValid(r.value)
    ensures r.Ok? && Consistent(a) ==> Consistent(r.value)
  {
    var r := MarkEntry(a, u, code, CheckedIn);
    if r.Ok? then
      var k := EntryIndex(a.participants, u);
      assert r.value.participants[k] == a.participants[k].(status := CheckedIn);
      r
    else r
  }

  /** Check-in as written: the entry gets "checkedIn", which the participant-status enum refuses. */
  function CheckInAsWritten(a: Activity, u: UserId, code: Option<string>): (r: Result<Activity, Failure>)
    ensures r.Ok? <==> a.status == Ongoing && Truthy(a.checkInCode) && code == a.checkInCode && Enrolled(a.participants, u)
    ensures r.Ok? ==> !SchemaValid(r.value)
  {
    var r := MarkEntry(a, u, code, "checkedIn");
    if r.Ok? then
      var k := EntryIndex(a.participants, u);
      assert !IsParticipantStatus(r.value.participants[k].status);
      r
    else r
  }

  /**
   * The properties a loaded User document answers: its schema paths, its virtuals and `id`.
   * Reading any other property yields `undefined`.
   */
  const UserProperties: set<string> := {
    "username", "password", "email", "phone", "role", "studentId", "college", "class", "avatar",
    "points", "status", "lastLoginAt", "lastActivityAt", "pointsHistory", "activities",
    "_id", "__v", "createdAt", "updatedAt",
    "activityCount", "checkedInCount", "totalEarnedPoints", "totalRedeemedPoints", "id"
  }

  /** A boolean property read: absent properties are `undefined`, which is falsy. */
  predicate Flag(flags: map<string, bool>, name: string) {
    name in flags && flags[name]
  }

  /**
   * `setCheckInCode` as written: it refuses unless the caller's `isAdmin` property is true,
   * given the caller's boolean-valued properties `flags`. No user has that property, so it always refuses.
   */
  function SetCheckInCodeAsWritten(a: Activity, flags: map<string, bool>, code: Option<string>): (r: Result<Activity, Failure>)
    requires flags.Keys <= UserProperties
    ensures r == Err(Forbidden)
  {
    if !Flag(flags, "isAdmin") then Err(Forbidden)
    else Ok(a.(checkInCode := code))
  }

  /** `setCheckInCode` as evidently intended: an administrator sets (or, with None, clears) the code. */
  function SetCheckInCode(a: Activity, role: Role, code: Option<string>): (r: Result<Activity, Failure>)
    ensures r.Ok? <==> role == Admin
    ensures r.Err? ==> r.error == Forbidden
    ensures r.Ok? ==> r.value.checkInCode == code && AgreeOutside(a, r.value, {"checkInCode"})
    ensures r.Ok? && SchemaValid(a) ==> SchemaValid(r.value)
  {
    if role != Admin then Err(Forbidden) else Ok(a.(checkInCode := code))
  }
}
