/**
 * The User document: its profile fields and their validation, the pre-validate hook that
 * strips student fields from administrators, the balance with its points history, the
 * activity registrations, the document methods that change them and the derived counters.
 * A method's changes reach the stored document only when the save that ends it validates.
 */
module Users {
  import opened Common
  import Formats
  import Sequences

  datatype HistoryKind = EarnEntry | RedeemEntry

  /** A `pointsHistory` entry; `description` is required, so it may not be empty. */
  datatype HistoryEntry = HistoryEntry(points: int, kind: HistoryKind, description: string,
                                       activity: Option<ActivityId>, date: Time)

  datatype RegStatus = RegRegistered | RegCheckedIn | RegAbsent

  function RegStatusName(s: RegStatus): string {
    match s
    case RegRegistered => "registered"
    case RegCheckedIn => "checked-in"
    case RegAbsent => "absent"
  }

  /** An entry of the user's `activities` list. */
  datatype Registration = Registration(activity: ActivityId, status: RegStatus, registeredAt: Time, checkedInAt: Option<Time>)

  /** The profile paths; the optional ones are absent when `undefined`. */
  datatype Profile = Profile(
    username: string, email: string, phone: string, role: Role,
    studentId: Option<string>, college: Option<string>, klass: Option<string>,
    avatar: string, active: bool)

  /**
   * The schema's validation of a document: required strings non-empty, the email and mobile
   * patterns, a student's number, college and class present and the number in its format,
   * a non-negative balance and a description on every history entry.
   */
  predicate Validates(p: Profile, points: int, history: seq<HistoryEntry>) {
    p.username != "" && Formats.ValidEmail(p.email) && Formats.ValidPhone(p.phone) &&
    (p.role == Student ==>
      Truthy(p.studentId) && Formats.ValidStudentId(p.studentId.value) && Truthy(p.college) && Truthy(p.klass)) &&
    points >= 0 &&
    forall k :: 0 <= k < |history| ==> history[k].description != ""
  }

  /** The pre-validate hook: an administrator loses the student fields and every point. */
  function PreValidate(p: Profile, points: int): (r: (Profile, int))
    ensures p.role == Admin ==>
      r.0 == p.(studentId := None, college := None, klass := None) && r.1 == 0
    ensures p.role == Student ==> r == (p, points)
    ensures r.0.role == p.role
  {
    if p.role == Admin then (p.(studentId := None, college := None, klass := None), 0) else (p, points)
  }

  /** Running the hook twice changes nothing more. */
  lemma PreValidateIdempotent(p: Profile, points: int)
    ensures var r := PreValidate(p, points); PreValidate(r.0, r.1) == r
  {
  }

  /** What a stored document satisfies: it went through the hook and validated. */
  predicate Stored(p: Profile, points: int, history: seq<HistoryEntry>) {
    PreValidate(p, points) == (p, points) && Validates(p, points, history)
  }

  /**
   * What a save of a loaded document needs: the hook's output validates. A document that
   * `findByIdAndUpdate` changed went through no hook, so a loaded document need not be
   * `Stored` (an administrator may carry a student number), yet it saves when this holds.
   */
  predicate Saves(p: Profile, points: int, history: seq<HistoryEntry>) {
    Validates(PreValidate(p, points).0, PreValidate(p, points).1, history)
  }

  /** What a save writes is stored, and a stored document saves unchanged. */
  lemma SavedIsStored(p: Profile, points: int, history: seq<HistoryEntry>)
    ensures Saves(p, points, history) <==> Stored(PreValidate(p, points).0, PreValidate(p, points).1, history)
    ensures Stored(p, points, history) ==> Saves(p, points, history) && PreValidate(p, points) == (p, points)
  {
  }

  /**
   * An administrator's stored document given a student number, as the administrator's edit
   * can do, is no longer `Stored`, yet it still saves, and the save restores the original.
   */
  lemma AdminWithStudentNumberSaves(p: Profile, points: int, history: seq<HistoryEntry>, sid: string)
    requires Stored(p, points, history) && p.role == Admin
    ensures var q := p.(studentId := Some(sid));
      !Stored(q, points, history) && Saves(q, points, history) && PreValidate(q, points) == (p, points)
  {
  }

  /** An administrator's stored balance is always zero. */
  lemma AdminBalanceIsZero(p: Profile, points: int, history: seq<HistoryEntry>)
    requires Stored(p, points, history) && p.role == Admin
    ensures points == 0 && p.studentId.None? && p.college.None? && p.klass.None?
  {
  }

  // ----- the virtuals -----

  /** `activityCount`. */
  function ActivityCount(regs: seq<Registration>): (n: nat)
    ensures CheckedInCount(regs) <= n
  {
    |regs|
  }

  /** `checkedInCount`: the registrations with status checked-in. */
  function CheckedInCount(regs: seq<Registration>): (n: nat)
    ensures n <= |regs|
  {
    if regs == [] then 0
    else CheckedInCount(regs[..|regs| - 1]) + (if regs[|regs| - 1].status == RegCheckedIn then 1 else 0)
  }

  /** The one-pass count is the length of the source's filter. */
  lemma {:induction false} CheckedInCountIsFilterLength(regs: seq<Registration>)
    ensures CheckedInCount(regs) == Sequences.Count(regs, (x: Registration) => x.status == RegCheckedIn)
  {
    if regs != [] {
      CheckedInCountIsFilterLength(regs[..|regs| - 1]);
      Sequences.FilterSnoc(regs, (x: Registration) => x.status == RegCheckedIn);
    }
  }

  /** `reduce((sum, h) => sum + h.points, 0)`. */
  function SumPoints(h: seq<HistoryEntry>): int {
    if h == [] then 0 else SumPoints(h[..|h| - 1]) + h[|h| - 1].points
  }

  function Abs(x: int): nat {
    if x < 0 then -x else x
  }

  /** `reduce((sum, h) => sum + Math.abs(h.points), 0)`. */
  function SumMagnitudes(h: seq<HistoryEntry>): nat {
    if h == [] then 0 else SumMagnitudes(h[..|h| - 1]) + Abs(h[|h| - 1].points)
  }

  /** `totalEarnedPoints`: the sum of the earn entries, folded in one pass over the history. */
  function TotalEarned(h: seq<HistoryEntry>): int {
    if h == [] then 0
    else TotalEarned(h[..|h| - 1]) + (if h[|h| - 1].kind == EarnEntry then h[|h| - 1].points else 0)
  }

  /** `totalRedeemedPoints`: the sum of the magnitudes of the redeem entries, in one pass. */
  function TotalRedeemed(h: seq<HistoryEntry>): nat {
    if h == [] then 0
    else TotalRedeemed(h[..|h| - 1]) + (if h[|h| - 1].kind == RedeemEntry then Abs(h[|h| - 1].points) else 0)
  }

  /** The one-pass totals are the source's filter-then-reduce sums. */
  lemma {:induction false} TotalsAreFilteredSums(h: seq<HistoryEntry>)
    ensures TotalEarned(h) == SumPoints(Sequences.Filter(h, (e: HistoryEntry) => e.kind == EarnEntry))
    ensures TotalRedeemed(h) == SumMagnitudes(Sequences.Filter(h, (e: HistoryEntry) => e.kind == RedeemEntry))
  {
    if h != [] {
      var init := h[..|h| - 1];
      TotalsAreFilteredSums(init);
      var earned := Sequences.Filter(init, (e: HistoryEntry) => e.kind == EarnEntry);
      var redeemed := Sequences.Filter(init, (e: HistoryEntry) => e.kind == RedeemEntry);
      Sequences.FilterSnoc(h, (e: HistoryEntry) => e.kind == EarnEntry);
      Sequences.FilterSnoc(h, (e: HistoryEntry) => e.kind == RedeemEntry);
      assert (earned + [h[|h| - 1]])[..|earned|] == earned;
      assert (redeemed + [h[|h| - 1]])[..|redeemed|] == redeemed;
    }
  }

  /** Appending an entry moves exactly the total of its own kind, by its amount. */
  lemma TotalsAppend(h: seq<HistoryEntry>, e: HistoryEntry)
    ensures TotalEarned(h + [e]) == TotalEarned(h) + (if e.kind == EarnEntry then e.points else 0)
    ensures TotalRedeemed(h + [e]) == TotalRedeemed(h) + (if e.kind == RedeemEntry then Abs(e.points) else 0)
  {
    assert (h + [e])[..|h|] == h;
  }

  /** Changing one registration moves the checked-in count by that entry alone. */
  lemma {:induction false} CheckedInCountUpdate(regs: seq<Registration>, k: nat, x: Registration)
    requires k < |regs|
    ensures CheckedInCount(regs[k := x]) ==
      CheckedInCount(regs) - (if regs[k].status == RegCheckedIn then 1 else 0) + (if x.status == RegCheckedIn then 1 else 0)
  {
    var n := |regs| - 1;
    if k < n {
      CheckedInCountUpdate(regs[..n], k, x);
      assert regs[k := x][..n] == regs[..n][k := x];
    } else {
      assert regs[k := x][..n] == regs[..n];
    }
  }

  lemma CheckedInCountAppend(regs: seq<Registration>, x: Registration)
    ensures CheckedInCount(regs + [x]) == CheckedInCount(regs) + (if x.status == RegCheckedIn then 1 else 0)
  {
    assert (regs + [x])[..|regs|] == regs;
  }

  // ----- registration list transitions -----

  datatype UserFailure = ValidationFailed | InsufficientPoints | AlreadyRegistered | NotRegistered | AlreadyCheckedIn

  /** The position of the registration for `id`, as `find` looks it up, or -1. */
  function RegIndex(regs: seq<Registration>, id: ActivityId): (r: int)
    ensures -1 <= r < |regs|
    ensures r >= 0 ==> regs[r].activity == id && forall k :: 0 <= k < r ==> regs[k].activity != id
    ensures r == -1 <==> forall k :: 0 <= k < |regs| ==> regs[k].activity != id
  {
    Sequences.FirstIndex(regs, (g: Registration) => g.activity == id)
  }

  /** `registerActivity`'s list change: refused when `id` is listed, else one registered entry appended. */
  function Register(regs: seq<Registration>, id: ActivityId, now: Time): (r: Result<seq<Registration>, UserFailure>)
    ensures r.Err? <==> exists k :: 0 <= k < |regs| && regs[k].activity == id
    ensures r.Err? ==> r.error == AlreadyRegistered
    ensures r.Ok? ==> r.value == regs + [Registration(id, RegRegistered, now, None)]
    ensures r.Ok? ==> ActivityCount(r.value) == ActivityCount(regs) + 1 && CheckedInCount(r.value) == CheckedInCount(regs)
  {
    if RegIndex(regs, id) != -1 then Err(AlreadyRegistered)
    else
      CheckedInCountAppend(regs, Registration(id, RegRegistered, now, None));
      Ok(regs + [Registration(id, RegRegistered, now, None)])
  }

  /**
   * `checkInActivity`'s list change: the first registration for `id` becomes checked-in at
   * `now`; refused when there is none or it is already checked in.
   */
  function CheckIn(regs: seq<Registration>, id: ActivityId, now: Time): (r: Result<seq<Registration>, UserFailure>)
    ensures RegIndex(regs, id) == -1 <==> r == Err(NotRegistered)
    ensures (RegIndex(regs, id) >= 0 && regs[RegIndex(regs, id)].status == RegCheckedIn) <==> r == Err(AlreadyCheckedIn)
    ensures r.Ok? <==> RegIndex(regs, id) >= 0 && regs[RegIndex(regs, id)].status != RegCheckedIn
    ensures r.Ok? ==>
      var k := RegIndex(regs, id);
      |r.value| == |regs| &&
      r.value[k] == regs[k].(status := RegCheckedIn, checkedInAt := Some(now)) &&
      (forall j :: 0 <= j < |regs| && j != k ==> r.value[j] == regs[j])
    ensures r.Ok? ==> ActivityCount(r.value) == ActivityCount(regs) && CheckedInCount(r.value) == CheckedInCount(regs) + 1
  {
    var k := RegIndex(regs, id);
    if k == -1 then Err(NotRegistered)
    else if regs[k].status == RegCheckedIn then Err(AlreadyCheckedIn)
    else
      var x := regs[k].(status := RegCheckedIn, checkedInAt := Some(now));
      CheckedInCountUpdate(regs, k, x);
      Ok(regs[k := x])
  }

  /** A user document as loaded and saved. */
  class UserDoc {
    var profile: Profile
    var points: int
    var pointsHistory: seq<HistoryEntry>
    var activities: seq<Registration>
    var lastActivityAt: Option<Time>

    /**
     * The document as a save leaves it. A loaded document need not satisfy this: one that
     * an administrator's edit reached went through no hook, and the methods accept it.
     */
    ghost predicate Valid()
      reads this
    {
      Stored(profile, points, pointsHistory)
    }

    /** A new document: saved with an empty history and no registrations when it validates. */
    constructor(p: Profile, initialPoints: int)
      requires Validates(PreValidate(p, initialPoints).0, PreValidate(p, initialPoints).1, [])
      ensures (profile, points) == PreValidate(p, initialPoints)
      ensures pointsHistory == [] && activities == [] && lastActivityAt.None?
      ensures Valid()
    {
      var (q, n) := PreValidate(p, initialPoints);
      profile, points := q, n;
      pointsHistory, activities, lastActivityAt := [], [], None;
    }

    /**
     * `addPoints`: the balance rises by `amount` and one earn entry is appended; the save
     * runs the hook, which resets an administrator's balance to zero and strips any student
     * fields, and then validates. It fails, with nothing stored, when the result would not
     * validate: for a stored document, a negative balance or an empty description.
     */
    method AddPoints(amount: int, description: string, activity: Option<ActivityId>, now: Time)
      returns (r: Result<(), UserFailure>)
      modifies this
      ensures r.Ok? <==>
        Saves(old(profile), old(points) + amount, old(pointsHistory) + [HistoryEntry(amount, EarnEntry, description, activity, now)])
      ensures old(Valid()) ==>
        (r.Ok? <==> (old(profile).role == Admin || old(points) + amount >= 0) && description != "")
      ensures r.Err? ==> r.error == ValidationFailed && unchanged(this)
      ensures r.Ok? ==> Valid()
      ensures r.Ok? ==>
        (profile, points) == PreValidate(old(profile), old(points) + amount) &&
        points == (if profile.role == Admin then 0 else old(points) + amount) &&
        pointsHistory == old(pointsHistory) + [HistoryEntry(amount, EarnEntry, description, activity, now)] &&
        activities == old(activities) && lastActivityAt == old(lastActivityAt)
      ensures old(Valid()) && r.Ok? ==> profile == old(profile)
      ensures r.Ok? ==> TotalEarned(pointsHistory) == TotalEarned(old(pointsHistory)) + amount &&
                        TotalRedeemed(pointsHistory) == TotalRedeemed(old(pointsHistory))
      ensures r.Ok? && profile.role == Student ==>
        points - old(points) ==
        (TotalEarned(pointsHistory) - TotalRedeemed(pointsHistory)) -
        (TotalEarned(old(pointsHistory)) - TotalRedeemed(old(pointsHistory)))
    {
      var (q, n) := PreValidate(profile, points + amount);
      var entry := HistoryEntry(amount, EarnEntry, description, activity, now);
      var h := pointsHistory + [entry];
      if !Validates(q, n, h) {
        return Err(ValidationFailed);
      }
      TotalsAppend(pointsHistory, entry);
      profile, points, pointsHistory := q, n, h;
      r := Ok(());
    }

    /**
     * `deductPoints`: refused, with nothing changed, when the balance is below `amount`;
     * otherwise the balance drops by `amount`, one redeem entry of `-amount` is appended and
     * the document is saved through the hook as in `AddPoints`.
     */
    method DeductPoints(amount: int, description: string, activity: Option<ActivityId>, now: Time)
      returns (r: Result<(), UserFailure>)
      modifies this
      ensures old(points) < amount <==> r == Err(InsufficientPoints)
      ensures old(points) >= amount ==>
        (r.Ok? <==>
         Saves(old(profile), old(points) - amount, old(pointsHistory) + [HistoryEntry(-amount, RedeemEntry, description, activity, now)]))
      ensures old(points) >= amount && r.Err? ==> r.error == ValidationFailed
      ensures old(Valid()) && old(points) >= amount ==> (r.Ok? <==> description != "")
      ensures r.Err? ==> unchanged(this)
      ensures r.Ok? ==> Valid()
      ensures r.Ok? ==>
        (profile, points) == PreValidate(old(profile), old(points) - amount) &&
        points == (if profile.role == Admin then 0 else old(points) - amount) &&
        pointsHistory == old(pointsHistory) + [HistoryEntry(-amount, RedeemEntry, description, activity, now)] &&
        activities == old(activities) && lastActivityAt == old(lastActivityAt)
      ensures old(Valid()) && r.Ok? ==> profile == old(profile)
      ensures r.Ok? ==> TotalRedeemed(pointsHistory) == TotalRedeemed(old(pointsHistory)) + Abs(amount) &&
                        TotalEarned(pointsHistory) == TotalEarned(old(pointsHistory))
      ensures r.Ok? && profile.role == Student && amount >= 0 ==>
        points - old(points) ==
        (TotalEarned(pointsHistory) - TotalRedeemed(pointsHistory)) -
        (TotalEarned(old(pointsHistory)) - TotalRedeemed(old(pointsHistory)))
    {
      if points < amount {
        return Err(InsufficientPoints);
      }
      var (q, n) := PreValidate(profile, points - amount);
      var entry := HistoryEntry(-amount, RedeemEntry, description, activity, now);
      var h := pointsHistory + [entry];
      if !Validates(q, n, h) {
        return Err(ValidationFailed);
      }
      TotalsAppend(pointsHistory, entry);
      assert Abs(entry.points) == Abs(amount);
      profile, points, pointsHistory := q, n, h;
      r := Ok(());
    }

    /** `registerActivity`: the list change of `Register`, then a save through the hook. */
    method RegisterActivity(id: ActivityId, now: Time) returns (r: Result<(), UserFailure>)
      modifies this
      ensures Register(old(activities), id, now).Err? ==> r == Err(AlreadyRegistered)
      ensures r.Ok? <==> Register(old(activities), id, now).Ok? && Saves(old(profile), old(points), old(pointsHistory))
      ensures r.Err? && Register(old(activities), id, now).Ok? ==> r.error == ValidationFailed
      ensures old(Valid()) ==> r == (match Register(old(activities), id, now) case Ok(_) => Ok(()) case Err(e) => Err(e))
      ensures r.Err? ==> unchanged(this)
      ensures r.Ok? ==> Valid()
      ensures r.Ok? ==>
        activities == Register(old(activities), id, now).value &&
        (profile, points) == PreValidate(old(profile), old(points)) && pointsHistory == old(pointsHistory) &&
        lastActivityAt == old(lastActivityAt)
      ensures old(Valid()) && r.Ok? ==> profile == old(profile) && points == old(points)
    {
      match Register(activities, id, now)
      case Err(e) =>
        r := Err(e);
      case Ok(regs) =>
        var (q, n) := PreValidate(profile, points);
        if !Validates(q, n, pointsHistory) {
          return Err(ValidationFailed);
        }
        profile, points, activities := q, n, regs;
        r := Ok(());
    }

    /**
     * `checkInActivity`: the list change of `CheckIn` and the last-activity time, then a
     * save through the hook.
     */
    method CheckInActivity(id: ActivityId, now: Time) returns (r: Result<(), UserFailure>)
      modifies this
      ensures CheckIn(old(activities), id, now).Err? ==> r == Err(CheckIn(old(activities), id, now).error)
      ensures r.Ok? <==> CheckIn(old(activities), id, now).Ok? && Saves(old(profile), old(points), old(pointsHistory))
      ensures r.Err? && CheckIn(old(activities), id, now).Ok? ==> r.error == ValidationFailed
      ensures old(Valid()) ==> r == (match CheckIn(old(activities), id, now) case Ok(_) => Ok(()) case Err(e) => Err(e))
      ensures r.Err? ==> unchanged(this)
      ensures r.Ok? ==> Valid()
      ensures r.Ok? ==>
        activities == CheckIn(old(activities), id, now).value && lastActivityAt == Some(now) &&
        (profile, points) == PreValidate(old(profile), old(points)) && pointsHistory == old(pointsHistory)
      ensures old(Valid()) && r.Ok? ==> profile == old(profile) && points == old(points)
    {
      match CheckIn(activities, id, now)
      case Err(e) =>
        r := Err(e);
      case Ok(regs) =>
        var (q, n) := PreValidate(profile, points);
        if !Validates(q, n, pointsHistory) {
          return Err(ValidationFailed);
        }
        profile, points, activities := q, n, regs;
        lastActivityAt := Some(now);
        r := Ok(());
    }

    /**
     * `getPointsHistory(limit = 10)`: the loaded history is sorted newest first in place
     * (a reordering only) and its first `limit` entries are returned; nothing is saved.
     */
    method GetPointsHistory(limit: Option<int>) returns (r: seq<HistoryEntry>)
      modifies this
      ensures Valid() <==> old(Valid())
      ensures multiset(pointsHistory) == multiset(old(pointsHistory))
      ensures Sequences.SortedDesc(pointsHistory, (e: HistoryEntry) => e.date)
      ensures r == Sequences.SliceFromStart(pointsHistory, if limit.None? then 10 else limit.value)
      ensures profile == old(profile) && points == old(points) && activities == old(activities) &&
              lastActivityAt == old(lastActivityAt)
    {
      var sorted := Sequences.SortDesc(pointsHistory, (e: HistoryEntry) => e.date);
      DescribedIsPermutationInvariant(pointsHistory, sorted);
      pointsHistory := sorted;
      r := Sequences.SliceFromStart(pointsHistory, if limit.None? then 10 else limit.value);
    }

    /**
     * `getActivitiesHistory(status)`: with a truthy status, a sorted copy of the matching
     * registrations, the document untouched; without one, the registrations themselves,
     * sorted newest first in place.
     */
    method GetActivitiesHistory(status: Option<string>) returns (r: seq<Registration>)
      modifies this
      ensures Valid() <==> old(Valid())
      ensures Truthy(status) ==> unchanged(this)
      ensures Truthy(status) ==>
        multiset(r) == multiset(Sequences.Filter(activities, (g: Registration) => RegStatusName(g.status) == status.value))
      ensures !Truthy(status) ==> r == activities && multiset(activities) == multiset(old(activities))
      ensures Sequences.SortedDesc(r, (g: Registration) => g.registeredAt)
      ensures profile == old(profile) && points == old(points) && pointsHistory == old(pointsHistory) &&
              lastActivityAt == old(lastActivityAt)
    {
      if Truthy(status) {
        var matching := Sequences.Filter(activities, (g: Registration) => RegStatusName(g.status) == status.value);
        r := Sequences.SortDesc(matching, (g: Registration) => g.registeredAt);
      } else {
        activities := Sequences.SortDesc(activities, (g: Registration) => g.registeredAt);
        r := activities;
      }
    }
  }

  /** Reordering a history keeps whether every entry has a description. */
  lemma DescribedIsPermutationInvariant(h1: seq<HistoryEntry>, h2: seq<HistoryEntry>)
    requires multiset(h1) == multiset(h2)
    ensures (forall k :: 0 <= k < |h1| ==> h1[k].description != "") <==>
            (forall k :: 0 <= k < |h2| ==> h2[k].description != "")
  {
    forall k | 0 <= k < |h2| ensures h2[k] in h1 {
      assert h2[k] in multiset(h1);
    }
    forall k | 0 <= k < |h1| ensures h1[k] in h2 {
      assert h1[k] in multiset(h2);
    }
  }

  /**
   * For a student, the balance and the history move together: each successful add or
   * deduction of a non-negative amount changes the balance by exactly the change of
   * earned minus redeemed.
   */
  lemma StudentBalanceTracksHistory(points: int, h: seq<HistoryEntry>, amount: nat, e: HistoryEntry, newPoints: int)
    requires (e.kind == EarnEntry && e.points == amount && newPoints == points + amount) ||
             (e.kind == RedeemEntry && e.points == -(amount as int) && newPoints == points - amount)
    ensures newPoints - points ==
      (TotalEarned(h + [e]) - TotalRedeemed(h + [e])) - (TotalEarned(h) - TotalRedeemed(h))
  {
    TotalsAppend(h, e);
  }

  /**
   * For an administrator the hook breaks that link: whatever the balance, an add of a
   * positive amount leaves it at zero while the earned total grows by the amount.
   */
  lemma AdminAddBreaksTracking(p: Profile, points: int, h: seq<HistoryEntry>, amount: int, e: HistoryEntry)
    requires p.role == Admin && amount > 0 && e.kind == EarnEntry && e.points == amount
    ensures PreValidate(p, points + amount).1 == 0
    ensures TotalEarned(h + [e]) == TotalEarned(h) + amount
  {
    TotalsAppend(h, e);
  }
}
