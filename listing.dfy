/**
 * `getAllActivities` and `getActivityStats`: the query conditions built from the request,
 * the paging arithmetic, the per-item flags added to every listed activity, and the
 * per-status summary. The database sort, skip and limit are modelled on the sequence of
 * stored documents.
 */
module Listing {
  import opened Common
  import opened ActivitySchema
  import opened Lifecycle
  import Sequences
  import Activities

  /**
   * The query string after `parseInt`: `None` stands for `NaN` (absent or not a number).
   * The three filters are the raw strings, absent when not supplied.
   */
  datatype ListQuery = ListQuery(
    page: Option<int>, limit: Option<int>, title: Option<string>, kind: Option<string>, status: Option<string>)

  /** `parseInt(req.query.page) || 1`: `NaN` and `0` are falsy. */
  function PageOf(p: Option<int>): (r: int)
    ensures r != 0
    ensures p.Some? && p.value != 0 ==> r == p.value
    ensures p.None? || p.value == 0 ==> r == 1
  {
    if p.Some? && p.value != 0 then p.value else 1
  }

  /** `parseInt(req.query.limit) || 10`. */
  function LimitOf(l: Option<int>): (r: int)
    ensures r != 0
    ensures l.Some? && l.value != 0 ==> r == l.value
    ensures l.None? || l.value == 0 ==> r == 10
  {
    if l.Some? && l.value != 0 then l.value else 10
  }

  /** How many documents a cursor limit of `limit` yields at most: a negative limit counts its magnitude. */
  function Magnitude(limit: int): (n: nat)
    ensures n == limit || n == -limit
  {
    if limit < 0 then -limit else limit
  }

  /** `Math.ceil(total / limit)` for a non-zero integer limit (JavaScript's `-0` reads as 0). */
  function TotalPages(total: nat, limit: int): (r: int)
    requires limit != 0
    ensures limit > 0 ==> r >= 0 && r * limit >= total && (r - 1) * limit < total
    ensures limit < 0 ==> r <= 0 && -r * -limit <= total < (-r + 1) * -limit
  {
    if limit > 0 then
      var q := (total + limit - 1) / limit;
      assert q * limit == total + limit - 1 - (total + limit - 1) % limit;
      assert (q - 1) * limit == q * limit - limit;
      q
    else
      var q := total / -limit;
      assert q * -limit == total - total % -limit;
      assert (q + 1) * -limit == q * -limit + -limit;
      -q
  }

  /** The conditions of the database query; absent means "no condition on that path". */
  datatype Conditions = Conditions(title: Option<string>, kind: Option<string>, status: Option<string>)

  /**
   * Only truthy filters become conditions, and a student's status condition is always
   * "ongoing", whatever the request says.
   */
  function ConditionsOf(q: ListQuery, role: Role): (c: Conditions)
    ensures c.title == (if Truthy(q.title) then q.title else None)
    ensures c.kind == (if Truthy(q.kind) then q.kind else None)
    ensures role == Student ==> c.status == Some("ongoing")
    ensures role == Admin ==> c.status == (if Truthy(q.status) then q.status else None)
  {
    Conditions(
      if Truthy(q.title) then q.title else None,
      if Truthy(q.kind) then q.kind else None,
      if role == Student then Some("ongoing") else if Truthy(q.status) then q.status else None)
  }

  /**
   * Whether a document satisfies the conditions. The case-insensitive regular-expression
   * match on the title is the parameter `titleMatch(pattern, title)`.
   */
  predicate Matches(c: Conditions, titleMatch: (string, string) -> bool, a: Activity) {
    (c.title.None? || titleMatch(c.title.value, a.title)) &&
    (c.kind.None? || TypeName(a.kind) == c.kind.value) &&
    (c.status.None? || StatusName(a.status) == c.status.value)
  }

  /** A listed activity: the document plus the three fields the handler adds. */
  datatype Listed = Listed(activity: Activity, participantsCount: nat, isRegistrationOpen: bool, isParticipant: bool)

  /** The per-document flags of the listing. */
  function Annotate(a: Activity, caller: UserId): (r: Listed)
    ensures r.activity == a
    ensures r.participantsCount == |a.participants|
    ensures r.isRegistrationOpen <==>
      a.status == Ongoing && (a.maxParticipants == 0 || |a.participants| < a.maxParticipants)
    ensures r.isParticipant <==> exists k :: 0 <= k < |a.participants| && a.participants[k].user == caller
  {
    Listed(a, |a.participants|,
           a.status == Ongoing && (a.maxParticipants == 0 || |a.participants| < a.maxParticipants),
           Enrolled(a.participants, caller))
  }

  /** On a document the schema accepts, the "0 means unlimited" branch never applies. */
  lemma RegistrationOpenOnValidDocument(a: Activity, caller: UserId)
    requires SchemaValid(a)
    ensures Annotate(a, caller).isRegistrationOpen <==> a.status == Ongoing && |a.participants| < a.maxParticipants
  {
    ValidCapacityIsBounded(a);
  }

  /** `skip(skip).limit(n)` on an ordered result. */
  function Window<T>(xs: seq<T>, skip: nat, n: nat): (r: seq<T>)
    ensures |r| <= n
    ensures |r| == if skip >= |xs| then 0 else if |xs| - skip < n then |xs| - skip else n
    ensures forall k :: 0 <= k < |r| ==> skip + k < |xs| && r[k] == xs[skip + k]
  {
    if skip >= |xs| then []
    else if |xs| - skip < n then xs[skip..]
    else xs[skip..skip + n]
  }

  /** The annotated window of `selected` the page shows. */
  function Items(selected: seq<Activity>, skip: nat, n: nat, caller: UserId): (items: seq<Listed>)
    ensures |items| <= n
    ensures |items| == if skip >= |selected| then 0 else if |selected| - skip < n then |selected| - skip else n
    ensures forall k :: 0 <= k < |items| ==>
      skip + k < |selected| && items[k] == Annotate(selected[skip + k], caller)
  {
    var window := Window(selected, skip, n);
    seq(|window|, k requires 0 <= k < |window| => Annotate(window[k], caller))
  }

  /** The number of documents skipped before page `page`. */
  function Skip(page: int, limit: int): int {
    (page - 1) * limit
  }

  /** One page of the listing as the handler returns it. */
  datatype Listing = Listing(items: seq<Listed>, page: int, limit: int, total: nat, totalPages: int)

  /** The documents matching the request, newest first. */
  function Selected(docs: seq<Activity>, c: Conditions, titleMatch: (string, string) -> bool): (r: seq<Activity>)
    ensures forall d :: d in r <==> d in docs && Matches(c, titleMatch, d)
    ensures |r| == Sequences.Count(docs, (d: Activity) => Matches(c, titleMatch, d))
    ensures Sequences.SortedDesc(r, (d: Activity) => d.createdAt)
  {
    var matching := Sequences.Filter(docs, (d: Activity) => Matches(c, titleMatch, d));
    var r := Sequences.SortDesc(matching, (d: Activity) => d.createdAt);
    forall d ensures d in r <==> d in matching {
      assert d in r <==> d in multiset(r);
      assert d in matching <==> d in multiset(matching);
    }
    r
  }

  /**
   * `getAllActivities` over the stored documents `docs`. A negative skip is refused by the
   * database, which makes the handler answer with an error.
   */
  function List(docs: seq<Activity>, q: ListQuery, role: Role, caller: UserId,
                titleMatch: (string, string) -> bool): (r: Result<Listing, Failure>)
    ensures r.Err? <==> Skip(PageOf(q.page), LimitOf(q.limit)) < 0
    ensures r.Ok? ==> r.value.page == PageOf(q.page) && r.value.limit == LimitOf(q.limit)
    ensures r.Ok? ==> |r.value.items| <= Magnitude(r.value.limit)
    ensures r.Ok? ==>
      var skip := Skip(r.value.page, r.value.limit);
      |r.value.items| == if skip >= r.value.total then 0
                         else if r.value.total - skip < Magnitude(r.value.limit) then r.value.total - skip
                         else Magnitude(r.value.limit)
    ensures r.Ok? ==>
      r.value.total == Sequences.Count(docs, (d: Activity) => Matches(ConditionsOf(q, role), titleMatch, d)) &&
      r.value.totalPages == TotalPages(r.value.total, r.value.limit)
    ensures r.Ok? ==> forall k :: 0 <= k < |r.value.items| ==>
      var it := r.value.items[k];
      it.activity in docs && Matches(ConditionsOf(q, role), titleMatch, it.activity) &&
      it == Annotate(it.activity, caller)
    ensures r.Ok? ==> forall i, j :: 0 <= i < j < |r.value.items| ==>
      r.value.items[i].activity.createdAt >= r.value.items[j].activity.createdAt
    ensures r.Ok? ==>
      var selected := Selected(docs, ConditionsOf(q, role), titleMatch);
      var skip := Skip(r.value.page, r.value.limit);
      r.value.total == |selected| &&
      forall k :: 0 <= k < |r.value.items| ==>
        skip + k < |selected| && r.value.items[k] == Annotate(selected[skip + k], caller)
  {
    var page := PageOf(q.page);
    var limit := LimitOf(q.limit);
    var skip := Skip(page, limit);
    if skip < 0 then Err(Invalid)
    else
      var selected := Selected(docs, ConditionsOf(q, role), titleMatch);
      var items := Items(selected, skip, Magnitude(limit), caller);
      assert forall k :: 0 <= k < |items| ==> items[k].activity in selected;
      Ok(Listing(items, page, limit, |selected|, TotalPages(|selected|, limit)))
  }

  /** Without page and limit the first ten matches are listed. */
  lemma DefaultPaging(docs: seq<Activity>, q: ListQuery, role: Role, caller: UserId,
                      titleMatch: (string, string) -> bool)
    requires q.page.None? && q.limit.None?
    ensures List(docs, q, role, caller, titleMatch).Ok?
    ensures var l := List(docs, q, role, caller, titleMatch).value;
      l.page == 1 && l.limit == 10 && |l.items| == if l.total < 10 then l.total else 10
  {
  }

  /**
   * A student is listed only ongoing activities, and the status filter of the request makes
   * no difference to what a student is listed.
   */
  lemma StudentSeesOnlyOngoing(docs: seq<Activity>, q: ListQuery, caller: UserId,
                               titleMatch: (string, string) -> bool, status: Option<string>)
    ensures var r := List(docs, q, Student, caller, titleMatch);
      r.Ok? ==> forall k :: 0 <= k < |r.value.items| ==> r.value.items[k].activity.status == Ongoing
    ensures List(docs, q, Student, caller, titleMatch) == List(docs, q.(status := status), Student, caller, titleMatch)
  {
    var r := List(docs, q, Student, caller, titleMatch);
    if r.Ok? {
      forall k | 0 <= k < |r.value.items|
        ensures r.value.items[k].activity.status == Ongoing
      {
        var a := r.value.items[k].activity;
        assert StatusName(a.status) == "ongoing";
        StatusNamesRoundTrip(a.status);
      }
    }
    assert ConditionsOf(q, Student) == ConditionsOf(q.(status := status), Student);
  }

  /**
   * With a positive limit the pages partition the matches: every page before the last is
   * full, and every page after the last one is empty.
   */
  lemma PagesCoverMatches(selected: seq<Activity>, page: int, limit: int, caller: UserId)
    requires limit > 0 && page >= 1
    ensures Skip(page, limit) >= 0
    ensures var n := TotalPages(|selected|, limit);
      var items := Items(selected, Skip(page, limit), limit, caller);
      (page < n ==> |items| == limit) && (page > n ==> items == [])
  {
    MultiplyMonotone(0, page - 1, limit);
    PagingArithmetic(page, limit, |selected|, TotalPages(|selected|, limit));
  }

  lemma PagingArithmetic(p: int, l: int, t: nat, n: int)
    requires l > 0 && p >= 1 && n * l >= t && (n - 1) * l < t
    ensures p < n ==> t - Skip(p, l) > l
    ensures p > n ==> Skip(p, l) >= t
  {
    if p < n {
      MultiplyMonotone(p, n - 1, l);
      assert p * l == (p - 1) * l + l;
    }
    if p > n {
      MultiplyMonotone(n, p - 1, l);
    }
  }

  lemma MultiplyMonotone(a: int, b: int, c: nat)
    requires a <= b
    ensures a * c <= b * c
  {
    assert b * c - a * c == (b - a) * c;
  }

  // ----- getActivityStats -----

  /** One group of the aggregation: the number of activities and their participant entries. */
  datatype Group = Group(count: nat, participants: nat)

  /** The `$group` stage for one status value, folded over the documents. */
  function GroupOf(docs: seq<Activity>, s: Status): (g: Group)
    ensures g.count == Sequences.Count(docs, (a: Activity) => a.status == s)
  {
    if docs == [] then Group(0, 0)
    else
      var last := docs[|docs| - 1];
      var g := GroupOf(docs[..|docs| - 1], s);
      Sequences.FilterAppend(docs[..|docs| - 1], last, (a: Activity) => a.status == s);
      assert docs == docs[..|docs| - 1] + [last];
      if last.status == s then Group(g.count + 1, g.participants + |last.participants|) else g
  }

  /** A group's participant figure is the number of entries of exactly the activities in that status. */
  lemma {:induction false} GroupSumsEntries(docs: seq<Activity>, s: Status)
    ensures GroupOf(docs, s).participants == EntriesOf(Sequences.Filter(docs, (a: Activity) => a.status == s))
  {
    if docs != [] {
      var init := docs[..|docs| - 1];
      GroupSumsEntries(init, s);
      var before := Sequences.Filter(init, (a: Activity) => a.status == s);
      Sequences.FilterSnoc(docs, (a: Activity) => a.status == s);
      assert (before + [docs[|docs| - 1]])[..|before|] == before;
    }
  }

  /** The number of participant entries of all documents. */
  function EntriesOf(docs: seq<Activity>): nat {
    if docs == [] then 0 else EntriesOf(docs[..|docs| - 1]) + |docs[|docs| - 1].participants|
  }

  /** The aggregation's result: one group per status that some document has. */
  function Stats(docs: seq<Activity>): (r: map<Status, Group>)
    ensures forall s :: s in r <==> exists d :: d in docs && d.status == s
    ensures forall s :: s in r ==> r[s] == GroupOf(docs, s) && r[s].count > 0
  {
    forall s ensures GroupOf(docs, s).count > 0 <==> exists d :: d in docs && d.status == s {
      GroupNonEmpty(docs, s);
    }
    map s | s in {Draft, Ongoing, Completed, Cancelled} && GroupOf(docs, s).count > 0 :: GroupOf(docs, s)
  }

  lemma GroupNonEmpty(docs: seq<Activity>, s: Status)
    ensures GroupOf(docs, s).count > 0 <==> exists d :: d in docs && d.status == s
  {
    var f := Sequences.Filter(docs, (a: Activity) => a.status == s);
    if |f| > 0 {
      assert f[0] in f;
    }
    if exists d :: d in docs && d.status == s {
      var d :| d in docs && d.status == s;
      assert d in f;
    }
  }

  /** Every document falls into exactly one group, with all of its entries. */
  lemma {:induction false} GroupsPartition(docs: seq<Activity>)
    ensures GroupOf(docs, Draft).count + GroupOf(docs, Ongoing).count +
            GroupOf(docs, Completed).count + GroupOf(docs, Cancelled).count == |docs|
    ensures GroupOf(docs, Draft).participants + GroupOf(docs, Ongoing).participants +
            GroupOf(docs, Completed).participants + GroupOf(docs, Cancelled).participants == EntriesOf(docs)
  {
    if docs != [] {
      GroupsPartition(docs[..|docs| - 1]);
    }
  }

  // ----- over the store -----

  /** `docs` is a scan of `acts`: every stored activity exactly once, in some order. */
  ghost predicate IsScan(acts: map<ActivityId, Activity>, docs: seq<Activity>) {
    exists ids: seq<ActivityId> ::
      |ids| == |docs| &&
      (forall k :: 0 <= k < |ids| ==> ids[k] in acts && docs[k] == acts[ids[k]]) &&
      (forall id :: id in acts ==> id in ids) &&
      (forall i, j :: 0 <= i < j < |ids| ==> ids[i] != ids[j])
  }

  /** A scan built from the store's ids is a scan, and holds only stored documents. */
  lemma ScanFromIds(acts: map<ActivityId, Activity>, docs: seq<Activity>, ids: seq<ActivityId>)
    requires |ids| == |docs|
    requires forall k :: 0 <= k < |ids| ==> ids[k] in acts && docs[k] == acts[ids[k]]
    requires forall id :: id in acts ==> id in ids
    requires forall i, j :: 0 <= i < j < |ids| ==> ids[i] != ids[j]
    ensures IsScan(acts, docs)
    ensures forall d :: d in docs <==> d in acts.Values
  {
    forall d | d in docs ensures d in acts.Values {
      var j :| 0 <= j < |docs| && docs[j] == d;
      assert acts[ids[j]] == d;
    }
    forall d | d in acts.Values ensures d in docs {
      var id :| id in acts && acts[id] == d;
      var j :| 0 <= j < |ids| && ids[j] == id;
      assert docs[j] == d;
    }
  }

  /** `getAllActivities` against the store: the listing of some scan of the collection. */
  method ListActivities(store: Activities.ActivityStore, q: ListQuery, role: Role, caller: UserId,
                        titleMatch: (string, string) -> bool)
    returns (r: Result<Listing, Failure>)
    ensures exists docs :: IsScan(store.activities, docs) && r == List(docs, q, role, caller, titleMatch)
    ensures r.Ok? ==> forall k :: 0 <= k < |r.value.items| ==> r.value.items[k].activity in store.activities.Values
  {
    var docs, ids := store.Documents();
    ScanFromIds(store.activities, docs, ids);
    r := List(docs, q, role, caller, titleMatch);
  }

  /** `getActivityStats` against the store: one group per status some stored activity has. */
  method ActivityStats(store: Activities.ActivityStore) returns (r: map<Status, Group>)
    ensures exists docs :: IsScan(store.activities, docs) && r == Stats(docs)
    ensures forall s :: s in r <==> exists a :: a in store.activities.Values && a.status == s
  {
    var docs, ids := store.Documents();
    ScanFromIds(store.activities, docs, ids);
    r := Stats(docs);
  }
}
