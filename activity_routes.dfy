/**
 * The activity router: every request passes the authentication gate first, then the first
 * route (in registration order) whose verb and path pattern match is taken, and its role
 * restriction, if any, admits or refuses the caller's role.
 */
module ActivityRoutes {
  import opened Common
  import Sequences

  datatype Verb = Get | Post | Patch | Delete

  /** A path-pattern segment: a literal, or a named parameter such as `:id`. */
  datatype Segment = Lit(text: string) | Param

  datatype Handler =
    | ListActivities | GetActivity | CreateActivity | UpdateActivity | DeleteActivity
    | StartActivity | CompleteActivity | SignupActivity | CancelSignupActivity | CheckInActivity
    | ActivityParticipants | ActivityStats | SetCheckInCode

  /** A route; `roles` is the argument list of `restrictTo`, absent when the route has none. */
  datatype Route = Route(verb: Verb, pattern: seq<Segment>, roles: Option<set<Role>>, handler: Handler)

  const AdminOnly: Option<set<Role>> := Some({Admin})

  /** The routes in registration order; paths are relative to the router's mount point. */
  const Routes: seq<Route> := [
    Route(Get, [], None, ListActivities),
    Route(Get, [Param], None, GetActivity),
    Route(Post, [], AdminOnly, CreateActivity),
    Route(Patch, [Param], AdminOnly, UpdateActivity),
    Route(Delete, [Param], AdminOnly, DeleteActivity),
    Route(Patch, [Param, Lit("start")], AdminOnly, StartActivity),
    Route(Patch, [Param, Lit("complete")], AdminOnly, CompleteActivity),
    Route(Post, [Param, Lit("signup")], None, SignupActivity),
    Route(Delete, [Param, Lit("signup")], None, CancelSignupActivity),
    Route(Post, [Param, Lit("checkin")], None, CheckInActivity),
    Route(Get, [Param, Lit("participants")], AdminOnly, ActivityParticipants),
    Route(Get, [Lit("stats"), Lit("summary")], AdminOnly, ActivityStats),
    Route(Post, [Param, Lit("checkin-code")], AdminOnly, SetCheckInCode)
  ]

  /** ASCII lower-casing of one character; every other character is its own case. */
  function LowerChar(c: char): char {
    if 'A' <= c <= 'Z' then (c as int + 32) as char else c
  }

  /**
   * Lower-casing of a segment. The router's patterns are case-insensitive regular
   * expressions; their literals are ASCII, and such a pattern matches a non-ASCII character
   * only when it is that very character, so ASCII lower-casing decides every match.
   */
  function Lower(s: string): (r: string)
    ensures |r| == |s|
    ensures forall i :: 0 <= i < |s| ==> r[i] == LowerChar(s[i])
  {
    seq(|s|, i requires 0 <= i < |s| => LowerChar(s[i]))
  }

  /**
   * The request path, split at its slashes, matches a pattern segment by segment, a
   * literal ignoring case and a parameter taking any non-empty segment; the router is not
   * strict, so one trailing slash, an empty last segment, is tolerated.
   */
  predicate PathMatches(pattern: seq<Segment>, path: seq<string>) {
    SegmentsMatch(pattern, path) ||
    (|path| > 0 && path[|path| - 1] == "" && SegmentsMatch(pattern, path[..|path| - 1]))
  }

  predicate SegmentsMatch(pattern: seq<Segment>, path: seq<string>) {
    |pattern| == |path| && forall k :: 0 <= k < |path| ==> SegmentMatches(pattern[k], path[k])
  }

  predicate SegmentMatches(seg: Segment, s: string) {
    if seg.Lit? then Lower(s) == seg.text else s != ""
  }

  /** A string without upper-case ASCII letters. */
  predicate LowerCase(s: string) {
    forall i :: 0 <= i < |s| ==> !('A' <= s[i] <= 'Z')
  }

  /** Lower-casing leaves exactly such a string as it is. */
  lemma LowerOfLowerCase(s: string)
    ensures LowerCase(s) <==> Lower(s) == s
  {
    if Lower(s) == s {
      forall i | 0 <= i < |s| ensures !('A' <= s[i] <= 'Z') {
        assert Lower(s)[i] == LowerChar(s[i]);
      }
    }
  }

  /** The literals of the route table are written in lower case, so comparing against them as written is exact. */
  lemma LiteralsAreLowerCase(k: nat, j: nat)
    requires k < |Routes| && j < |Routes[k].pattern| && Routes[k].pattern[j].Lit?
    ensures Lower(Routes[k].pattern[j].text) == Routes[k].pattern[j].text
  {
    LowerOfLowerCase(Routes[k].pattern[j].text);
  }

  /** Every segment of a path lower-cased. */
  function LowerPath(path: seq<string>): (r: seq<string>)
    ensures |r| == |path|
    ensures forall k :: 0 <= k < |path| ==> r[k] == Lower(path[k])
  {
    seq(|path|, k requires 0 <= k < |path| => Lower(path[k]))
  }

  lemma LowerIdempotent(s: string)
    ensures Lower(Lower(s)) == Lower(s)
  {
  }

  /** A segment matches exactly when its lower-cased form does. */
  lemma SegmentMatchesIgnoresCase(seg: Segment, s: string)
    ensures SegmentMatches(seg, s) <==> SegmentMatches(seg, Lower(s))
  {
    LowerIdempotent(s);
  }

  lemma SegmentsMatchIgnoresCase(pattern: seq<Segment>, path: seq<string>)
    ensures SegmentsMatch(pattern, path) <==> SegmentsMatch(pattern, LowerPath(path))
  {
    if |pattern| == |path| {
      forall k | 0 <= k < |path|
        ensures SegmentMatches(pattern[k], path[k]) <==> SegmentMatches(pattern[k], LowerPath(path)[k])
      {
        SegmentMatchesIgnoresCase(pattern[k], path[k]);
      }
    }
  }

  /** Whether a path matches a pattern does not depend on the case of its letters. */
  lemma PathMatchesIgnoresCase(pattern: seq<Segment>, path: seq<string>)
    ensures PathMatches(pattern, path) <==> PathMatches(pattern, LowerPath(path))
  {
    SegmentsMatchIgnoresCase(pattern, path);
    if |path| > 0 {
      var init := path[..|path| - 1];
      assert LowerPath(init) == LowerPath(path)[..|path| - 1];
      SegmentsMatchIgnoresCase(pattern, init);
      assert path[|path| - 1] == "" <==> LowerPath(path)[|path| - 1] == "";
    }
  }

  /** The position of the first route that matches the request, or -1. */
  function Dispatch(verb: Verb, path: seq<string>): (r: int)
    ensures -1 <= r < |Routes|
    ensures r >= 0 ==> Takes(Routes[r], verb, path)
    ensures r >= 0 ==> forall k :: 0 <= k < r ==> !Takes(Routes[k], verb, path)
    ensures r == -1 <==> forall k :: 0 <= k < |Routes| ==> !Takes(Routes[k], verb, path)
  {
    Sequences.FirstIndex(Routes, (rt: Route) => Takes(rt, verb, path))
  }

  /** The router's choice, and so the outcome of every request, ignores the case of the path. */
  lemma DispatchIgnoresCase(verb: Verb, path: seq<string>)
    ensures Dispatch(verb, path) == Dispatch(verb, LowerPath(path))
  {
    forall k | 0 <= k < |Routes|
      ensures Takes(Routes[k], verb, path) <==> Takes(Routes[k], verb, LowerPath(path))
    {
      PathMatchesIgnoresCase(Routes[k].pattern, path);
    }
  }

  /** No literal of the route table is empty. */
  lemma LiteralsNonEmpty(k: nat)
    requires k < |Routes|
    ensures forall j :: 0 <= j < |Routes[k].pattern| && Routes[k].pattern[j].Lit? ==> Routes[k].pattern[j].text != ""
  {
  }

  /** With no empty literal, an added trailing slash matches what the path matches. */
  lemma TrailingSlashMatches(pattern: seq<Segment>, path: seq<string>)
    requires forall j :: 0 <= j < |pattern| && pattern[j].Lit? ==> pattern[j].text != ""
    requires path == [] || path[|path| - 1] != ""
    ensures PathMatches(pattern, path + [""]) <==> PathMatches(pattern, path)
  {
    var longer := path + [""];
    assert longer[..|path|] == path;
    if |pattern| == |longer| {
      assert !SegmentMatches(pattern[|path|], longer[|path|]);
    }
  }

  /** A trailing slash after a path not already ending in one leads to the same route. */
  lemma DispatchIgnoresTrailingSlash(verb: Verb, path: seq<string>)
    requires path == [] || path[|path| - 1] != ""
    ensures Dispatch(verb, path + [""]) == Dispatch(verb, path)
  {
    forall k | 0 <= k < |Routes|
      ensures Takes(Routes[k], verb, path + [""]) <==> Takes(Routes[k], verb, path)
    {
      LiteralsNonEmpty(k);
      TrailingSlashMatches(Routes[k].pattern, path);
    }
  }

  /** Whether a route takes the request. */
  predicate Takes(rt: Route, verb: Verb, path: seq<string>) {
    rt.verb == verb && PathMatches(rt.pattern, path)
  }

  /** `restrictTo(...roles)`: the request goes on iff the caller's role is listed. */
  function RestrictTo(roles: set<Role>, role: Role): (ok: bool)
    ensures ok <==> role in roles
  {
    role in roles
  }

  /** How the router ends a request. */
  datatype Outcome = Unauthenticated | Forbidden | NoRoute | Handled(handler: Handler)

  /**
   * The whole gate. `caller` is the role of the user `protect` resolved from the token, or
   * absent when there is no valid token or no such user.
   */
  function Authorize(verb: Verb, path: seq<string>, caller: Option<Role>): (o: Outcome)
    ensures caller.None? <==> o == Unauthenticated
    ensures caller.Some? && Dispatch(verb, path) == -1 ==> o == NoRoute
    ensures o.Handled? ==> Dispatch(verb, path) >= 0 && o.handler == Routes[Dispatch(verb, path)].handler
    ensures o.Handled? <==>
      caller.Some? && Dispatch(verb, path) >= 0 &&
      (Routes[Dispatch(verb, path)].roles.None? || caller.value in Routes[Dispatch(verb, path)].roles.value)
  {
    if caller.None? then Unauthenticated
    else
      var k := Dispatch(verb, path);
      if k == -1 then NoRoute
      else
        var route := Routes[k];
        if route.roles.Some? && !RestrictTo(route.roles.value, caller.value) then Forbidden
        else Handled(route.handler)
  }

  /** The handlers reachable by administrators only. */
  const AdminHandlers: set<Handler> := {
    CreateActivity, UpdateActivity, DeleteActivity, StartActivity, CompleteActivity,
    ActivityParticipants, ActivityStats, SetCheckInCode
  }

  /** The routes without a role restriction lead to these handlers. */
  lemma RestrictedRoutesAreAdminHandlers(k: nat)
    requires k < |Routes|
    ensures Routes[k].roles.Some? <==> Routes[k].handler in AdminHandlers
    ensures Routes[k].roles.Some? ==> Routes[k].roles.value == {Admin}
  {
  }

  /** No handler runs for a caller `protect` did not authenticate. */
  lemma NoAnonymousAccess(verb: Verb, path: seq<string>)
    ensures !Authorize(verb, path, None).Handled?
  {
  }

  /** A student never reaches an administrator's handler. */
  lemma StudentsNeverReachAdminHandlers(verb: Verb, path: seq<string>)
    ensures var o := Authorize(verb, path, Some(Student)); o.Handled? ==> o.handler !in AdminHandlers
  {
    var k := Dispatch(verb, path);
    if k >= 0 {
      RestrictedRoutesAreAdminHandlers(k);
    }
  }

  /** A request that reaches a route runs its handler for any role unless the handler is an administrator's. */
  lemma RouteReachedByEveryRole(verb: Verb, path: seq<string>, role: Role)
    requires Dispatch(verb, path) >= 0
    ensures var o := Authorize(verb, path, Some(role));
      o == (if role == Student && Routes[Dispatch(verb, path)].handler in AdminHandlers then Forbidden
            else Handled(Routes[Dispatch(verb, path)].handler))
  {
    RestrictedRoutesAreAdminHandlers(Dispatch(verb, path));
  }

  /** Dispatch picks route `r` when it matches and no earlier route does. */
  lemma DispatchIs(verb: Verb, path: seq<string>, r: nat)
    requires r < |Routes| && Takes(Routes[r], verb, path)
    requires forall k :: 0 <= k < r ==> !Takes(Routes[k], verb, path)
    ensures Dispatch(verb, path) == r
  {
  }

  /** Signing up is open to an authenticated student. */
  lemma StudentCanSignup(id: string)
    requires id != ""
    ensures Authorize(Post, [id, "signup"], Some(Student)) == Handled(SignupActivity)
  {
    assert Takes(Routes[7], Post, [id, "signup"]);
    DispatchIs(Post, [id, "signup"], 7);
  }

  /** Cancelling a sign-up is open to an authenticated student. */
  lemma StudentCanCancel(id: string)
    requires id != ""
    ensures Authorize(Delete, [id, "signup"], Some(Student)) == Handled(CancelSignupActivity)
  {
    assert Takes(Routes[8], Delete, [id, "signup"]);
    DispatchIs(Delete, [id, "signup"], 8);
  }

  /** Checking in is open to an authenticated student. */
  lemma StudentCanCheckIn(id: string)
    requires id != ""
    ensures Authorize(Post, [id, "checkin"], Some(Student)) == Handled(CheckInActivity)
  {
    assert !Takes(Routes[7], Post, [id, "checkin"]) by {
      assert [id, "checkin"][1][1] != "signup"[1];
    }
    assert Takes(Routes[9], Post, [id, "checkin"]);
    DispatchIs(Post, [id, "checkin"], 9);
  }

  /** The summary route is not taken by the earlier `/:id` routes. */
  lemma StatsSummaryReachable()
    ensures Dispatch(Get, ["stats", "summary"]) == 11
    ensures Authorize(Get, ["stats", "summary"], Some(Admin)) == Handled(ActivityStats)
    ensures Authorize(Get, ["stats", "summary"], Some(Student)) == Forbidden
  {
    var path := ["stats", "summary"];
    LowerOfLowerCase(path[0]);
    LowerOfLowerCase(path[1]);
    assert Takes(Routes[11], Get, path);
    assert !Takes(Routes[10], Get, path) by {
      assert path[1][0] != "participants"[0];
    }
    DispatchIs(Get, path, 11);
  }

  /** The summary route is also reached in any letter case. */
  lemma StatsSummaryAnyCase()
    ensures Dispatch(Get, ["STATS", "Summary"]) == 11
    ensures Authorize(Get, ["STATS", "Summary"], Some(Admin)) == Handled(ActivityStats)
  {
    var upper := ["STATS", "Summary"];
    DispatchIgnoresCase(Get, upper);
    assert Lower(upper[0]) == "stats" by {
      assert forall i :: 0 <= i < 5 ==> LowerChar("STATS"[i]) == "stats"[i];
    }
    assert Lower(upper[1]) == "summary" by {
      assert forall i :: 0 <= i < 7 ==> LowerChar("Summary"[i]) == "summary"[i];
    }
    assert LowerPath(upper) == ["stats", "summary"];
    StatsSummaryReachable();
  }

  /** The summary route is also reached with a trailing slash. */
  lemma StatsSummaryTrailingSlash()
    ensures Dispatch(Get, ["stats", "summary", ""]) == 11
    ensures Authorize(Get, ["stats", "summary", ""], Some(Admin)) == Handled(ActivityStats)
  {
    DispatchIgnoresTrailingSlash(Get, ["stats", "summary"]);
    assert ["stats", "summary"] + [""] == ["stats", "summary", ""];
    StatsSummaryReachable();
  }

  /** A bare `/stats` is taken as the id of a single activity. */
  lemma StatsAloneIsAnId()
    ensures Authorize(Get, ["stats"], Some(Student)) == Handled(GetActivity)
  {
    assert Takes(Routes[1], Get, ["stats"]);
    DispatchIs(Get, ["stats"], 1);
  }
}
