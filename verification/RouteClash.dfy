/** Exactly when the order of registration can be seen. */
module RouteClash {
  import opened Text
  import opened RoutePattern
  import opened RoutePriority
  import opened RouteShape
  import opened RouteNodes
  import opened RouteRanking
  import opened RouteDispatch
  import opened RouteOrder
  import opened Router

  // ----- putting one registration elsewhere ----------------------------------------------------

  function Without(log: seq<Registration>, r: Registration): (rest: seq<Registration>)
    requires r in log
    ensures multiset(rest) + multiset{r} == multiset(log)
  {
    if log[0] == r then
      assert log == [r] + log[1..];
      log[1..]
    else
      assert log == [log[0]] + log[1..];
      [log[0]] + Without(log[1..], r)
  }

  lemma WithoutBoth(log: seq<Registration>, x: Registration, y: Registration) returns (rest: seq<Registration>)
    requires x in log && y in log && x != y
    ensures multiset([x, y] + rest) == multiset([y, x] + rest) == multiset(log)
  {
    var most := Without(log, x);
    assert y in multiset(log) && y in multiset(most);
    rest := Without(most, y);
  }

  lemma SameMembers(a: seq<Registration>, b: seq<Registration>)
    requires multiset(a) == multiset(b)
    ensures forall r :: r in a <==> r in b
  {
    forall r ensures r in a <==> r in b {
      assert r in a <==> r in multiset(a);
      assert r in b <==> r in multiset(b);
    }
  }

  // ----- registrations that contradict each other ----------------------------------------------

  /** A route of one table is found in the other by a path it matches. */
  lemma RouteShared(s: RouterState, t: RouterState, i: nat)
    requires ValidState(s) && SameRouting(s, t) && i < |s.table|
    ensures s.table[i] in t.table
  {
    hide SplitPath, ScanRoutes, ParsedBy, Matches, KeyOf;
    var xs := MatchedSample(KeyOf(s.table[i]));
    var path := PathOf(xs);
    ScanRoutesMembers(s.table, SplitPath(path), s.table[i]);
    ScanRoutesMembers(t.table, SplitPath(path), s.table[i]);
  }

  lemma RouteFound(table: seq<Route>, r: Route)
    requires DistinctPatterns(table) && r in table
    ensures PatternIndex(table, r.pattern) < |table| && table[PatternIndex(table, r.pattern)] == r
  {
    var i :| 0 <= i < |table| && table[i] == r;
    PatternIndexUnique(table, r.pattern, i);
  }

  /** Routing alike determines the methods under every path and pattern. */
  lemma RoutingFixesMethods(s: RouterState, t: RouterState, path: string)
    requires ValidState(s) && ValidState(t) && SameRouting(s, t)
    ensures MethodsOf(s, path) == MethodsOf(t, path)
  {
    hide SplitPath, ScanRoutes, ParsedBy;
    var i, j := PatternIndex(s.table, path), PatternIndex(t.table, path);
    if i < |s.table| {
      RouteShared(s, t, i);
      RouteFound(t.table, s.table[i]);
    }
    if j < |t.table| {
      RouteShared(t, s, j);
      RouteFound(s.table, t.table[j]);
    }
  }

  lemma LastOffered(log: seq<Registration>, r: Registration, path: string, m: string, h: Handler)
    requires Offers(r, path, m, h)
    ensures m in MethodsOf(Build(log + [r]), path) && MethodsOf(Build(log + [r]), path)[m] == h
  {
    hide Build, Planned, MethodsOf;
    LastRegistrationWins(log + [r]);
    assert LastFor(log + [r], path, m) == Some(h);
  }

  /** Two handlers for one path and method: whichever comes last stays. */
  lemma ContradictionShows(log: seq<Registration>, r: Registration, q: Registration, path: string, m: string,
                           g: Handler, h: Handler) returns (a: seq<Registration>, b: seq<Registration>)
    requires r in log && q in log && Offers(r, path, m, g) && Offers(q, path, m, h) && g != h
    ensures multiset(a) == multiset(log) && multiset(b) == multiset(log)
    ensures !SameRouting(Build(a), Build(b))
  {
    hide Build, Offers, MethodsOf, SameRouting;
    a, b := Without(log, r) + [r], Without(log, q) + [q];
    LastOffered(Without(log, r), r, path, m, g);
    LastOffered(Without(log, q), q, path, m, h);
    BuildIsValid(a);
    BuildIsValid(b);
    if SameRouting(Build(a), Build(b)) {
      RoutingFixesMethods(Build(a), Build(b), path);
    }
  }

  // ----- patterns that clash -------------------------------------------------------------------

  /** The table starts with the routes of two different patterns, whatever is registered later. */
  ghost predicate StartsWith(table: seq<Route>, r: Route, q: Route) {
    && |table| >= 2 && table[0].pattern == r.pattern && table[1].pattern == q.pattern
    && table[0].segments == r.segments && table[1].segments == q.segments
  }

  lemma RegisterKeepsStart(table: seq<Route>, r: Route, q: Route, more: Route)
    requires StartsWith(table, r, q)
    ensures StartsWith(Register(table, more), r, q)
  {
  }

  lemma StartOfTwo(x: Registration, y: Registration)
    requires Planned(x).Dynamic? && Planned(y).Dynamic? && Planned(x).route.pattern != Planned(y).route.pattern
    ensures Build([x, y]) == RouterState(map[], [Planned(x).route, Planned(y).route])
  {
    hide Planned;
    assert [x, y][..1] == [x] && [x][..0] == [];
    assert Build([x]) == RouterState(map[], [Planned(x).route]);
  }

  lemma {:induction false} StartKept(x: Registration, y: Registration, rest: seq<Registration>)
    requires Planned(x).Dynamic? && Planned(y).Dynamic? && Planned(x).route.pattern != Planned(y).route.pattern
    ensures StartsWith(Build([x, y] + rest).table, Planned(x).route, Planned(y).route)
  {
    hide Planned, Register, StartsWith;
    if rest == [] {
      StartOfTwo(x, y);
      assert [x, y] + rest == [x, y];
      assert StartsWith(Build([x, y]).table, Planned(x).route, Planned(y).route) by {
        StartIsItself(Planned(x).route, Planned(y).route);
      }
    } else {
      var n := |rest| - 1;
      StartKept(x, y, rest[..n]);
      assert [x, y] + rest == [x, y] + rest[..n] + [rest[n]];
      BuildStep([x, y] + rest[..n], rest[n]);
      if Planned(rest[n]).Dynamic? {
        RegisterKeepsStart(Build([x, y] + rest[..n]).table, Planned(x).route, Planned(y).route, Planned(rest[n]).route);
      }
    }
  }

  lemma StartIsItself(r: Route, q: Route)
    ensures StartsWith([r, q], r, q)
  {
  }

  lemma PatternOfPlanned(r: Registration)
    requires Planned(r).Dynamic?
    ensures Planned(r).route.pattern == r.path
  {
    hide SegmentsOf, ToUpper, HasPathParams, ContainsAny, ValidSegments;
  }

  /** On a path both match, the first of two clashing routes is listed before the second. */
  lemma FirstListed(table: seq<Route>, xs: seq<string>) returns (i: nat, j: nat)
    requires |table| >= 2 && Clash(KeyOf(table[0]), KeyOf(table[1]))
    requires Matches(KeyOf(table[0]), xs) && Matches(KeyOf(table[1]), xs)
    ensures i < j < |ScanRoutes(table, xs)|
    ensures ScanRoutes(table, xs)[i] == table[0] && ScanRoutes(table, xs)[j] == table[1]
  {
    hide Matches, Clash, KeyOf, LinearScan;
    var ks := Keys(table);
    i := MemberScanned(table, xs, 0);
    j := MemberScanned(table, xs, 1);
    FirstOfClashing(ks);
    LinearScanSorted(ks, xs);
    BeforeAsymmetric(ks, 0, 1, 0);
    assert j < i ==> Precedes(ks, 1, 0);
  }

  lemma ListedOnce(table: seq<Route>, xs: seq<string>, i: nat, j: nat)
    requires DistinctPatterns(table) && i < |ScanRoutes(table, xs)| && j < |ScanRoutes(table, xs)|
    requires ScanRoutes(table, xs)[i].pattern == ScanRoutes(table, xs)[j].pattern
    ensures i == j
  {
    hide LinearScan, Matches;
    ScanMember(table, xs, i);
    ScanMember(table, xs, j);
    if i != j {
      DistinctInScan(Keys(table), xs, i, j);
    }
  }

  lemma OppositeStarts(a: seq<Route>, b: seq<Route>, r: Route, q: Route, xs: seq<string>)
    requires DistinctPatterns(a) && StartsWith(a, r, q) && StartsWith(b, q, r) && Clash(KeyOf(r), KeyOf(q))
    requires Matches(KeyOf(r), xs) && Matches(KeyOf(q), xs)
    ensures ScanRoutes(a, xs) != ScanRoutes(b, xs)
  {
    hide Clash, Matches, ScanRoutes;
    ClashSymmetric(KeyOf(r), KeyOf(q));
    var i, j := FirstListed(a, xs);
    var k, l := FirstListed(b, xs);
    if ScanRoutes(a, xs) == ScanRoutes(b, xs) {
      ListedOnce(a, xs, i, l);
      ListedOnce(a, xs, j, k);
    }
  }

  /** Clashing patterns registered first in either order list some path differently. */
  lemma ClashShows(log: seq<Registration>, x: Registration, y: Registration)
    returns (a: seq<Registration>, b: seq<Registration>)
    requires x in log && y in log && x.path != y.path && Planned(x).Dynamic? && Planned(y).Dynamic?
    requires Clash(KeyOf(Planned(x).route), KeyOf(Planned(y).route))
    ensures multiset(a) == multiset(log) && multiset(b) == multiset(log)
    ensures !SameRouting(Build(a), Build(b))
  {
    hide Planned, Build, Clash, KeyOf, ScanRoutes, SplitPath, StartsWith, Matches;
    var rest := WithoutBoth(log, x, y);
    a, b := [x, y] + rest, [y, x] + rest;
    PatternOfPlanned(x);
    PatternOfPlanned(y);
    StartKept(x, y, rest);
    StartKept(y, x, rest);
    PlannedFits(x);
    PlannedFits(y);
    var xs := ClashSample(KeyOf(Planned(x).route), KeyOf(Planned(y).route));
    var path := PathOf(xs);
    BuildIsValid(a);
    OppositeStarts(Build(a).table, Build(b).table, Planned(x).route, Planned(y).route, xs);
    assert ScanRoutes(Build(a).table, SplitPath(path)) != ScanRoutes(Build(b).table, SplitPath(path));
  }

  lemma ClashSample(a: Key, b: Key) returns (xs: seq<string>)
    requires ValidKey(a) && ValidKey(b) && Clash(a, b)
    ensures Plain(xs) && Matches(a, xs) && Matches(b, xs)
  {
    xs := OverlapSample(a, b);
  }

  // ----- the exact condition -------------------------------------------------------------------

  /** Every order of the same registrations routes alike. */
  ghost predicate OrderNeverShows(log: seq<Registration>) {
    forall other | multiset(other) == multiset(log) :: SameRouting(Build(other), Build(log))
  }

  lemma SameRoutingJoins(s: RouterState, t: RouterState, u: RouterState)
    requires SameRouting(s, u) && SameRouting(t, u)
    ensures SameRouting(s, t)
  {
    hide ScanRoutes, SplitPath;
  }

  lemma DifferenceShows(log: seq<Registration>, a: seq<Registration>, b: seq<Registration>)
    requires multiset(a) == multiset(log) && multiset(b) == multiset(log) && !SameRouting(Build(a), Build(b))
    ensures !OrderNeverShows(log)
  {
    hide Build, SameRouting;
    if OrderNeverShows(log) {
      SameRoutingJoins(Build(a), Build(b), Build(log));
    }
  }

  /** The order of registration never shows exactly when no registration contradicts another and no two
      patterns clash. */
  lemma OrderNeverShowsIff(log: seq<Registration>)
    ensures OrderNeverShows(log) <==> Functional(log) && Compatible(log)
  {
    hide Build, SameRouting, Clash, KeyOf, Planned, Offers;
    if !Functional(log) {
      var r, q, path, m, g, h :| r in log && q in log && Offers(r, path, m, g) && Offers(q, path, m, h) && g != h;
      var a, b := ContradictionShows(log, r, q, path, m, g, h);
      DifferenceShows(log, a, b);
    } else if !Compatible(log) {
      var r, q :| r in log && q in log && Planned(r).Dynamic? && Planned(q).Dynamic? && r.path != q.path
                  && Clash(KeyOf(Planned(r).route), KeyOf(Planned(q).route));
      var a, b := ClashShows(log, r, q);
      DifferenceShows(log, a, b);
    } else {
      forall other | multiset(other) == multiset(log) ensures SameRouting(Build(other), Build(log)) {
        SameMembers(other, log);
        OrderDoesNotMatter(log, other);
        SameRoutingFlips(Build(log), Build(other));
      }
    }
  }

  lemma SameRoutingFlips(s: RouterState, t: RouterState)
    requires SameRouting(s, t)
    ensures SameRouting(t, s)
  {
    hide ScanRoutes, SplitPath;
  }

  // ----- requests that show it -----------------------------------------------------------------

  /** In a router that holds two clashing patterns for one method and no others, the one registered
      first answers every path both match. */
  lemma FirstRegisteredRuns(x: Registration, y: Registration, method_: string, target: string)
    requires Planned(x).Dynamic? && Planned(y).Dynamic? && x.path != y.path
    requires Clash(KeyOf(Planned(x).route), KeyOf(Planned(y).route))
    requires Matches(KeyOf(Planned(x).route), SplitPath(RoutePath(target)))
    requires Matches(KeyOf(Planned(y).route), SplitPath(RoutePath(target)))
    requires ToUpper(method_) in Planned(x).route.methods && ToUpper(method_) in Planned(y).route.methods
    ensures
      Dispatch(Build([x, y]), method_, target)
      == Run(Planned(x).route.methods[ToUpper(method_)],
             Bindings(KeyOf(Planned(x).route), SplitPath(RoutePath(target))))
  {
    hide Planned, Build, Clash, KeyOf, SplitPath, RoutePath, ToUpper, Matches, Bindings, Dispatch;
    PatternOfPlanned(x);
    PatternOfPlanned(y);
    StartOfTwo(x, y);
    FirstOfTwoRuns(Planned(x).route, Planned(y).route, ToUpper(method_), RoutePath(target));
    assert Dispatch(Build([x, y]), method_, target) == Answer(Build([x, y]), RoutePath(target), ToUpper(method_)) by {
      DispatchIsAnswer(Build([x, y]), method_, target);
    }
  }

  lemma DispatchIsAnswer(s: RouterState, method_: string, target: string)
    ensures Dispatch(s, method_, target) == Answer(s, RoutePath(target), ToUpper(method_))
  {
    hide Answer, RoutePath, ToUpper;
  }

  lemma FirstOfTwoRuns(r: Route, q: Route, m: string, path: string)
    requires Clash(KeyOf(r), KeyOf(q)) && m in r.methods && m in q.methods
    requires Matches(KeyOf(r), SplitPath(path)) && Matches(KeyOf(q), SplitPath(path))
    ensures
      Answer(RouterState(map[], [r, q]), path, m) == Run(r.methods[m], Bindings(KeyOf(r), SplitPath(path)))
  {
    hide Clash, KeyOf, SplitPath, Matches, Bindings, ScanMatches, LinearScan;
    var table, xs := [r, q], SplitPath(path);
    var i := FirstIsWinner(table, xs, m);
    assert PathMatches(table, xs, 0) && Supports(table[0].methods, m);
    assert PathMatches(table, xs, 1);
    FirstOfClashing(Keys(table));
    BeforeAsymmetric(Keys(table), 0, 1, 0);
    if i < |ScanMatches(table, xs)| {
      var e := LinearScan(Keys(table), xs)[i];
      assert Winner(table, xs, m, e);
      assert e == 0 || e == 1;
      assert e == 0;
    }
  }

  // ----- an earlier route that turns the order round -------------------------------------------

  lemma StartOfThree(x: Registration, y: Registration, z: Registration)
    requires Planned(x).Dynamic? && Planned(y).Dynamic? && Planned(z).Dynamic?
    requires Planned(x).route.pattern != Planned(y).route.pattern
    requires Planned(z).route.pattern != Planned(x).route.pattern
    requires Planned(z).route.pattern != Planned(y).route.pattern
    ensures Build([x, y, z]) == RouterState(map[], [Planned(x).route, Planned(y).route, Planned(z).route])
  {
    hide Planned, Build;
    StartOfTwo(x, y);
    BuildStep([x, y], z);
    assert [x, y] + [z] == [x, y, z];
    RegisterThird(Planned(x).route, Planned(y).route, Planned(z).route);
  }

  lemma RegisterThird(x: Route, y: Route, z: Route)
    requires z.pattern != x.pattern && z.pattern != y.pattern
    ensures Register([x, y], z) == [x, y, z]
  {
    assert PatternIndex([x, y][1..], z.pattern) == 1 && [x, y][1..][1..] == [];
  }

  /** The last pattern goes through a capture that the first one created, the second made its own. */
  lemma OlderThroughFirst(ks: seq<Key>, at: nat)
    requires |ks| == 3 && PartAt(ks[2], ks[1], at) && ks[2][..at + 1] <= ks[0]
    ensures Precedes(ks, 2, 1)
  {
    hide Precedes;
    assert ks[1][..at + 1][at] != ks[2][..at + 1][at] == ks[0][at];
    OlderCaptureDecides(ks, 2, 1, at);
  }

  lemma LastOfThreeRuns(x: Route, y: Route, z: Route, m: string, path: string, at: nat)
    requires m in y.methods && m in z.methods && !Matches(KeyOf(x), SplitPath(path))
    requires Matches(KeyOf(y), SplitPath(path)) && Matches(KeyOf(z), SplitPath(path))
    requires PartAt(KeyOf(z), KeyOf(y), at) && KeyOf(z)[..at + 1] <= KeyOf(x)
    ensures Answer(RouterState(map[], [x, y, z]), path, m) == Run(z.methods[m], Bindings(KeyOf(z), SplitPath(path)))
  {
    hide KeyOf, SplitPath, Matches, Bindings, ScanMatches, LinearScan, PartAt, Precedes;
    var table, xs := [x, y, z], SplitPath(path);
    var i := FirstIsWinner(table, xs, m);
    assert PathMatches(table, xs, 1) && PathMatches(table, xs, 2) && Supports(table[2].methods, m);
    OlderThroughFirst(Keys(table), at);
    if i < |ScanMatches(table, xs)| {
      var e := LinearScan(Keys(table), xs)[i];
      assert Winner(table, xs, m, e);
      assert e == 1 || e == 2;
      NotBothWays(Keys(table), 2, 1);
    }
  }

  lemma NotBothWays(ks: seq<Key>, a: nat, b: nat)
    requires Precedes(ks, a, b)
    ensures !Precedes(ks, b, a)
  {
    BeforeAsymmetric(ks, a, b, 0);
  }
}
