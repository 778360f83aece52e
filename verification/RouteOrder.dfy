/** What a sequence of registrations leaves behind, and when its order does not matter. */
module RouteOrder {
  import opened Text
  import opened SortedLists
  import opened RoutePattern
  import opened RoutePriority
  import opened RouteShape
  import opened RouteNodes
  import opened RouteRanking
  import opened RouteDispatch
  import opened Router

  /** The methods registered under a path or pattern string. */
  function MethodsOf(s: RouterState, path: string): map<string, Handler> {
    if path in s.statics then s.statics[path]
    else
      var i := PatternIndex(s.table, path);
      if i < |s.table| then s.table[i].methods else map[]
  }

  function PathOfChange(c: Change): string
    requires !c.Refused?
  {
    if c.Static? then c.path else c.route.pattern
  }

  function MethodsOfChange(c: Change): map<string, Handler>
    requires !c.Refused?
  {
    if c.Static? then map[c.method_ := c.handler] else c.route.methods
  }

  /** An accepted registration of handler h for a path and a method. */
  predicate Offers(r: Registration, path: string, m: string, h: Handler) {
    var c := Planned(r);
    !c.Refused? && PathOfChange(c) == path && m in MethodsOfChange(c) && MethodsOfChange(c)[m] == h
  }

  /** The handler of the last accepted registration for a path and a method. */
  function LastFor(log: seq<Registration>, path: string, m: string): Option<Handler> {
    if log == [] then None
    else
      var c := Planned(log[|log| - 1]);
      if !c.Refused? && PathOfChange(c) == path && m in MethodsOfChange(c) then Some(MethodsOfChange(c)[m])
      else LastFor(log[..|log| - 1], path, m)
  }

  // ----- static paths and patterns are kept apart ----------------------------------------------

  predicate KindFits(c: Change) {
    match c
    case Refused(_) => true
    case Static(path, _, _) => !HasPathParams(path)
    case Dynamic(route) => HasPathParams(route.pattern)
  }

  ghost predicate KindsApart(s: RouterState) {
    && (forall path :: path in s.statics ==> !HasPathParams(path))
    && (forall i :: 0 <= i < |s.table| ==> HasPathParams(s.table[i].pattern))
  }

  lemma PlannedKind(r: Registration)
    ensures KindFits(Planned(r))
  {
    hide HasPathParams, ToUpper, ContainsAny, SegmentsOf, ValidSegments;
  }

  lemma RegisterKinds(table: seq<Route>, r: Route)
    requires HasPathParams(r.pattern) && forall i :: 0 <= i < |table| ==> HasPathParams(table[i].pattern)
    ensures forall i :: 0 <= i < |Register(table, r)| ==> HasPathParams(Register(table, r)[i].pattern)
  {
    hide HasPathParams;
  }

  lemma ChangeKeepsKinds(s: RouterState, c: Change)
    requires KindsApart(s) && KindFits(c)
    ensures KindsApart(ApplyChange(s, c))
  {
    hide HasPathParams, Register;
    if c.Dynamic? {
      RegisterKinds(s.table, c.route);
    }
  }

  lemma PatternIndexAfter(table: seq<Route>, r: Route, path: string)
    ensures
      var before, after := PatternIndex(table, path), PatternIndex(Register(table, r), path);
      if path == r.pattern then
        after < |Register(table, r)|
        && Register(table, r)[after].methods == (if before < |table| then table[before].methods else map[]) + r.methods
      else
        (before < |table| <==> after < |Register(table, r)|)
        && (before < |table| ==> Register(table, r)[after] == table[before])
  {
    var e, after := PatternIndex(table, r.pattern), Register(table, r);
    if path == r.pattern {
      PatternIndexUnique(after, path, e);
      assert map[] + r.methods == r.methods;
    } else {
      var i := PatternIndex(table, path);
      if i < |table| {
        PatternIndexUnique(after, path, i);
      }
    }
  }

  lemma MethodsAfter(s: RouterState, c: Change, path: string)
    requires KindsApart(s) && KindFits(c)
    ensures MethodsOf(ApplyChange(s, c), path)
            == if !c.Refused? && PathOfChange(c) == path then MethodsOf(s, path) + MethodsOfChange(c)
               else MethodsOf(s, path)
  {
    hide HasPathParams, Register;
    match c
    case Refused(_) =>
    case Static(p, m, h) =>
      var i := PatternIndex(s.table, p);
    case Dynamic(route) =>
      PatternIndexAfter(s.table, route, path);
  }

  ghost predicate Reflects(log: seq<Registration>, s: RouterState) {
    forall path, m ::
      && (m in MethodsOf(s, path) <==> LastFor(log, path, m).Some?)
      && (m in MethodsOf(s, path) ==> MethodsOf(s, path)[m] == LastFor(log, path, m).value)
  }

  /** The router holds, for every path and method, the handler registered last. */
  lemma {:induction false} LastRegistrationWins(log: seq<Registration>)
    ensures KindsApart(Build(log)) && Reflects(log, Build(log))
  {
    if log != [] {
      var n := |log| - 1;
      var s, c := Build(log[..n]), Planned(log[n]);
      LastRegistrationWins(log[..n]);
      PlannedKind(log[n]);
      ChangeKeepsKinds(s, c);
      forall path, m
        ensures m in MethodsOf(Build(log), path) <==> LastFor(log, path, m).Some?
        ensures m in MethodsOf(Build(log), path) ==> MethodsOf(Build(log), path)[m] == LastFor(log, path, m).value
      {
        hide Planned, MethodsOf;
        MethodsAfter(s, c, path);
      }
    }
  }

  // ----- logs with the same registrations ------------------------------------------------------

  /** No two registrations give one path and method different handlers. */
  ghost predicate Functional(log: seq<Registration>) {
    forall r, q, path, m, g, h ::
      r in log && q in log && Offers(r, path, m, g) && Offers(q, path, m, h) ==> g == h
  }

  lemma {:induction false} LastIsOffered(log: seq<Registration>, path: string, m: string)
    ensures LastFor(log, path, m).Some? ==> exists r :: r in log && Offers(r, path, m, LastFor(log, path, m).value)
    ensures LastFor(log, path, m).None? ==> forall r, h :: r in log ==> !Offers(r, path, m, h)
  {
    hide Planned;
    if log != [] {
      var n := |log| - 1;
      LastIsOffered(log[..n], path, m);
      assert log[n] in log;
      assert forall r :: r in log <==> r in log[..n] || r == log[n];
      if LastFor(log, path, m).Some? && !Offers(log[n], path, m, LastFor(log, path, m).value) {
        var r :| r in log[..n] && Offers(r, path, m, LastFor(log[..n], path, m).value);
        assert r in log;
      }
    }
  }

  lemma SameLast(a: seq<Registration>, b: seq<Registration>, path: string, m: string)
    requires Functional(a) && forall r :: r in a <==> r in b
    ensures LastFor(a, path, m) == LastFor(b, path, m)
  {
    hide Planned, LastFor, Offers;
    LastIsOffered(a, path, m);
    LastIsOffered(b, path, m);
  }

  lemma SameMethods(a: seq<Registration>, b: seq<Registration>, path: string)
    requires Functional(a) && forall r :: r in a <==> r in b
    ensures MethodsOf(Build(a), path) == MethodsOf(Build(b), path)
  {
    hide Planned, LastFor, Offers, MethodsOf, Build, KindsApart, Functional;
    LastRegistrationWins(a);
    LastRegistrationWins(b);
    forall m
      ensures m in MethodsOf(Build(a), path) <==> m in MethodsOf(Build(b), path)
      ensures m in MethodsOf(Build(a), path) ==> MethodsOf(Build(a), path)[m] == MethodsOf(Build(b), path)[m]
    {
      SameLast(a, b, path, m);
    }
  }

  lemma KnownByMethods(s: RouterState, path: string)
    requires ValidState(s) && KindsApart(s)
    ensures path in s.statics <==> !HasPathParams(path) && MethodsOf(s, path) != map[]
    ensures PatternIndex(s.table, path) < |s.table| <==> HasPathParams(path) && MethodsOf(s, path) != map[]
  {
    hide HasPathParams, ValidKey, ValidSegments, SegmentsOf, ParsedBy;
  }

  lemma SameStatics(a: RouterState, b: RouterState)
    requires ValidState(a) && ValidState(b) && KindsApart(a) && KindsApart(b)
    requires forall path :: MethodsOf(a, path) == MethodsOf(b, path)
    ensures a.statics == b.statics
  {
    hide HasPathParams, ValidState, KindsApart;
    forall path ensures path in a.statics <==> path in b.statics {
      KnownByMethods(a, path);
      KnownByMethods(b, path);
    }
    forall path | path in a.statics ensures a.statics[path] == b.statics[path] {
      assert MethodsOf(a, path) == MethodsOf(b, path);
    }
  }

  lemma RouteInBoth(a: RouterState, b: RouterState, i: nat)
    requires ValidState(a) && ValidState(b) && KindsApart(a) && KindsApart(b) && i < |a.table|
    requires forall path :: MethodsOf(a, path) == MethodsOf(b, path)
    ensures a.table[i] in b.table
  {
    hide HasPathParams, SegmentsOf, ValidSegments, ValidKey;
    var r := a.table[i];
    PatternIndexUnique(a.table, r.pattern, i);
    KnownByMethods(a, r.pattern);
    KnownByMethods(b, r.pattern);
    var j := PatternIndex(b.table, r.pattern);
    assert MethodsOf(a, r.pattern) == MethodsOf(b, r.pattern);
    assert b.table[j] == r;
  }

  lemma SameStates(a: seq<Registration>, b: seq<Registration>)
    requires Functional(a) && forall r :: r in a <==> r in b
    ensures Build(a).statics == Build(b).statics
    ensures forall r :: r in Build(a).table <==> r in Build(b).table
  {
    hide Planned, Build, MethodsOf, ValidState, KindsApart, Functional, Reflects;
    BuildIsValid(a);
    BuildIsValid(b);
    LastRegistrationWins(a);
    LastRegistrationWins(b);
    forall path ensures MethodsOf(Build(a), path) == MethodsOf(Build(b), path) {
      SameMethods(a, b, path);
    }
    SameStatics(Build(a), Build(b));
    forall r | r in Build(a).table ensures r in Build(b).table {
      var i :| 0 <= i < |Build(a).table| && Build(a).table[i] == r;
      RouteInBoth(Build(a), Build(b), i);
    }
    forall r | r in Build(b).table ensures r in Build(a).table {
      var i :| 0 <= i < |Build(b).table| && Build(b).table[i] == r;
      RouteInBoth(Build(b), Build(a), i);
    }
  }

  // ----- the scan of a table without clashes ---------------------------------------------------

  /** No two routes clash. */
  ghost predicate NoClash(table: seq<Route>) {
    forall r, q :: r in table && q in table && r.pattern != q.pattern ==> !Clash(KeyOf(r), KeyOf(q))
  }

  ghost function ScanRoutes(table: seq<Route>, xs: seq<string>): (rs: seq<Route>)
    ensures |rs| == |LinearScan(Keys(table), xs)|
  {
    var found := LinearScan(Keys(table), xs);
    seq(|found|, i requires 0 <= i < |found| => assert found[i] in found; table[found[i]])
  }

  lemma ScanRoute(table: seq<Route>, xs: seq<string>, i: nat)
    requires i < |ScanRoutes(table, xs)|
    ensures
      var r := ScanRoutes(table, xs)[i];
      r in table && Matches(KeyOf(r), xs) && ScanMatches(table, xs)[i] == RouteMatch(r.methods, Bindings(KeyOf(r), xs))
  {
    ScanMember(table, xs, i);
  }

  lemma ScanRoutesMembers(table: seq<Route>, xs: seq<string>, r: Route)
    ensures r in ScanRoutes(table, xs) <==> r in table && Matches(KeyOf(r), xs)
  {
    hide Matches, Bindings, LinearScan;
    var rs := ScanRoutes(table, xs);
    if r in rs {
      var i :| 0 <= i < |rs| && rs[i] == r;
      ScanRoute(table, xs, i);
    }
    if r in table && Matches(KeyOf(r), xs) {
      var e :| 0 <= e < |table| && table[e] == r;
      var i := MemberScanned(table, xs, e);
      assert rs[i] == r;
    }
  }

  lemma DistinctRoutes(table: seq<Route>, a: nat, b: nat)
    requires ValidTable(table) && NoClash(table) && a < |table| && b < |table| && a != b
    ensures !Clash(KeyOf(table[a]), KeyOf(table[b]))
  {
    hide KeyOf, Clash;
    assert table[a] in table && table[b] in table;
  }

  lemma ScanRanked(table: seq<Route>, xs: seq<string>, i: nat, j: nat)
    requires ValidTable(table) && NoClash(table) && i < j < |ScanRoutes(table, xs)|
    ensures MoreSpecific(KeyOf(ScanRoutes(table, xs)[i]), KeyOf(ScanRoutes(table, xs)[j]))
  {
    hide Matches, Bindings, LinearScan, NoClash, KeyOf, MoreSpecific, Clash;
    var ks := Keys(table);
    var a, b := LinearScan(ks, xs)[i], LinearScan(ks, xs)[j];
    LinearScanSorted(ks, xs);
    DistinctInScan(ks, xs, i, j);
    ScanMember(table, xs, i);
    ScanMember(table, xs, j);
    assert Precedes(ks, a, b);
    DistinctRoutes(table, a, b);
    TableKeysValid(table);
    OrderedAlike(ks, xs, a, b);
  }

  ghost function Ranking(): (Route, Route) -> bool {
    (r: Route, q: Route) => MoreSpecific(KeyOf(r), KeyOf(q))
  }

  lemma ScanRoutesSorted(table: seq<Route>, xs: seq<string>)
    requires ValidTable(table) && NoClash(table)
    ensures SortedBy(Ranking(), ScanRoutes(table, xs)) && AsymmetricOn(Ranking(), ScanRoutes(table, xs))
  {
    hide ScanRoutes, NoClash, ValidTable;
    forall i, j | 0 <= i < j < |ScanRoutes(table, xs)|
      ensures Ranking()(ScanRoutes(table, xs)[i], ScanRoutes(table, xs)[j])
    {
      ScanRanked(table, xs, i, j);
    }
    forall r, q | Ranking()(r, q) ensures !Ranking()(q, r) {
      MoreSpecificAsymmetric(KeyOf(r), KeyOf(q));
    }
  }

  /** Two tables with the same routes, none clashing, list the matches of every path alike. */
  lemma SameScan(a: seq<Route>, b: seq<Route>, xs: seq<string>)
    requires ValidTable(a) && ValidTable(b) && NoClash(a) && forall r :: r in a <==> r in b
    ensures ScanRoutes(a, xs) == ScanRoutes(b, xs)
  {
    hide ScanRoutes, ScanMatches, LinearScan, ValidTable, Ranking, Matches, Bindings, Clash;
    assert NoClash(b);
    ScanRoutesSorted(a, xs);
    ScanRoutesSorted(b, xs);
    forall r ensures r in ScanRoutes(a, xs) <==> r in ScanRoutes(b, xs) {
      ScanRoutesMembers(a, xs, r);
      ScanRoutesMembers(b, xs, r);
    }
    SortedUnique(Ranking(), ScanRoutes(a, xs), ScanRoutes(b, xs));
  }

  lemma SameMatches(a: seq<Route>, b: seq<Route>, xs: seq<string>)
    requires ScanRoutes(a, xs) == ScanRoutes(b, xs)
    ensures ScanMatches(a, xs) == ScanMatches(b, xs)
  {
    hide ScanRoutes, ScanMatches, LinearScan, Matches, Bindings;
    forall i | 0 <= i < |ScanMatches(a, xs)| ensures ScanMatches(a, xs)[i] == ScanMatches(b, xs)[i] {
      ScanRoute(a, xs, i);
      ScanRoute(b, xs, i);
    }
  }

  // ----- order of registration -----------------------------------------------------------------

  /** The router's static entries are alike, and so is, for every path, the list of matching routes. */
  ghost predicate SameRouting(s: RouterState, t: RouterState) {
    s.statics == t.statics
    && forall path :: ScanRoutes(s.table, SplitPath(path)) == ScanRoutes(t.table, SplitPath(path))
  }

  lemma SameRoutingDispatches(s: RouterState, t: RouterState, method_: string, target: string)
    requires SameRouting(s, t)
    ensures Dispatch(s, method_, target) == Dispatch(t, method_, target)
  {
    hide ScanRoutes, ScanMatches, SplitPath, RoutePath, ToUpper, DispatchMatches;
    SameMatches(s.table, t.table, SplitPath(RoutePath(target)));
  }

  /** No two accepted registrations of different patterns clash. */
  ghost predicate Compatible(log: seq<Registration>) {
    forall r, q :: r in log && q in log && Planned(r).Dynamic? && Planned(q).Dynamic? && r.path != q.path ==>
      !Clash(KeyOf(Planned(r).route), KeyOf(Planned(q).route))
  }

  /** An accepted registration of a pattern that a request with the method could run. */
  predicate Serves(r: Registration, m: string) {
    Planned(r).Dynamic? && Supports(Planned(r).route.methods, m)
  }

  /** No two registrations of different patterns for the method clash. */
  ghost predicate CompatibleFor(log: seq<Registration>, m: string) {
    forall r, q :: r in log && q in log && Serves(r, m) && Serves(q, m) && r.path != q.path ==>
      !Clash(KeyOf(Planned(r).route), KeyOf(Planned(q).route))
  }

  /** Every route of the table was registered, for each of its methods. */
  lemma RouteRegistered(log: seq<Registration>, i: nat, m: string) returns (r: Registration)
    requires i < |Build(log).table| && m in Build(log).table[i].methods
    ensures r in log && Planned(r).Dynamic? && m in Planned(r).route.methods
    ensures r.path == Build(log).table[i].pattern && KeyOf(Planned(r).route) == KeyOf(Build(log).table[i])
  {
    hide SegmentsOf, ToUpper, HasPathParams, ContainsAny, ValidSegments;
    BuildIsValid(log);
    LastRegistrationWins(log);
    var s := Build(log);
    var route := s.table[i];
    PatternIndexUnique(s.table, route.pattern, i);
    assert MethodsOf(s, route.pattern) == route.methods;
    LastIsOffered(log, route.pattern, m);
    var h := LastFor(log, route.pattern, m).value;
    r :| r in log && Offers(r, route.pattern, m, h);
    PlannedKind(r);
  }

  lemma RouteHasMethod(log: seq<Registration>, i: nat) returns (m: string)
    requires i < |Build(log).table|
    ensures m in Build(log).table[i].methods
  {
    BuildIsValid(log);
    m :| m in Build(log).table[i].methods;
  }

  lemma CompatibleBuilds(log: seq<Registration>)
    requires Compatible(log)
    ensures NoClash(Build(log).table)
  {
    hide Planned, Build, Clash, KeyOf;
    var table := Build(log).table;
    forall r, q | r in table && q in table && r.pattern != q.pattern ensures !Clash(KeyOf(r), KeyOf(q)) {
      var i :| 0 <= i < |table| && table[i] == r;
      var j :| 0 <= j < |table| && table[j] == q;
      var m := RouteHasMethod(log, i);
      var n := RouteHasMethod(log, j);
      var x := RouteRegistered(log, i, m);
      var y := RouteRegistered(log, j, n);
    }
  }

  // ----- the routes one method can run ---------------------------------------------------------

  /** No two routes that support the method clash. */
  ghost predicate NoClashFor(table: seq<Route>, m: string) {
    forall r, q ::
      r in table && q in table && r.pattern != q.pattern && Supports(r.methods, m) && Supports(q.methods, m) ==>
        !Clash(KeyOf(r), KeyOf(q))
  }

  lemma SupportRegistered(log: seq<Registration>, i: nat, m: string) returns (r: Registration)
    requires i < |Build(log).table| && Supports(Build(log).table[i].methods, m)
    ensures r in log && Serves(r, m)
    ensures r.path == Build(log).table[i].pattern && KeyOf(Planned(r).route) == KeyOf(Build(log).table[i])
  {
    hide Planned, Build, KeyOf;
    r := RouteRegistered(log, i, if m in Build(log).table[i].methods then m else ANY_METHOD);
  }

  lemma CompatibleForBuilds(log: seq<Registration>, m: string)
    requires CompatibleFor(log, m)
    ensures NoClashFor(Build(log).table, m)
  {
    hide Planned, Build, Clash, KeyOf, Serves, Supports;
    var table := Build(log).table;
    forall r, q | r in table && q in table && r.pattern != q.pattern
                  && Supports(r.methods, m) && Supports(q.methods, m)
      ensures !Clash(KeyOf(r), KeyOf(q))
    {
      var i :| 0 <= i < |table| && table[i] == r;
      var j :| 0 <= j < |table| && table[j] == q;
      var x := SupportRegistered(log, i, m);
      var y := SupportRegistered(log, j, m);
    }
  }

  lemma WinnerRanked(table: seq<Route>, xs: seq<string>, m: string, e: nat, f: nat)
    requires ValidTable(table) && NoClashFor(table, m) && Winner(table, xs, m, e)
    requires PathMatches(table, xs, f) && Supports(table[f].methods, m) && f != e
    ensures MoreSpecific(KeyOf(table[e]), KeyOf(table[f]))
  {
    hide Matches, MoreSpecific, KeyOf, Clash, Supports;
    TableKeysValid(table);
    assert table[e] in table && table[f] in table && table[e].pattern != table[f].pattern;
    OrderedAlike(Keys(table), xs, e, f);
  }

  lemma MemberAt(table: seq<Route>, r: Route) returns (i: nat)
    requires r in table
    ensures i < |table| && table[i] == r
  {
    i :| 0 <= i < |table| && table[i] == r;
  }

  /** Two tables with the same routes, none for the method clashing, have one winner. */
  lemma SameWinner(a: seq<Route>, b: seq<Route>, xs: seq<string>, m: string, e: nat, f: nat)
    requires ValidTable(a) && ValidTable(b) && NoClashFor(a, m) && NoClashFor(b, m)
    requires forall r :: r in a <==> r in b
    requires Winner(a, xs, m, e) && Winner(b, xs, m, f)
    ensures a[e] == b[f]
  {
    hide Matches, MoreSpecific, KeyOf, Clash, Supports, NoClashFor, Precedes, ValidTable;
    var j := MemberAt(b, a[e]);
    var i := MemberAt(a, b[f]);
    if a[e] != b[f] {
      WinnerRanked(a, xs, m, e, i);
      WinnerRanked(b, xs, m, f, j);
      MoreSpecificAsymmetric(KeyOf(a[e]), KeyOf(b[f]));
    }
  }

  lemma SupportedInBoth(a: seq<Route>, b: seq<Route>, xs: seq<string>, m: string, e: nat) returns (f: nat)
    requires forall r :: r in a ==> r in b
    requires PathMatches(a, xs, e) && Supports(a[e].methods, m)
    ensures PathMatches(b, xs, f) && Supports(b[f].methods, m)
  {
    f := MemberAt(b, a[e]);
  }

  lemma SameRun(a: seq<Route>, b: seq<Route>, xs: seq<string>, m: string)
    requires ValidTable(a) && ValidTable(b) && NoClashFor(a, m) && NoClashFor(b, m)
    requires forall r :: r in a <==> r in b
    ensures FirstRun(ScanMatches(a, xs), m) == FirstRun(ScanMatches(b, xs), m)
  {
    hide Matches, KeyOf, Supports, NoClashFor, ValidTable, ScanMatches, LinearScan, FirstRun, Precedes, Bindings;
    var i := FirstIsWinner(a, xs, m);
    var j := FirstIsWinner(b, xs, m);
    if i < |ScanMatches(a, xs)| {
      var e := LinearScan(Keys(a), xs)[i];
      var f := SupportedInBoth(a, b, xs, m, e);
      SameWinner(a, b, xs, m, e, LinearScan(Keys(b), xs)[j]);
    } else if j < |ScanMatches(b, xs)| {
      var e := SupportedInBoth(b, a, xs, m, LinearScan(Keys(b), xs)[j]);
    }
  }

  lemma SameUnion(a: seq<Route>, b: seq<Route>, xs: seq<string>)
    requires forall r :: r in a <==> r in b
    ensures UnionMethods(ScanMatches(a, xs)) == UnionMethods(ScanMatches(b, xs))
  {
    hide Matches, KeyOf, ScanMatches, UnionMethods;
    UnionIsMatched(a, xs);
    UnionIsMatched(b, xs);
    forall m ensures m in MatchedMethods(a, xs) <==> m in MatchedMethods(b, xs) {
      if e: nat :| PathMatches(a, xs, e) && m in a[e].methods {
        var f := MemberAt(b, a[e]);
        assert PathMatches(b, xs, f);
      }
      if f: nat :| PathMatches(b, xs, f) && m in b[f].methods {
        var e := MemberAt(a, b[f]);
        assert PathMatches(a, xs, e);
      }
    }
  }

  /** Two tables with the same routes answer a method alike when no two routes that support it clash. */
  lemma SameForMethod(a: seq<Route>, b: seq<Route>, xs: seq<string>, m: string)
    requires ValidTable(a) && ValidTable(b) && NoClashFor(a, m) && forall r :: r in a <==> r in b
    ensures DispatchMatches(ScanMatches(a, xs), m) == DispatchMatches(ScanMatches(b, xs), m)
  {
    hide Clash, KeyOf, Supports, ValidTable, ScanMatches, FirstRun, UnionMethods;
    assert NoClashFor(b, m);
    SameRun(a, b, xs, m);
    SameUnion(a, b, xs);
  }

  // ----- what does not depend on the order -----------------------------------------------------

  /** When no registration contradicts another, the same registrations in any order, repeated or not,
      dispatch every request alike for whose method no two patterns clash; and they route alike when no
      two patterns clash at all. */
  lemma OrderDoesNotMatter(a: seq<Registration>, b: seq<Registration>)
    requires Functional(a) && forall r :: r in a <==> r in b
    ensures Compatible(a) ==> SameRouting(Build(a), Build(b))
    ensures forall method_, target :: CompatibleFor(a, ToUpper(method_)) ==>
              Dispatch(Build(a), method_, target) == Dispatch(Build(b), method_, target)
  {
    hide Build, Functional, Compatible, CompatibleFor, ScanRoutes, SplitPath, NoClash, NoClashFor, ValidTable, Dispatch,
      ToUpper;
    SameStates(a, b);
    BuildIsValid(a);
    BuildIsValid(b);
    if Compatible(a) {
      CompatibleBuilds(a);
      forall path ensures ScanRoutes(Build(a).table, SplitPath(path)) == ScanRoutes(Build(b).table, SplitPath(path)) {
        SameScan(Build(a).table, Build(b).table, SplitPath(path));
      }
    }
    forall method_, target | CompatibleFor(a, ToUpper(method_))
      ensures Dispatch(Build(a), method_, target) == Dispatch(Build(b), method_, target)
    {
      CompatibleForBuilds(a, ToUpper(method_));
      SameDispatch(Build(a), Build(b), method_, target);
    }
  }

  lemma SameDispatch(s: RouterState, t: RouterState, method_: string, target: string)
    requires ValidTable(s.table) && ValidTable(t.table) && NoClashFor(s.table, ToUpper(method_))
    requires s.statics == t.statics && forall r :: r in s.table <==> r in t.table
    ensures Dispatch(s, method_, target) == Dispatch(t, method_, target)
  {
    hide ScanMatches, SplitPath, RoutePath, ToUpper, DispatchMatches, ValidTable, NoClashFor, AllowHeader;
    SameForMethod(s.table, t.table, SplitPath(RoutePath(target)), ToUpper(method_));
  }

  /** When no two patterns for the request's method clash, the route that runs is the most specific of
      the matching ones that support it. */
  lemma MostSpecificRuns(log: seq<Registration>, method_: string, target: string) returns (e: nat)
    requires CompatibleFor(log, ToUpper(method_))
    requires RoutePath(target) !in Build(log).statics && Dispatch(Build(log), method_, target).Run?
    ensures
      var table, xs, m := Build(log).table, SplitPath(RoutePath(target)), ToUpper(method_);
      && PathMatches(table, xs, e) && Select(table[e].methods, m) == Some(Dispatch(Build(log), method_, target).handler)
      && forall f: nat :: PathMatches(table, xs, f) && Supports(table[f].methods, m) && f != e ==>
           MoreSpecific(KeyOf(table[e]), KeyOf(table[f]))
  {
    hide Build, CompatibleFor, SplitPath, RoutePath, ToUpper, Dispatch, Matches, MoreSpecific, KeyOf, NoClashFor;
    var table, xs, m := Build(log).table, SplitPath(RoutePath(target)), ToUpper(method_);
    e := RunIsWinner(log, method_, target);
    BuildIsValid(log);
    CompatibleForBuilds(log, m);
    forall f: nat | PathMatches(table, xs, f) && Supports(table[f].methods, m) && f != e
      ensures MoreSpecific(KeyOf(table[e]), KeyOf(table[f]))
    {
      WinnerRanked(table, xs, m, e, f);
    }
  }
}
