/** The router: the static table in front of the trie, registration, and dispatch by method. */
module Router {
  import opened Text
  import opened SortedLists
  import opened RoutePattern
  import opened RoutePriority
  import opened RouteNodes
  import opened RouteTrie

  datatype AppHandler = Nil | App(id: Handler)
  datatype RouteError = InvalidRoutePath | InvalidRouteMethod | MissingHandler

  datatype RouterState = RouterState(statics: map<string, map<string, Handler>>, table: seq<Route>)

  datatype Registration = Registration(method_: string, path: string, handler: AppHandler)

  // What a registration comes to once it is checked.
  datatype Change =
    | Refused(error: RouteError)
    | Static(path: string, method_: string, handler: Handler)
    | Dynamic(route: Route)

  function SegmentsOf(pattern: string): seq<Segment> {
    ClassifyAll(SplitPath(pattern))
  }

  function Planned(r: Registration): Change {
    var m := ToUpper(r.method_);
    if m != ANY_METHOD && ContainsAny(m, " \t\r\n") then Refused(InvalidRouteMethod)
    else if r.path == "" || !HasPrefix(r.path, "/") then Refused(InvalidRoutePath)
    else if r.handler.Nil? then Refused(MissingHandler)
    else if !HasPathParams(r.path) then Static(r.path, m, r.handler.id)
    else if !ValidSegments(SegmentsOf(r.path)) then Refused(InvalidRoutePath)
    else Dynamic(Route(r.path, SegmentsOf(r.path), map[m := r.handler.id]))
  }

  function AddStatic(statics: map<string, map<string, Handler>>, path: string, m: string, h: Handler)
    : map<string, map<string, Handler>>
  {
    statics[path := (if path in statics then statics[path] else map[])[m := h]]
  }

  /** A refused registration changes nothing. */
  function ApplyChange(s: RouterState, c: Change): RouterState {
    match c
    case Refused(_) => s
    case Static(path, m, h) => s.(statics := AddStatic(s.statics, path, m, h))
    case Dynamic(route) => s.(table := Register(s.table, route))
  }

  const EMPTY := RouterState(map[], [])

  function Build(log: seq<Registration>): RouterState {
    if log == [] then EMPTY
    else ApplyChange(Build(log[..|log| - 1]), Planned(log[|log| - 1]))
  }

  ghost predicate ParsedBy(parse: string -> seq<Segment>, table: seq<Route>) {
    forall i :: 0 <= i < |table| ==>
      ValidSegments(table[i].segments) && table[i].segments == parse(table[i].pattern)
  }

  ghost predicate ValidState(s: RouterState) {
    && ValidTable(s.table) && ParsedBy(SegmentsOf, s.table)
    && forall path :: path in s.statics ==> s.statics[path] != map[]
  }

  ghost predicate Fits(c: Change) {
    c.Dynamic? ==>
      ValidRoute(c.route) && ValidSegments(c.route.segments) && c.route.segments == SegmentsOf(c.route.pattern)
  }

  lemma PlannedFits(r: Registration)
    ensures Fits(Planned(r))
  {
    hide SplitPath, ValidSegments, ValidKey, HasPathParams, ContainsAny, Normalize;
    var c := Planned(r);
    if c.Dynamic? {
      PatternKeyIsValid(r.path);
      assert ToUpper(r.method_) in c.route.methods;
    }
  }

  lemma ParsedAgrees(parse: string -> seq<Segment>, table: seq<Route>, r: Route)
    requires ParsedBy(parse, table) && ValidSegments(r.segments) && r.segments == parse(r.pattern)
    ensures Agrees(table, r) && ParsedBy(parse, Register(table, r))
  {
    var after := Register(table, r);
    forall i | 0 <= i < |after|
      ensures ValidSegments(after[i].segments) && after[i].segments == parse(after[i].pattern)
    {
      assert i < |table| ==> after[i].segments == table[i].segments && after[i].pattern == table[i].pattern;
    }
  }

  lemma RouteFits(s: RouterState, c: Change)
    requires ValidState(s) && Fits(c) && c.Dynamic?
    ensures ValidRoute(c.route) && Agrees(s.table, c.route) && ParsedBy(SegmentsOf, Register(s.table, c.route))
  {
    ParsedAgrees(SegmentsOf, s.table, c.route);
  }

  lemma ChangeKeepsState(s: RouterState, c: Change)
    requires ValidState(s) && Fits(c)
    ensures ValidState(ApplyChange(s, c))
  {
    match c
    case Refused(_) =>
    case Static(path, m, h) =>
      assert m in AddStatic(s.statics, path, m, h)[path];
    case Dynamic(route) =>
      RouteFits(s, c);
      RegisterKeepsTable(s.table, route);
  }

  lemma BuildStep(log: seq<Registration>, r: Registration)
    ensures Build(log + [r]) == ApplyChange(Build(log), Planned(r))
  {
    assert (log + [r])[..|log|] == log;
  }

  lemma {:induction false} BuildIsValid(log: seq<Registration>)
    ensures ValidState(Build(log))
  {
    if log != [] {
      BuildIsValid(log[..|log| - 1]);
      PlannedFits(log[|log| - 1]);
      ChangeKeepsState(Build(log[..|log| - 1]), Planned(log[|log| - 1]));
    }
  }

  // ----- dispatch ------------------------------------------------------------------------------

  datatype Outcome =
    | Run(handler: Handler, params: map<string, string>)
    | MethodNotAllowed(allow: string)
    | NotFound

  function RoutePath(target: string): string {
    var path := target[..IndexOf(target, '?')];
    if path == "" then "/" else path
  }

  /** The handler for a method, or else the one for any method. */
  function Select(methods: map<string, Handler>, m: string): Option<Handler> {
    if m in methods then Some(methods[m])
    else if ANY_METHOD in methods then Some(methods[ANY_METHOD])
    else None
  }

  predicate TextLess(a: string, b: string) {
    if b == "" then false
    else if a == "" then true
    else if a[0] != b[0] then a[0] < b[0]
    else TextLess(a[1..], b[1..])
  }

  lemma {:induction false} TextLessAsymmetric(a: string, b: string)
    requires TextLess(a, b)
    ensures !TextLess(b, a)
  {
    if a != "" && a[0] == b[0] {
      TextLessAsymmetric(a[1..], b[1..]);
    }
  }

  lemma {:induction false} TextLessTotal(a: string, b: string)
    requires a != b
    ensures TextLess(a, b) || TextLess(b, a)
  {
    if a != "" && b != "" && a[0] == b[0] {
      assert a == [a[0]] + a[1..] && b == [b[0]] + b[1..];
      TextLessTotal(a[1..], b[1..]);
    }
  }

  lemma {:induction false} TextLessTransitive(a: string, b: string, c: string)
    requires TextLess(a, b) && TextLess(b, c)
    ensures TextLess(a, c)
  {
    if a != "" && a[0] == b[0] == c[0] {
      TextLessTransitive(a[1..], b[1..], c[1..]);
    }
  }

  /** The texts agree up to n, and there a ends or has the smaller character. */
  predicate FirstDiffers(a: string, b: string, n: nat) {
    n <= |a| && n < |b| && a[..n] == b[..n] && (n == |a| || a[n] < b[n])
  }

  lemma DiffersLater(a: string, b: string, n: nat)
    requires a != "" && b != "" && a[0] == b[0]
    ensures FirstDiffers(a[1..], b[1..], n) <==> FirstDiffers(a, b, n + 1)
    ensures !FirstDiffers(a, b, 0)
  {
    if n < |a| && n + 1 < |b| {
      assert a[..n + 1] == [a[0]] + a[1..][..n] && b[..n + 1] == [b[0]] + b[1..][..n];
      assert a[..n + 1][1..] == a[1..][..n] && b[..n + 1][1..] == b[1..][..n];
    }
  }

  lemma DiffersAtOnce(a: string, b: string, n: nat)
    requires a == "" || b == "" || a[0] != b[0]
    ensures FirstDiffers(a, b, n) <==> n == 0 && b != "" && (a == "" || a[0] < b[0])
  {
    if 0 < n <= |a| && n < |b| {
      assert a[..n][0] == a[0] && b[..n][0] == b[0];
    }
  }

  /** The order of words in a dictionary: by the first character that differs, a prefix first. */
  lemma {:induction false} TextLessIff(a: string, b: string)
    ensures TextLess(a, b) <==> exists n :: FirstDiffers(a, b, n)
    decreases |a|
  {
    hide FirstDiffers;
    if a != "" && b != "" && a[0] == b[0] {
      TextLessIff(a[1..], b[1..]);
      DiffersLater(a, b, 0);
      if n: nat :| FirstDiffers(a[1..], b[1..], n) {
        DiffersLater(a, b, n);
      }
      if n: nat :| FirstDiffers(a, b, n) {
        DiffersLater(a, b, n - 1);
      }
    } else {
      DiffersAtOnce(a, b, 0);
      forall n: nat ensures FirstDiffers(a, b, n) ==> FirstDiffers(a, b, 0) {
        DiffersAtOnce(a, b, n);
      }
    }
  }

  ghost predicate StrictlySorted(list: seq<string>) {
    SortedBy(TextLess, list)
  }

  function InsertText(list: seq<string>, x: string): (r: seq<string>)
    ensures forall y :: y in r <==> y in list || y == x
  {
    if list == [] || TextLess(x, list[0]) then [x] + list else [list[0]] + InsertText(list[1..], x)
  }

  lemma {:induction false} InsertKeepsSorted(list: seq<string>, x: string)
    requires StrictlySorted(list) && x !in list
    ensures StrictlySorted(InsertText(list, x))
  {
    if list != [] {
      if TextLess(x, list[0]) {
        forall j | 0 < j < |list| ensures TextLess(x, list[j]) {
          TextLessTransitive(x, list[0], list[j]);
        }
      } else {
        TextLessTotal(x, list[0]);
        InsertKeepsSorted(list[1..], x);
        var r := InsertText(list[1..], x);
        forall j | 0 <= j < |r| ensures TextLess(list[0], r[j]) {
          assert r[j] in r;
          if r[j] != x {
            var m :| 0 <= m < |list[1..]| && list[1..][m] == r[j];
            assert list[m + 1] == r[j];
          }
        }
      }
    }
  }

  /** sort.Strings on a list without repetitions. */
  function SortTexts(list: seq<string>): (r: seq<string>)
    ensures forall y :: y in r <==> y in list
  {
    if list == [] then [] else InsertText(SortTexts(list[1..]), list[0])
  }

  lemma {:induction false} SortTextsSorted(list: seq<string>)
    requires forall i, j :: 0 <= i < j < |list| ==> list[i] != list[j]
    ensures StrictlySorted(SortTexts(list))
  {
    if list != [] {
      SortTextsSorted(list[1..]);
      InsertKeepsSorted(SortTexts(list[1..]), list[0]);
    }
  }

  /** The strictly sorted list of a set of method names. */
  ghost function SortedNames(names: set<string>): (r: seq<string>)
    ensures StrictlySorted(r) && forall y :: y in r <==> y in names
    decreases |names|
  {
    if names == {} then []
    else
      var x :| x in names;
      var rest := SortedNames(names - {x});
      InsertKeepsSorted(rest, x);
      InsertText(rest, x)
  }

  ghost function AllowHeader(names: set<string>): string {
    Join(SortedNames(names - {ANY_METHOD}), ", ")
  }

  method AllowedMethods(methods: map<string, Handler>) returns (header: string)
    ensures header == AllowHeader(methods.Keys)
  {
    var list: seq<string> := [];
    var left := methods.Keys;
    while left != {}
      invariant left <= methods.Keys
      invariant forall y :: y in list <==> y in methods && y !in left && y != ANY_METHOD
      invariant forall i, j :: 0 <= i < j < |list| ==> list[i] != list[j]
      decreases |left|
    {
      var m :| m in left;
      left := left - {m};
      if m != ANY_METHOD {
        list := list + [m];
      }
    }
    SortTextsSorted(list);
    forall a, b | TextLess(a, b) ensures !TextLess(b, a) {
      TextLessAsymmetric(a, b);
    }
    SortedUnique(TextLess, SortTexts(list), SortedNames(methods.Keys - {ANY_METHOD}));
    header := Join(SortTexts(list), ", ");
  }

  /** The first match, in priority order, that supports the method. */
  function FirstRun(matches: seq<RouteMatch>, m: string): Option<Outcome> {
    if matches == [] then None
    else
      match Select(matches[0].methods, m)
      case Some(h) => Some(Run(h, matches[0].params))
      case None => FirstRun(matches[1..], m)
  }

  function UnionMethods(matches: seq<RouteMatch>): set<string> {
    if matches == [] then {} else matches[0].methods.Keys + UnionMethods(matches[1..])
  }

  ghost function DispatchMatches(matches: seq<RouteMatch>, m: string): Outcome {
    match FirstRun(matches, m)
    case Some(run) => run
    case None => if UnionMethods(matches) != {} then MethodNotAllowed(AllowHeader(UnionMethods(matches))) else NotFound
  }

  ghost function Answer(s: RouterState, path: string, m: string): Outcome {
    if path in s.statics then
      match Select(s.statics[path], m)
      case Some(h) => Run(h, map[])
      case None => MethodNotAllowed(AllowHeader(s.statics[path].Keys))
    else DispatchMatches(ScanMatches(s.table, SplitPath(path)), m)
  }

  ghost function Dispatch(s: RouterState, method_: string, target: string): Outcome {
    Answer(s, RoutePath(target), ToUpper(method_))
  }

  /** The target is the path, or the path with a query after it. */
  predicate TargetOf(target: string, path: string) {
    '?' !in path && (target == path || path + "?" <= target)
  }

  /** A request is answered for its path, whatever query follows; no path at all stands for the root. */
  lemma QueryIsIgnored(s: RouterState, method_: string, target: string, path: string)
    requires TargetOf(target, path)
    ensures Dispatch(s, method_, target) == Answer(s, if path == "" then "/" else path, ToUpper(method_))
    ensures Dispatch(s, method_, target) == Dispatch(s, method_, path)
  {
    hide Answer, ToUpper;
    var n := |path|;
    AbsentMark(path);
    assert path[..n] == path;
    if target != path {
      assert target[n] == (path + "?")[n] == '?';
      assert forall k :: 0 <= k < n ==> target[k] == (path + "?")[k] == path[k] && path[k] in path;
      IndexOfUnique(target, '?', n);
      assert target[..n] == (path + "?")[..n] == path;
    }
  }

  lemma AbsentMark(s: string)
    requires '?' !in s
    ensures IndexOf(s, '?') == |s|
  {
    assert forall i :: 0 <= i < |s| ==> s[i] in s;
  }

  method Check(method_: string, path: string, handler: AppHandler) returns (change: Change)
    ensures change == Planned(Registration(method_, path, handler))
  {
    hide ContainsAny, HasPathParams, ToUpper, ValidSegments, SplitPath;
    var m := ToUpper(method_);
    if m != ANY_METHOD && ContainsAny(m, " \t\r\n") {
      return Refused(InvalidRouteMethod);
    }
    if path == "" || !HasPrefix(path, "/") {
      return Refused(InvalidRoutePath);
    }
    if handler.Nil? {
      return Refused(MissingHandler);
    }
    if !HasPathParams(path) {
      return Static(path, m, handler.id);
    }
    var segments := ParseRouteSegments(path);
    if segments.None? {
      return Refused(InvalidRoutePath);
    }
    return Dynamic(Route(path, segments.value, map[m := handler.id]));
  }

  class Mux {
    var routes: map<string, map<string, Handler>>
    const paramRoot: Trie
    // Everything HandleMethod was called with.
    ghost var log: seq<Registration>

    ghost function State(): RouterState
      reads this, paramRoot
    {
      RouterState(routes, paramRoot.table)
    }

    ghost predicate Valid()
      reads this, paramRoot, paramRoot.nodes.Values, paramRoot.tables
    {
      paramRoot.Valid() && State() == Build(log)
    }

    constructor ()
      ensures Valid() && log == [] && fresh(paramRoot) && fresh(paramRoot.nodes.Values) && paramRoot.tables == {}
    {
      routes := map[];
      paramRoot := new Trie();
      log := [];
    }

    method HandleMethod(method_: string, path: string, handler: AppHandler) returns (error: Option<RouteError>)
      requires Valid()
      modifies this, paramRoot, paramRoot.nodes.Values, paramRoot.tables
      ensures Valid() && log == old(log) + [Registration(method_, path, handler)]
      ensures
        var c := Planned(Registration(method_, path, handler));
        error == if c.Refused? then Some(c.error) else None
      ensures fresh(paramRoot.nodes.Values - old(paramRoot.nodes.Values))
      ensures fresh(paramRoot.tables - old(paramRoot.tables))
    {
      hide SegmentsOf, Planned, ApplyChange, ValidTable, ParsedBy, ValidState, Fits, Linked, Trie.Valid, ToUpper, Build;
      ghost var r := Registration(method_, path, handler);
      BuildIsValid(log);
      PlannedFits(r);
      var change := Check(method_, path, handler);
      Adopt(change);
      BuildStep(log, r);
      log := log + [r];
      error := if change.Refused? then Some(change.error) else None;
    }

    method Adopt(change: Change)
      requires paramRoot.Valid() && ValidState(State()) && Fits(change)
      modifies this`routes, paramRoot, paramRoot.nodes.Values, paramRoot.tables
      ensures paramRoot.Valid() && State() == ApplyChange(old(State()), change)
      ensures fresh(paramRoot.nodes.Values - old(paramRoot.nodes.Values))
      ensures fresh(paramRoot.tables - old(paramRoot.tables))
    {
      hide SegmentsOf;
      match change {
        case Refused(_) =>
        case Static(p, m, h) => AddRoute(p, m, h);
        case Dynamic(route) =>
          RouteFits(State(), change);
          HandleParamRoute(route);
      }
    }

    method HandleParamRoute(route: Route)
      requires paramRoot.Valid() && ValidRoute(route) && Agrees(paramRoot.table, route)
      modifies paramRoot, paramRoot.nodes.Values, paramRoot.tables
      ensures paramRoot.Valid() && paramRoot.table == Register(old(paramRoot.table), route)
      ensures fresh(paramRoot.nodes.Values - old(paramRoot.nodes.Values))
      ensures fresh(paramRoot.tables - old(paramRoot.tables))
    {
      hide Register, ValidRoute, Agrees, Trie.Valid;
      var methods := new MethodTable(route.methods);
      var entry := Entry(route.pattern, route.segments, methods);
      assert Contents([entry])[0] == route;
      paramRoot.Insert(entry, route);
      assert paramRoot.tables - old(paramRoot.tables) <= {methods};
    }

    method AddRoute(path: string, m: string, h: Handler)
      modifies this`routes
      ensures routes == AddStatic(old(routes), path, m, h)
    {
      if path !in routes {
        routes := routes[path := map[]];
      }
      var methods: map<string, Handler> := routes[path];
      methods := methods[m := h];
      routes := routes[path := methods];
    }

    method ServeHTTP(method_: string, target: string) returns (outcome: Outcome)
      requires Valid()
      ensures outcome == Dispatch(State(), method_, target)
      ensures forall path :: TargetOf(target, path) ==>
                outcome == Answer(State(), if path == "" then "/" else path, ToUpper(method_))
    {
      outcome := Serve(method_, target);
      forall path | TargetOf(target, path)
        ensures outcome == Answer(State(), if path == "" then "/" else path, ToUpper(method_))
      {
        QueryIsIgnored(State(), method_, target, path);
      }
    }

    method Serve(method_: string, target: string) returns (outcome: Outcome)
      requires Valid()
      ensures outcome == Dispatch(State(), method_, target)
    {
      hide SplitPath, ToUpper, LinearScan, Bindings, Trie.Valid, AllowHeader;
      var path := RoutePath(target);
      var m := ToUpper(method_);
      if path in routes {
        match Select(routes[path], m) {
          case Some(h) => return Run(h, map[]);
          case None =>
            var allow := AllowedMethods(routes[path]);
            return MethodNotAllowed(allow);
        }
      }
      var allowed: map<string, Handler> := map[];
      var matches := paramRoot.Match(path);
      for i := 0 to |matches|
        invariant FirstRun(matches, m) == FirstRun(matches[i..], m)
        invariant allowed.Keys + UnionMethods(matches[i..]) == UnionMethods(matches)
      {
        assert matches[i..][1..] == matches[i + 1..];
        match Select(matches[i].methods, m) {
          case Some(h) => return Run(h, matches[i].params);
          case None =>
        }
        allowed := allowed + matches[i].methods;
      }
      if |allowed| > 0 {
        var allow := AllowedMethods(allowed);
        return MethodNotAllowed(allow);
      }
      return NotFound;
    }
  }
}
