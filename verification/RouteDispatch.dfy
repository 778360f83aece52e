/** What a request comes to, for every table of routes a sequence of registrations can build. */
module RouteDispatch {
  import opened Text
  import opened SortedLists
  import opened RoutePattern
  import opened RoutePriority
  import opened RouteNodes
  import opened Router

  predicate Supports(methods: map<string, Handler>, m: string) {
    m in methods || ANY_METHOD in methods
  }

  predicate PathMatches(table: seq<Route>, xs: seq<string>, e: nat) {
    e < |table| && Matches(KeyOf(table[e]), xs)
  }

  /** The methods of every registered pattern that matches. */
  function MatchedMethods(table: seq<Route>, xs: seq<string>): set<string> {
    set e, m | 0 <= e < |table| && PathMatches(table, xs, e) && m in table[e].methods :: m
  }

  lemma {:induction false} FirstRunFinds(matches: seq<RouteMatch>, m: string) returns (i: nat)
    ensures i <= |matches| && forall j :: 0 <= j < i ==> !Supports(matches[j].methods, m)
    ensures i == |matches| ==> FirstRun(matches, m) == None
    ensures i < |matches| ==>
              && Select(matches[i].methods, m).Some?
              && FirstRun(matches, m) == Some(Run(Select(matches[i].methods, m).value, matches[i].params))
  {
    if matches == [] || Select(matches[0].methods, m).Some? {
      i := 0;
    } else {
      i := FirstRunFinds(matches[1..], m);
      forall j | 0 <= j < i + 1 ensures !Supports(matches[j].methods, m) {
        if j > 0 {
          assert matches[j] == matches[1..][j - 1];
        }
      }
      i := i + 1;
    }
  }

  lemma {:induction false} UnionMembers(matches: seq<RouteMatch>, name: string)
    ensures name in UnionMethods(matches) <==> exists i :: 0 <= i < |matches| && name in matches[i].methods
  {
    if matches != [] {
      UnionMembers(matches[1..], name);
      if name in UnionMethods(matches[1..]) {
        var i :| 0 <= i < |matches[1..]| && name in matches[1..][i].methods;
        assert matches[i + 1] == matches[1..][i];
      }
      if i :| 0 <= i < |matches| && name in matches[i].methods {
        assert i > 0 ==> matches[1..][i - 1] == matches[i];
      }
    }
  }

  lemma ScanMember(table: seq<Route>, xs: seq<string>, i: nat)
    requires i < |LinearScan(Keys(table), xs)|
    ensures
      var e := LinearScan(Keys(table), xs)[i];
      PathMatches(table, xs, e)
      && ScanMatches(table, xs)[i] == RouteMatch(table[e].methods, Bindings(KeyOf(table[e]), xs))
  {
    assert LinearScan(Keys(table), xs)[i] in LinearScan(Keys(table), xs);
  }

  lemma MemberScanned(table: seq<Route>, xs: seq<string>, e: nat) returns (i: nat)
    requires PathMatches(table, xs, e)
    ensures i < |LinearScan(Keys(table), xs)| && LinearScan(Keys(table), xs)[i] == e
  {
    assert e in LinearScan(Keys(table), xs);
    i :| 0 <= i < |LinearScan(Keys(table), xs)| && LinearScan(Keys(table), xs)[i] == e;
  }

  lemma UnionIsMatched(table: seq<Route>, xs: seq<string>)
    ensures UnionMethods(ScanMatches(table, xs)) == MatchedMethods(table, xs)
  {
    var matches := ScanMatches(table, xs);
    forall name ensures name in UnionMethods(matches) <==> name in MatchedMethods(table, xs) {
      UnionMembers(matches, name);
      if i :| 0 <= i < |matches| && name in matches[i].methods {
        ScanMember(table, xs, i);
      }
      if e :| 0 <= e < |table| && PathMatches(table, xs, e) && name in table[e].methods {
        var i := MemberScanned(table, xs, e);
        ScanMember(table, xs, i);
      }
    }
  }

  // ----- the three outcomes --------------------------------------------------------------------

  /** The highest-priority matching route that supports the method. */
  ghost predicate Winner(table: seq<Route>, xs: seq<string>, m: string, e: nat) {
    && PathMatches(table, xs, e) && Supports(table[e].methods, m)
    && forall f: nat :: PathMatches(table, xs, f) && Supports(table[f].methods, m) && f != e ==>
         Precedes(Keys(table), e, f)
  }

  ghost predicate PathKnown(s: RouterState, path: string) {
    path in s.statics || exists e: nat :: PathMatches(s.table, SplitPath(path), e)
  }

  /** The method names offered for a path: the static entry's, or those of every matching pattern. */
  ghost function Offered(s: RouterState, path: string): set<string> {
    if path in s.statics then s.statics[path].Keys else MatchedMethods(s.table, SplitPath(path))
  }

  lemma {:induction false} FirstIsWinner(table: seq<Route>, xs: seq<string>, m: string) returns (i: nat)
    ensures i <= |ScanMatches(table, xs)|
    ensures i == |ScanMatches(table, xs)| ==>
              FirstRun(ScanMatches(table, xs), m) == None
              && forall e: nat :: PathMatches(table, xs, e) ==> !Supports(table[e].methods, m)
    ensures i < |ScanMatches(table, xs)| ==>
              var e := LinearScan(Keys(table), xs)[i];
              && Winner(table, xs, m, e) && Select(table[e].methods, m).Some?
              && FirstRun(ScanMatches(table, xs), m)
                 == Some(Run(Select(table[e].methods, m).value, Bindings(KeyOf(table[e]), xs)))
  {
    var matches, found := ScanMatches(table, xs), LinearScan(Keys(table), xs);
    i := FirstRunFinds(matches, m);
    forall f: nat | PathMatches(table, xs, f) && Supports(table[f].methods, m)
      ensures i < |matches| && (f != found[i] ==> Precedes(Keys(table), found[i], f))
    {
      var j := MemberScanned(table, xs, f);
      ScanMember(table, xs, j);
      ScanIsSorted(Keys(table), xs, |table|);
    }
    if i < |matches| {
      ScanMember(table, xs, i);
    }
  }

  lemma OfferedNonempty(s: RouterState, path: string)
    requires ValidState(s)
    ensures PathKnown(s, path) <==> Offered(s, path) != {}
  {
    if path in s.statics {
      var m :| m in s.statics[path];
      assert m in Offered(s, path);
    } else {
      if e: nat :| PathMatches(s.table, SplitPath(path), e) {
        var m :| m in s.table[e].methods;
        assert m in Offered(s, path);
      }
      if Offered(s, path) != {} {
        var m :| m in Offered(s, path);
      }
    }
  }

  lemma AnswerOutcomes(s: RouterState, path: string, m: string)
    requires ValidState(s)
    ensures
      var out := Answer(s, path, m);
      && (out.NotFound? <==> !PathKnown(s, path))
      && (out.MethodNotAllowed? <==> PathKnown(s, path) && m !in Offered(s, path) && ANY_METHOD !in Offered(s, path))
      && (out.Run? <==> m in Offered(s, path) || ANY_METHOD in Offered(s, path))
      && (out.MethodNotAllowed? ==> out.allow == AllowHeader(Offered(s, path)))
  {
    hide SplitPath, ScanMatches, LinearScan, Precedes, AllowHeader, ValidState;
    var xs := SplitPath(path);
    OfferedNonempty(s, path);
    if path !in s.statics {
      var i := FirstIsWinner(s.table, xs, m);
      UnionIsMatched(s.table, xs);
    }
  }

  /** Not found exactly when nothing matches the path; not allowed exactly when something matches but
      nothing that supports the method; otherwise one handler runs. */
  lemma DispatchOutcomes(log: seq<Registration>, method_: string, target: string)
    ensures
      var s, path, m := Build(log), RoutePath(target), ToUpper(method_);
      var out := Dispatch(s, method_, target);
      && (out.NotFound? <==> !PathKnown(s, path))
      && (out.MethodNotAllowed? <==> PathKnown(s, path) && m !in Offered(s, path) && ANY_METHOD !in Offered(s, path))
      && (out.Run? <==> m in Offered(s, path) || ANY_METHOD in Offered(s, path))
  {
    hide Answer, RoutePath, ToUpper, Build, PathKnown, Offered, ValidState;
    BuildIsValid(log);
    AnswerOutcomes(Build(log), RoutePath(target), ToUpper(method_));
  }

  /** A refused method is answered with the sorted list of the offered ones, which is not empty and
      does not name the request's own. */
  lemma AllowListsOffered(log: seq<Registration>, method_: string, target: string) returns (names: seq<string>)
    requires Dispatch(Build(log), method_, target).MethodNotAllowed?
    ensures Dispatch(Build(log), method_, target).allow == Join(names, ", ")
    ensures names != [] && StrictlySorted(names)
    ensures forall n :: n in names <==> n in Offered(Build(log), RoutePath(target))
    ensures ToUpper(method_) !in names && "" !in names
  {
    hide Answer, RoutePath, ToUpper, Build, PathKnown, Offered, ValidState;
    BuildIsValid(log);
    AnswerOutcomes(Build(log), RoutePath(target), ToUpper(method_));
    OfferedNonempty(Build(log), RoutePath(target));
    var offered := Offered(Build(log), RoutePath(target));
    assert offered - {ANY_METHOD} == offered;
    names := SortedNames(offered);
    var n :| n in offered;
    assert n in names;
  }

  lemma AnswerIsWinner(s: RouterState, path: string, m: string) returns (e: nat)
    requires Answer(s, path, m).Run?
    ensures
      var xs, out := SplitPath(path), Answer(s, path, m);
      if path in s.statics then
        Select(s.statics[path], m) == Some(out.handler) && out.params == map[]
      else
        && Winner(s.table, xs, m, e)
        && Select(s.table[e].methods, m) == Some(out.handler)
        && out.params == Bindings(KeyOf(s.table[e]), xs)
  {
    hide SplitPath, ScanMatches, LinearScan, Precedes, AllowHeader, Bindings;
    e := 0;
    if path !in s.statics {
      var i := FirstIsWinner(s.table, SplitPath(path), m);
      if i < |ScanMatches(s.table, SplitPath(path))| {
        e := LinearScan(Keys(s.table), SplitPath(path))[i];
      }
    }
  }

  /** The handler that runs belongs to the static entry, or to the first matching pattern in priority
      order that supports the method, with that pattern's captures. */
  lemma RunIsWinner(log: seq<Registration>, method_: string, target: string) returns (e: nat)
    requires Dispatch(Build(log), method_, target).Run?
    ensures
      var s, path, m := Build(log), RoutePath(target), ToUpper(method_);
      var xs, out := SplitPath(path), Dispatch(s, method_, target);
      if path in s.statics then
        Select(s.statics[path], m) == Some(out.handler) && out.params == map[]
      else
        && Winner(s.table, xs, m, e)
        && Select(s.table[e].methods, m) == Some(out.handler)
        && out.params == Bindings(KeyOf(s.table[e]), xs)
  {
    hide Answer, RoutePath, ToUpper, Build, SplitPath, Winner, Bindings;
    e := AnswerIsWinner(Build(log), RoutePath(target), ToUpper(method_));
  }

  // ----- what one more registration changes ----------------------------------------------------

  lemma UpdatedMatch(table: seq<Route>, after: seq<Route>, xs: seq<string>, e: nat) returns (j: nat)
    requires |after| == |table| && e < |table| && PathMatches(table, xs, e) && Keys(after) == Keys(table)
    requires forall i :: 0 <= i < |table| && i != e ==> after[i] == table[i]
    ensures
      var before := ScanMatches(table, xs);
      && j < |before| && before[j] == RouteMatch(table[e].methods, Bindings(KeyOf(table[e]), xs))
      && ScanMatches(after, xs) == before[j := before[j].(methods := after[e].methods)]
  {
    var found := LinearScan(Keys(table), xs);
    j := MemberScanned(table, xs, e);
    ScanMember(table, xs, j);
    forall i | 0 <= i < |found|
      ensures ScanMatches(after, xs)[i]
              == if i == j then ScanMatches(table, xs)[j].(methods := after[e].methods) else ScanMatches(table, xs)[i]
    {
      ScanMember(table, xs, i);
      ScanMember(after, xs, i);
      if i != j {
        DistinctInScan(Keys(table), xs, i, j);
      }
    }
  }

  lemma DistinctInScan(ks: seq<Key>, xs: seq<string>, i: nat, j: nat)
    requires i < |LinearScan(ks, xs)| && j < |LinearScan(ks, xs)| && i != j
    ensures LinearScan(ks, xs)[i] != LinearScan(ks, xs)[j]
  {
    var found := LinearScan(ks, xs);
    ScanIsSorted(ks, xs, |ks|);
    var lo, hi := if i < j then i else j, if i < j then j else i;
    assert Precedes(ks, found[lo], found[hi]);
    if found[lo] == found[hi] {
      BeforeAsymmetric(ks, found[lo], found[hi], 0);
    }
  }

  lemma UnchangedMatches(table: seq<Route>, after: seq<Route>, xs: seq<string>)
    requires |after| == |table| && Keys(after) == Keys(table)
    requires forall e: nat :: PathMatches(table, xs, e) ==> after[e] == table[e]
    ensures ScanMatches(after, xs) == ScanMatches(table, xs)
  {
    forall i | 0 <= i < |ScanMatches(table, xs)| ensures ScanMatches(after, xs)[i] == ScanMatches(table, xs)[i] {
      ScanMember(table, xs, i);
      ScanMember(after, xs, i);
    }
  }

  lemma AddedMatch(table: seq<Route>, r: Route, xs: seq<string>) returns (j: nat)
    ensures !Matches(KeyOf(r), xs) ==> ScanMatches(table + [r], xs) == ScanMatches(table, xs)
    ensures Matches(KeyOf(r), xs) ==>
              var before := ScanMatches(table, xs);
              j <= |before| && ScanMatches(table + [r], xs)
                               == before[..j] + [RouteMatch(r.methods, Bindings(KeyOf(r), xs))] + before[j..]
  {
    hide Matches, Bindings, LinearScan, KeyOf;
    var ks, more := Keys(table), table + [r];
    assert Keys(more) == ks + [KeyOf(r)];
    j := InsertIsFramed(ks, KeyOf(r), xs);
    var old_, new_ := LinearScan(ks, xs), LinearScan(Keys(more), xs);
    forall i | 0 <= i < |old_|
      ensures PathMatches(table, xs, old_[i]) && more[old_[i]] == table[old_[i]]
      ensures ScanMatches(table, xs)[i] == RouteMatch(table[old_[i]].methods, Bindings(KeyOf(table[old_[i]]), xs))
    {
      ScanMember(table, xs, i);
    }
    forall i | 0 <= i < |new_|
      ensures PathMatches(more, xs, new_[i])
      ensures ScanMatches(more, xs)[i] == RouteMatch(more[new_[i]].methods, Bindings(KeyOf(more[new_[i]]), xs))
    {
      ScanMember(more, xs, i);
    }
  }

  /** A registration leaves the matches of every path its pattern does not match as they were; for a
      path it matches it adds one entry, or updates the methods of the entry with the same pattern. */
  lemma RegistrationIsFramed(table: seq<Route>, r: Route, xs: seq<string>) returns (j: nat)
    requires Agrees(table, r)
    ensures
      var before, after := ScanMatches(table, xs), ScanMatches(Register(table, r), xs);
      var e := PatternIndex(table, r.pattern);
      if !Matches(KeyOf(r), xs) then after == before
      else if e < |table| then
        && j < |before| && before[j] == RouteMatch(table[e].methods, Bindings(KeyOf(r), xs))
        && after == before[j := RouteMatch(table[e].methods + r.methods, Bindings(KeyOf(r), xs))]
      else
        j <= |before| && after == before[..j] + [RouteMatch(r.methods, Bindings(KeyOf(r), xs))] + before[j..]
  {
    var e := PatternIndex(table, r.pattern);
    RegisterKeys(table, r);
    if e == |table| {
      j := AddedMatch(table, r, xs);
    } else if Matches(KeyOf(r), xs) {
      j := UpdatedMatch(table, Register(table, r), xs, e);
    } else {
      j := 0;
      UnchangedMatches(table, Register(table, r), xs);
    }
  }
}
