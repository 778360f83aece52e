/** Ranking among routes that match one path: how the trie's order relates to the documented rule,
    "the more specific route wins and registration order breaks ties". */
module RouteRanking {
  import opened Text
  import opened SortedLists
  import opened RoutePattern
  import opened RoutePriority
  import opened RouteShape

  // ----- the documented order ------------------------------------------------------------------

  /** Left to right: a pattern that ends, a literal, a parameter, a wildcard. */
  predicate MoreSpecific(a: Key, b: Key) {
    var x, y := StepOf(a, 0), StepOf(b, 0);
    Kind(x) < Kind(y) || (Kind(x) == Kind(y) && a != [] && b != [] && MoreSpecific(a[1..], b[1..]))
  }

  lemma {:induction false} MoreSpecificAsymmetric(a: Key, b: Key)
    requires MoreSpecific(a, b)
    ensures !MoreSpecific(b, a)
  {
    if a != [] && b != [] && Kind(Some(a[0])) == Kind(Some(b[0])) {
      MoreSpecificAsymmetric(a[1..], b[1..]);
    }
  }

  predicate DocumentedBefore(ks: seq<Key>, a: nat, b: nat)
    requires a < |ks| && b < |ks|
  {
    MoreSpecific(ks[a], ks[b]) || (!MoreSpecific(ks[b], ks[a]) && a < b)
  }

  predicate DocumentedPair(ks: seq<Key>, a: nat, b: nat) {
    a < |ks| && b < |ks| && DocumentedBefore(ks, a, b)
  }

  ghost predicate DocumentedOrder(ks: seq<Key>, found: seq<nat>) {
    forall i, j :: 0 <= i < j < |found| ==> DocumentedPair(ks, found[i], found[j])
  }

  // ----- when two patterns match a common path -------------------------------------------------

  predicate Overlap(a: Key, b: Key) {
    if a != [] && a[0].Wild? then true
    else if b != [] && b[0].Wild? then true
    else if a == [] || b == [] then a == b
    else (a[0].Lit? && b[0].Lit? ==> a[0] == b[0]) && Overlap(a[1..], b[1..])
  }

  predicate Plain(xs: seq<string>) {
    forall i :: 0 <= i < |xs| ==> xs[i] != "" && '/' !in xs[i]
  }

  lemma {:induction false} CommonPathOverlaps(a: Key, b: Key, xs: seq<string>)
    requires Matches(a, xs) && Matches(b, xs)
    ensures Overlap(a, b)
  {
    if a != [] && b != [] && !a[0].Wild? && !b[0].Wild? {
      CommonPathOverlaps(a[1..], b[1..], xs[1..]);
    }
  }

  function SampleSegment(x: Segment): string {
    if x.Lit? then x.text else "x"
  }

  /** A path the pattern matches. */
  lemma {:induction false} MatchedSample(k: Key) returns (xs: seq<string>)
    requires ValidKey(k)
    ensures Plain(xs) && Matches(k, xs)
    decreases |k|
  {
    if k == [] || k[0].Wild? {
      xs := [];
    } else {
      ValidTail(k);
      var rest := MatchedSample(k[1..]);
      xs := [SampleSegment(k[0])] + rest;
      assert xs[1..] == rest;
    }
  }

  lemma {:induction false} OverlapSample(a: Key, b: Key) returns (xs: seq<string>)
    requires ValidKey(a) && ValidKey(b) && Overlap(a, b)
    ensures Plain(xs) && Matches(a, xs) && Matches(b, xs)
    decreases |a|
  {
    if a != [] && a[0].Wild? {
      xs := MatchedSample(b);
    } else if b != [] && b[0].Wild? {
      xs := MatchedSample(a);
    } else if a == [] {
      xs := [];
    } else {
      ValidTail(a);
      ValidTail(b);
      var rest := OverlapSample(a[1..], b[1..]);
      xs := [SampleSegment(if a[0].Lit? then a[0] else b[0])] + rest;
      assert xs[1..] == rest;
    }
  }

  lemma {:induction false} JoinEnds(xs: seq<string>)
    requires xs != [] && xs[|xs| - 1] != "" && forall i :: 0 <= i < |xs| ==> '/' !in xs[i]
    ensures
      var s := Join(xs, "/");
      s != "" && s[|s| - 1] != '/' && (xs[0] != "" ==> s[0] != '/')
  {
    if |xs| > 1 {
      JoinEnds(xs[1..]);
    }
  }

  lemma TrimmedStays(s: string)
    requires s != "" && s[0] != '/' && s[|s| - 1] != '/'
    ensures Trim("/" + s, "/") == s
  {
    TrimPadding("/", s, "", "/");
    assert "/" + s + "" == "/" + s;
  }

  /** Segments without a slash, the first and the last not empty, are what their path is cut into. */
  lemma CutPath(xs: seq<string>)
    requires xs != [] && xs[0] != "" && xs[|xs| - 1] != "" && forall i :: 0 <= i < |xs| ==> '/' !in xs[i]
    ensures SplitPath("/" + Join(xs, "/")) == xs
  {
    JoinEnds(xs);
    TrimmedStays(Join(xs, "/"));
    SplitJoin(xs, '/');
  }

  /** Every list of plain segments is the cut-up form of a path. */
  lemma PathOf(xs: seq<string>) returns (path: string)
    requires Plain(xs)
    ensures HasPrefix(path, "/") && SplitPath(path) == xs
  {
    path := "/" + Join(xs, "/");
    if xs == [] {
      TrimPadding("/", "", "", "/");
    } else {
      CutPath(xs);
    }
  }

  // ----- where the code departs from the documented order --------------------------------------

  /** The patterns agree up to d and part there at captures of one kind with different names. */
  predicate PartAt(a: Key, b: Key, d: nat) {
    && d < |a| && d < |b| && a[..d] == b[..d]
    && a[d] != b[d] && Captures(a[d]) && Kind(Some(a[d])) == Kind(Some(b[d]))
  }

  /** Two patterns with a common path part at two captures of one kind but different names. The one
      whose capture was registered first is tried first, although the other should win. */
  predicate Inverted(ks: seq<Key>, a: nat, b: nat, d: nat) {
    && a < |ks| && b < |ks| && PartAt(ks[a], ks[b], d)
    && Created(ks, ks[a][..d + 1]) < Created(ks, ks[b][..d + 1])
    && Overlap(ks[a], ks[b])
    && DocumentedBefore(ks, b, a)
  }

  lemma SpecificStep(a: Key, b: Key, d: nat)
    requires d < |a| && d < |b| && Kind(Some(a[d])) == Kind(Some(b[d]))
    ensures MoreSpecific(a[d..], b[d..]) == MoreSpecific(a[d + 1..], b[d + 1..])
  {
    assert a[d..][1..] == a[d + 1..] && b[d..][1..] == b[d + 1..];
  }

  lemma MatchStep(k: Key, ys: seq<string>, d: nat)
    requires ValidKey(k) && d < |k| && Matches(k[d..], ys)
    ensures Follows(k[d], ys) && Matches(k[d + 1..], RestAfter(k[d], ys))
  {
    assert k[d..][0] == k[d];
    FollowedMatch(k, d, ys, map[]);
  }

  /** Where one pattern ends the trie's order is the documented one. */
  lemma EndsAreDocumented(ks: seq<Key>, a: nat, b: nat, d: nat)
    requires AgreeTo(ks, a, b, d) && Before(ks, a, b, d) && (d == |ks[a]| || d == |ks[b]|)
    ensures MoreSpecific(ks[a][d..], ks[b][d..]) || (!MoreSpecific(ks[b][d..], ks[a][d..]) && a < b)
  {
    hide Created;
  }

  lemma PartingSteps(ks: seq<Key>, ys: seq<string>, a: nat, b: nat, d: nat)
    requires AgreeTo(ks, a, b, d) && Before(ks, a, b, d) && d < |ks[a]| && d < |ks[b]| && ks[a][d] != ks[b][d]
    requires Follows(ks[a][d], ys) && Follows(ks[b][d], ys)
    ensures !MoreSpecific(ks[a][d..], ks[b][d..]) ==>
              PartAt(ks[a], ks[b], d) && Created(ks, ks[a][..d + 1]) < Created(ks, ks[b][..d + 1])
  {
    hide Created;
    PrefixStep(ks[a], d);
    PrefixStep(ks[b], d);
    assert ks[a][d..][0] == ks[a][d] && ks[b][d..][0] == ks[b][d];
  }

  /** The one way for the trie's order and the documented order to disagree on a path. */
  lemma {:induction false} Disagreement(ks: seq<Key>, ys: seq<string>, a: nat, b: nat, d: nat) returns (at: nat)
    requires AgreeTo(ks, a, b, d) && Before(ks, a, b, d) && ValidKey(ks[a]) && ValidKey(ks[b])
    requires Matches(ks[a][d..], ys) && Matches(ks[b][d..], ys)
    requires !MoreSpecific(ks[a][d..], ks[b][d..]) && (MoreSpecific(ks[b][d..], ks[a][d..]) || b < a)
    ensures PartAt(ks[a], ks[b], at) && Created(ks, ks[a][..at + 1]) < Created(ks, ks[b][..at + 1])
    decreases |ks[a]| - d
  {
    hide Matches, Bindings, ValidKey, Created, Overlap, MoreSpecific, Follows, RestAfter;
    at := d;
    if d == |ks[a]| || d == |ks[b]| {
      EndsAreDocumented(ks, a, b, d);
    } else {
      MatchStep(ks[a], ys, d);
      MatchStep(ks[b], ys, d);
      if ks[a][d] == ks[b][d] {
        AgreeFurther(ks, a, b, d);
        SpecificStep(ks[a], ks[b], d);
        SpecificStep(ks[b], ks[a], d);
        at := Disagreement(ks, RestAfter(ks[a][d], ys), a, b, d + 1);
      } else {
        PartingSteps(ks, ys, a, b, d);
      }
    }
  }

  /** Of two patterns that part at captures of one kind, the one whose capture is older goes first. */
  lemma {:induction false} OlderCaptureFirst(ks: seq<Key>, a: nat, b: nat, d: nat, at: nat)
    requires a < |ks| && b < |ks| && PartAt(ks[a], ks[b], at)
    requires Created(ks, ks[a][..at + 1]) < Created(ks, ks[b][..at + 1])
    requires d <= at && AgreeTo(ks, a, b, d)
    ensures Before(ks, a, b, d)
    decreases at - d
  {
    hide Created;
    if d == at {
      PrefixStep(ks[a], d);
      PrefixStep(ks[b], d);
    } else {
      assert ks[a][d] == ks[a][..at][d] == ks[b][..at][d] == ks[b][d];
      AgreeFurther(ks, a, b, d);
      OlderCaptureFirst(ks, a, b, d + 1, at);
    }
  }

  lemma DocumentedAsymmetric(ks: seq<Key>, a: nat, b: nat)
    requires a < |ks| && b < |ks| && DocumentedBefore(ks, a, b)
    ensures !DocumentedBefore(ks, b, a)
  {
    if MoreSpecific(ks[a], ks[b]) {
      MoreSpecificAsymmetric(ks[a], ks[b]);
    }
  }

  lemma PairInOrder(ks: seq<Key>, xs: seq<string>, a: nat, b: nat)
    requires AllValid(ks) && forall d :: !Inverted(ks, a, b, d)
    requires Precedes(ks, a, b) && Matches(ks[a], xs) && Matches(ks[b], xs)
    ensures DocumentedPair(ks, a, b)
  {
    if !DocumentedBefore(ks, a, b) {
      BeforeAsymmetric(ks, a, b, 0);
      assert ks[a][0..] == ks[a] && ks[b][0..] == ks[b];
      var at := Disagreement(ks, xs, a, b, 0);
      CommonPathOverlaps(ks[a], ks[b], xs);
      assert Inverted(ks, a, b, at);
    }
  }

  /** On one path the scan disagrees with the documented order only through an inverted pair. */
  lemma PathInOrder(ks: seq<Key>, xs: seq<string>)
    requires AllValid(ks) && forall a, b, d :: !Inverted(ks, a, b, d)
    ensures DocumentedOrder(ks, LinearScan(ks, xs))
  {
    var found := LinearScan(ks, xs);
    ScanIsSorted(ks, xs, |ks|);
    forall i, j | 0 <= i < j < |found| ensures DocumentedPair(ks, found[i], found[j]) {
      assert found[i] in found && found[j] in found;
      PairInOrder(ks, xs, found[i], found[j]);
    }
  }

  /** An inverted pair goes wrong on some path. */
  lemma InvertedPath(ks: seq<Key>, a: nat, b: nat, d: nat) returns (path: string)
    requires AllValid(ks) && Inverted(ks, a, b, d)
    ensures HasPrefix(path, "/")
    ensures Matches(ks[a], SplitPath(path)) && Matches(ks[b], SplitPath(path))
    ensures !DocumentedOrder(ks, LinearScan(ks, SplitPath(path)))
  {
    var xs := OverlapSample(ks[a], ks[b]);
    path := PathOf(xs);
    OutOfOrder(ks, a, b, d, xs);
  }

  lemma OutOfOrder(ks: seq<Key>, a: nat, b: nat, d: nat, xs: seq<string>)
    requires Inverted(ks, a, b, d) && Matches(ks[a], xs) && Matches(ks[b], xs)
    ensures !DocumentedOrder(ks, LinearScan(ks, xs))
  {
    var found := LinearScan(ks, xs);
    ScanIsSorted(ks, xs, |ks|);
    assert a in found && b in found;
    var i :| 0 <= i < |found| && found[i] == a;
    var j :| 0 <= j < |found| && found[j] == b;
    OlderCaptureFirst(ks, a, b, 0, d);
    BeforeAsymmetric(ks, a, b, 0);
    DocumentedAsymmetric(ks, b, a);
    assert i < j;
  }

  /** The documented rule holds on every path exactly when no two overlapping patterns part at
      captures of one kind with different names, the earlier one leading to the lesser pattern. */
  lemma DocumentedRuleIff(ks: seq<Key>)
    requires AllValid(ks)
    ensures (forall path :: DocumentedOrder(ks, LinearScan(ks, SplitPath(path))))
            <==> (forall a, b, d :: !Inverted(ks, a, b, d))
  {
    if forall a, b, d :: !Inverted(ks, a, b, d) {
      forall path ensures DocumentedOrder(ks, LinearScan(ks, SplitPath(path))) {
        PathInOrder(ks, SplitPath(path));
      }
    } else {
      var a, b, d :| Inverted(ks, a, b, d);
      var path := InvertedPath(ks, a, b, d);
      assert !DocumentedOrder(ks, LinearScan(ks, SplitPath(path)));
    }
  }

  // ----- sibling captures with one name --------------------------------------------------------

  /** Where two patterns part at captures of one kind, the captures carry the same name. */
  ghost predicate SharedNames(a: Key, b: Key) {
    forall d :: !PartAt(a, b, d)
  }

  ghost predicate Coherent(ks: seq<Key>) {
    forall a, b :: 0 <= a < |ks| && 0 <= b < |ks| ==> SharedNames(ks[a], ks[b])
  }

  lemma CoherentIsDocumented(ks: seq<Key>, path: string)
    requires AllValid(ks) && Coherent(ks)
    ensures DocumentedOrder(ks, LinearScan(ks, SplitPath(path)))
  {
    forall a: nat, b: nat, d: nat ensures !Inverted(ks, a, b, d) {
      assert a < |ks| && b < |ks| ==> SharedNames(ks[a], ks[b]);
    }
    PathInOrder(ks, SplitPath(path));
  }

  /** Among matching patterns with shared names the trie's order is by specificity alone. */
  lemma {:induction false} CoherentOrder(ks: seq<Key>, ys: seq<string>, a: nat, b: nat, d: nat)
    requires AgreeTo(ks, a, b, d) && Before(ks, a, b, d) && ValidKey(ks[a]) && ValidKey(ks[b])
    requires Matches(ks[a][d..], ys) && Matches(ks[b][d..], ys)
    requires SharedNames(ks[a], ks[b]) && ks[a] != ks[b]
    ensures MoreSpecific(ks[a][d..], ks[b][d..])
    decreases |ks[a]| - d
  {
    hide Matches, Bindings, ValidKey, Created, Overlap;
    if d < |ks[a]| && d < |ks[b]| {
      MatchStep(ks[a], ys, d);
      MatchStep(ks[b], ys, d);
      if ks[a][d] == ks[b][d] {
        AgreeFurther(ks, a, b, d);
        SpecificStep(ks[a], ks[b], d);
        CoherentOrder(ks, RestAfter(ks[a][d], ys), a, b, d + 1);
      } else {
        PartingSteps(ks, ys, a, b, d);
      }
    }
  }

  // ----- patterns whose order of registration shows ---------------------------------------------

  /** Some path matches both patterns, and which of them goes first there is decided by registration:
      they have one key, or they part at captures of one kind with different names. */
  ghost predicate Clash(a: Key, b: Key) {
    Overlap(a, b) && (a == b || exists d :: PartAt(a, b, d))
  }

  lemma {:induction false} OverlapSymmetric(a: Key, b: Key)
    requires Overlap(a, b)
    ensures Overlap(b, a)
  {
    if a != [] && b != [] && !a[0].Wild? && !b[0].Wild? {
      OverlapSymmetric(a[1..], b[1..]);
    }
  }

  lemma ClashSymmetric(a: Key, b: Key)
    requires Clash(a, b)
    ensures Clash(b, a)
  {
    OverlapSymmetric(a, b);
    if d :| PartAt(a, b, d) {
      assert PartAt(b, a, d);
    }
  }

  /** Which of two patterns goes first, wherever they stand in the table: when they part at captures of
      one kind with different names, the one whose capture was created first, whether by its own
      registration or by another's. Patterns with one key go by their own age (SameKeyByAge). */
  lemma OlderCaptureDecides(ks: seq<Key>, a: nat, b: nat, at: nat)
    requires a < |ks| && b < |ks| && PartAt(ks[a], ks[b], at)
    ensures Precedes(ks, a, b) <==> Created(ks, ks[a][..at + 1]) < Created(ks, ks[b][..at + 1])
  {
    hide Created, Before;
    PrefixStep(ks[a], at);
    PrefixStep(ks[b], at);
    DifferentEdges(ks, a, b, at);
    if Created(ks, ks[a][..at + 1]) < Created(ks, ks[b][..at + 1]) {
      OlderCaptureFirst(ks, a, b, 0, at);
    } else {
      OlderCaptureFirst(ks, b, a, 0, at);
      BeforeAsymmetric(ks, b, a, 0);
    }
  }

  lemma CreatedFirst(ks: seq<Key>, d: nat)
    requires |ks| >= 2 && PartAt(ks[0], ks[1], d)
    ensures Created(ks, ks[0][..d + 1]) < Created(ks, ks[1][..d + 1])
  {
    assert ks[0][..d + 1] <= ks[0];
    assert ks[1][..d + 1][d] != ks[0][d];
  }

  /** Of two clashing patterns registered before all others the one registered first goes first. */
  lemma FirstOfClashing(ks: seq<Key>)
    requires |ks| >= 2 && Clash(ks[0], ks[1])
    ensures Precedes(ks, 0, 1)
  {
    if ks[0] == ks[1] {
      SameKeyByAge(ks, 0, 1, 0);
    } else {
      var d :| PartAt(ks[0], ks[1], d);
      CreatedFirst(ks, d);
      OlderCaptureDecides(ks, 0, 1, d);
    }
  }

  /** Patterns that match one path without clashing are ordered by specificity, in every list that
      holds them. */
  lemma OrderedAlike(ks: seq<Key>, xs: seq<string>, a: nat, b: nat)
    requires a < |ks| && b < |ks| && ValidKey(ks[a]) && ValidKey(ks[b])
    requires Matches(ks[a], xs) && Matches(ks[b], xs) && !Clash(ks[a], ks[b])
    ensures Precedes(ks, a, b) ==> MoreSpecific(ks[a], ks[b])
  {
    CommonPathOverlaps(ks[a], ks[b], xs);
    if Precedes(ks, a, b) {
      assert ks[a][0..] == ks[a] && ks[b][0..] == ks[b];
      CoherentOrder(ks, xs, a, b, 0);
    }
  }
}
