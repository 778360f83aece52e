/** The priority order among registered patterns, and the linear scan the trie stands for. Patterns
    are their keys, listed in the order of first registration. */
module RoutePriority {
  import opened Text
  import opened RoutePattern
  import opened SortedLists

  // ----- edges and when they were created ------------------------------------------------------

  /** The first registration that goes through q; the length when none does. */
  function Created(ks: seq<Key>, q: Key): (i: nat)
    ensures i <= |ks|
    ensures i < |ks| ==> q <= ks[i]
    ensures forall j :: 0 <= j < i ==> !(q <= ks[j])
  {
    if ks == [] || q <= ks[0] then 0 else 1 + Created(ks[1..], q)
  }

  predicate HasKey(ks: seq<Key>, q: Key) {
    Created(ks, q) < |ks|
  }

  lemma {:induction false} CreatedGrows(ks: seq<Key>, k: Key, q: Key)
    ensures Created(ks, q) < |ks| ==> Created(ks + [k], q) == Created(ks, q)
    ensures Created(ks, q) == |ks| && q <= k ==> Created(ks + [k], q) == |ks|
  {
    var c, d := Created(ks, q), Created(ks + [k], q);
    assert forall j :: 0 <= j < |ks| ==> (ks + [k])[j] == ks[j];
    assert (ks + [k])[|ks|] == k;
  }

  /** A prefix is reached no later than what lies below it. */
  lemma CreatedByPrefix(ks: seq<Key>, p: Key, q: Key)
    requires p <= q
    ensures Created(ks, p) <= Created(ks, q)
  {
    var i := Created(ks, q);
    if i < |ks| {
      assert p <= ks[i];
    }
  }

  // ----- the order -----------------------------------------------------------------------------

  function StepOf(k: Key, d: nat): Option<Segment>
    requires d <= |k|
  {
    if d == |k| then None else Some(k[d])
  }

  /** Ending here comes first, then a literal, a parameter, a wildcard. */
  function Kind(step: Option<Segment>): nat {
    match step
    case None => 0
    case Some(Lit(_)) => 1
    case Some(Param(_)) => 2
    case Some(Wild(_)) => 3
  }

  function EdgeAge(ks: seq<Key>, p: Key, step: Option<Segment>): nat {
    if step.None? then 0 else Created(ks, p + [step.value])
  }

  /** At one node: by kind, and among edges of a kind by creation. */
  predicate StepLess(ks: seq<Key>, p: Key, x: Option<Segment>, y: Option<Segment>) {
    Kind(x) < Kind(y) || (Kind(x) == Kind(y) && EdgeAge(ks, p, x) < EdgeAge(ks, p, y))
  }

  predicate AgreeTo(ks: seq<Key>, a: nat, b: nat, d: nat) {
    a < |ks| && b < |ks| && d <= |ks[a]| && d <= |ks[b]| && ks[a][..d] == ks[b][..d]
  }

  /** Pattern a goes before pattern b: decided at the first step where they part, and by first
      registration when they never do. */
  predicate Before(ks: seq<Key>, a: nat, b: nat, d: nat)
    requires AgreeTo(ks, a, b, d)
    decreases |ks[a]| - d
  {
    var x, y := StepOf(ks[a], d), StepOf(ks[b], d);
    if x != y then StepLess(ks, ks[a][..d], x, y)
    else if x.None? then a < b
    else AgreeFurther(ks, a, b, d); Before(ks, a, b, d + 1)
  }

  lemma AgreeFurther(ks: seq<Key>, a: nat, b: nat, d: nat)
    requires AgreeTo(ks, a, b, d)
    requires StepOf(ks[a], d) == StepOf(ks[b], d) && StepOf(ks[a], d).Some?
    ensures AgreeTo(ks, a, b, d + 1)
  {
    assert ks[a][..d + 1] == ks[a][..d] + [ks[a][d]];
    assert ks[b][..d + 1] == ks[b][..d] + [ks[b][d]];
  }

  predicate Precedes(ks: seq<Key>, a: nat, b: nat) {
    a < |ks| && b < |ks| && Before(ks, a, b, 0)
  }

  lemma PrefixStep(k: Key, d: nat)
    requires d < |k|
    ensures k[..d] + [k[d]] == k[..d + 1] <= k
  {
  }

  lemma DifferentEdges(ks: seq<Key>, a: nat, b: nat, d: nat)
    requires AgreeTo(ks, a, b, d) && d < |ks[a]| && d < |ks[b]| && ks[a][d] != ks[b][d]
    ensures Created(ks, ks[a][..d] + [ks[a][d]]) != Created(ks, ks[b][..d] + [ks[b][d]])
  {
    PrefixStep(ks[a], d);
    PrefixStep(ks[b], d);
    var i, j := Created(ks, ks[a][..d + 1]), Created(ks, ks[b][..d + 1]);
    assert i <= a && j <= b;
    assert ks[i][d] == ks[a][..d + 1][d];
    assert ks[j][d] == ks[b][..d + 1][d];
  }

  /** The order is total. */
  lemma {:induction false} BeforeTotal(ks: seq<Key>, a: nat, b: nat, d: nat)
    requires AgreeTo(ks, a, b, d) && a != b
    ensures Before(ks, a, b, d) || Before(ks, b, a, d)
    decreases |ks[a]| - d
  {
    var x, y := StepOf(ks[a], d), StepOf(ks[b], d);
    if x == y {
      if x.Some? {
        AgreeFurther(ks, a, b, d);
        BeforeTotal(ks, a, b, d + 1);
      }
    } else if x.Some? && y.Some? {
      DifferentEdges(ks, a, b, d);
    }
  }

  /** The order is asymmetric, hence irreflexive. */
  lemma {:induction false} BeforeAsymmetric(ks: seq<Key>, a: nat, b: nat, d: nat)
    requires AgreeTo(ks, a, b, d) && Before(ks, a, b, d)
    ensures !Before(ks, b, a, d)
    decreases |ks[a]| - d
  {
    if StepOf(ks[a], d) == StepOf(ks[b], d) && StepOf(ks[a], d).Some? {
      AgreeFurther(ks, a, b, d);
      BeforeAsymmetric(ks, a, b, d + 1);
    }
  }

  lemma {:induction false} BeforeTransitive(ks: seq<Key>, a: nat, b: nat, c: nat, d: nat)
    requires AgreeTo(ks, a, b, d) && AgreeTo(ks, b, c, d)
    requires Before(ks, a, b, d) && Before(ks, b, c, d)
    ensures Before(ks, a, c, d)
    decreases |ks[a]| - d
  {
    var x, y, z := StepOf(ks[a], d), StepOf(ks[b], d), StepOf(ks[c], d);
    if x == y == z && x.Some? {
      AgreeFurther(ks, a, b, d);
      AgreeFurther(ks, b, c, d);
      BeforeTransitive(ks, a, b, c, d + 1);
    }
  }

  /** Patterns with one key are tried in the order of their first registration. */
  lemma {:induction false} SameKeyByAge(ks: seq<Key>, a: nat, b: nat, d: nat)
    requires AgreeTo(ks, a, b, d) && ks[a] == ks[b]
    ensures Before(ks, a, b, d) <==> a < b
    decreases |ks[a]| - d
  {
    if d < |ks[a]| {
      AgreeFurther(ks, a, b, d);
      SameKeyByAge(ks, a, b, d + 1);
    }
  }

  // ----- the linear scan -----------------------------------------------------------------------

  ghost predicate Sorted(ks: seq<Key>, found: seq<nat>) {
    forall i, j :: 0 <= i < j < |found| ==> Precedes(ks, found[i], found[j])
  }

  function Place(ks: seq<Key>, found: seq<nat>, i: nat): (r: seq<nat>)
    ensures |r| == |found| + 1
    ensures forall j :: j in r <==> j in found || j == i
  {
    if found == [] || Precedes(ks, i, found[0]) then [i] + found
    else [found[0]] + Place(ks, found[1..], i)
  }

  /** Try every pattern against the path and keep the matching ones in priority order. */
  function Scan(ks: seq<Key>, xs: seq<string>, n: nat): (found: seq<nat>)
    requires n <= |ks|
    ensures forall i: nat :: i in found <==> i < n && Matches(ks[i], xs)
  {
    if n == 0 then []
    else
      var found := Scan(ks, xs, n - 1);
      if Matches(ks[n - 1], xs) then Place(ks, found, n - 1) else found
  }

  function LinearScan(ks: seq<Key>, xs: seq<string>): seq<nat> {
    Scan(ks, xs, |ks|)
  }

  lemma {:induction false} PlaceKeepsSorted(ks: seq<Key>, found: seq<nat>, i: nat)
    requires Sorted(ks, found) && i < |ks| && i !in found
    requires forall j :: j in found ==> j < |ks|
    ensures Sorted(ks, Place(ks, found, i))
  {
    var r := Place(ks, found, i);
    if found != [] {
      if Precedes(ks, i, found[0]) {
        forall j | 0 <= j < |found| ensures Precedes(ks, i, found[j]) {
          if j > 0 {
            BeforeTransitive(ks, i, found[0], found[j], 0);
          }
        }
      } else {
        assert found[0] in found;
        BeforeTotal(ks, i, found[0], 0);
        assert forall j :: j in found[1..] ==> j in found;
        PlaceKeepsSorted(ks, found[1..], i);
        forall j | 0 <= j < |r| - 1 ensures Precedes(ks, found[0], r[1..][j]) {
          assert r[1..][j] in r[1..];
          if r[1..][j] != i {
            var m :| 0 <= m < |found[1..]| && found[1..][m] == r[1..][j];
            assert found[m + 1] == r[1..][j];
          }
        }
        assert r[1..] == Place(ks, found[1..], i);
      }
    }
  }

  lemma {:induction false} ScanIsSorted(ks: seq<Key>, xs: seq<string>, n: nat)
    requires n <= |ks|
    ensures Sorted(ks, Scan(ks, xs, n))
  {
    if n > 0 {
      ScanIsSorted(ks, xs, n - 1);
      var found := Scan(ks, xs, n - 1);
      assert n - 1 !in found && forall j :: j in found ==> j < |ks|;
      if Matches(ks[n - 1], xs) {
        PlaceKeepsSorted(ks, found, n - 1);
      }
    }
  }

  lemma LinearScanSorted(ks: seq<Key>, xs: seq<string>)
    ensures Sorted(ks, LinearScan(ks, xs))
  {
    ScanIsSorted(ks, xs, |ks|);
  }

  /** The scan's list is the only sorted list of exactly the matching patterns. */
  lemma SortedIsUnique(ks: seq<Key>, f: seq<nat>, g: seq<nat>)
    requires Sorted(ks, f) && Sorted(ks, g)
    requires forall i :: i in f <==> i in g
    ensures f == g
  {
    var less := (a: nat, b: nat) => Precedes(ks, a, b);
    forall a: nat, b: nat | less(a, b) ensures !less(b, a) {
      BeforeAsymmetric(ks, a, b, 0);
    }
    SortedUnique(less, f, g);
  }

  // ----- one more pattern ----------------------------------------------------------------------

  lemma {:induction false} BeforeFramed(ks: seq<Key>, k: Key, a: nat, b: nat, d: nat)
    requires AgreeTo(ks, a, b, d)
    ensures AgreeTo(ks + [k], a, b, d)
    ensures Before(ks + [k], a, b, d) == Before(ks, a, b, d)
    decreases |ks[a]| - d
  {
    var more := ks + [k];
    assert more[a] == ks[a] && more[b] == ks[b];
    var x, y := StepOf(ks[a], d), StepOf(ks[b], d);
    if x == y && x.Some? {
      AgreeFurther(ks, a, b, d);
      BeforeFramed(ks, k, a, b, d + 1);
    }
    if d < |ks[a]| {
      PrefixStep(ks[a], d);
      CreatedGrows(ks, k, ks[a][..d] + [ks[a][d]]);
    }
    if d < |ks[b]| {
      PrefixStep(ks[b], d);
      CreatedGrows(ks, k, ks[b][..d] + [ks[b][d]]);
    }
  }

  lemma {:induction false} PlaceFramed(ks: seq<Key>, k: Key, found: seq<nat>, i: nat)
    requires i < |ks| && forall j :: j in found ==> j < |ks|
    ensures Place(ks + [k], found, i) == Place(ks, found, i)
  {
    if found != [] {
      assert found[0] in found;
      BeforeFramed(ks, k, i, found[0], 0);
      assert forall j :: j in found[1..] ==> j in found;
      PlaceFramed(ks, k, found[1..], i);
    }
  }

  lemma {:induction false} ScanFramed(ks: seq<Key>, k: Key, xs: seq<string>, n: nat)
    requires n <= |ks|
    ensures Scan(ks + [k], xs, n) == Scan(ks, xs, n)
  {
    if n > 0 {
      assert (ks + [k])[n - 1] == ks[n - 1];
      ScanFramed(ks, k, xs, n - 1);
      PlaceFramed(ks, k, Scan(ks, xs, n - 1), n - 1);
    }
  }

  lemma {:induction false} PlaceInserts(ks: seq<Key>, found: seq<nat>, i: nat) returns (j: nat)
    ensures j <= |found| && Place(ks, found, i) == found[..j] + [i] + found[j..]
  {
    if found == [] || Precedes(ks, i, found[0]) {
      j := 0;
    } else {
      j := PlaceInserts(ks, found[1..], i);
      assert found[..j + 1] == [found[0]] + found[1..][..j];
      assert found[j + 1..] == found[1..][j..];
      j := j + 1;
    }
  }

  /** A new pattern leaves the list of every path it does not match unchanged, and enters the list
      of every path it matches in exactly one place. */
  lemma InsertIsFramed(ks: seq<Key>, k: Key, xs: seq<string>) returns (j: nat)
    ensures !Matches(k, xs) ==> LinearScan(ks + [k], xs) == LinearScan(ks, xs)
    ensures Matches(k, xs) ==>
              var before := LinearScan(ks, xs);
              j <= |before| && LinearScan(ks + [k], xs) == before[..j] + [|ks|] + before[j..]
  {
    ScanFramed(ks, k, xs, |ks|);
    j := 0;
    if Matches(k, xs) {
      j := PlaceInserts(ks + [k], LinearScan(ks, xs), |ks|);
    }
  }
}
