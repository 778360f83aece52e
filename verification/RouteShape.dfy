/** What the links of the segment trie look like for a list of keys, and how the list of matches is
    put together edge by edge. Everything here is about values; RouteTrie ties it to the heap. */
module RouteShape {
  import opened Text
  import opened RoutePattern
  import opened RoutePriority

  datatype EdgeKind = ParamEdges | WildEdges

  predicate OfKind(kind: EdgeKind, s: Segment) {
    match kind
    case ParamEdges => s.Param?
    case WildEdges => s.Wild?
  }

  /** The edges of one kind at p, in the order the keys first went through them. */
  function EdgesAt(ks: seq<Key>, p: Key, kind: EdgeKind): seq<Segment> {
    if ks == [] then []
    else
      var n := |ks| - 1;
      var edges, k := EdgesAt(ks[..n], p, kind), ks[n];
      if p < k && OfKind(kind, k[|p|]) && k[|p|] !in edges then edges + [k[|p|]] else edges
  }

  lemma HasKeyGrows(ks: seq<Key>, k: Key, q: Key)
    ensures HasKey(ks + [k], q) <==> HasKey(ks, q) || q <= k
  {
    CreatedGrows(ks, k, q);
    var all := ks + [k];
    assert all[|ks|] == k;
    assert HasKey(all, q) ==> Created(all, q) < |ks| ==> q <= ks[Created(all, q)];
  }

  lemma PrefixEdge(p: Key, x: Segment, k: Key)
    ensures p + [x] <= k <==> p < k && k[|p|] == x
  {
    if p < k && k[|p|] == x {
      assert k[..|p| + 1] == p + [x];
    }
    if p + [x] <= k {
      assert k[|p|] == (p + [x])[|p|];
      assert p == (p + [x])[..|p|] <= k;
    }
  }

  lemma {:induction false} EdgesMembers(ks: seq<Key>, p: Key, kind: EdgeKind, x: Segment)
    ensures x in EdgesAt(ks, p, kind) <==> OfKind(kind, x) && HasKey(ks, p + [x])
  {
    if ks != [] {
      var n := |ks| - 1;
      EdgesMembers(ks[..n], p, kind, x);
      assert ks == ks[..n] + [ks[n]];
      HasKeyGrows(ks[..n], ks[n], p + [x]);
      PrefixEdge(p, x, ks[n]);
    }
  }

  /** The edge list is in order of creation. */
  lemma {:induction false} EdgesByAge(ks: seq<Key>, p: Key, kind: EdgeKind, i: nat, j: nat)
    requires i < j < |EdgesAt(ks, p, kind)|
    ensures
      var edges := EdgesAt(ks, p, kind);
      Created(ks, p + [edges[i]]) < Created(ks, p + [edges[j]]) < |ks|
  {
    var n := |ks| - 1;
    var edges, before := EdgesAt(ks, p, kind), EdgesAt(ks[..n], p, kind);
    assert ks == ks[..n] + [ks[n]];
    CreatedGrows(ks[..n], ks[n], p + [edges[i]]);
    CreatedGrows(ks[..n], ks[n], p + [edges[j]]);
    assert edges[i] == before[i];
    EdgesMembers(ks[..n], p, kind, edges[i]);
    if j < |before| {
      EdgesByAge(ks[..n], p, kind, i, j);
    } else {
      EdgesMembers(ks[..n], p, kind, edges[j]);
      PrefixEdge(p, edges[j], ks[n]);
    }
  }

  /** Walking one step further along a new key adds at most one edge, at the node left behind. */
  lemma EdgesStep(ks: seq<Key>, p: Key, x: Segment, q: Key, kind: EdgeKind)
    ensures
      var now := EdgesAt(ks + [p], q, kind);
      EdgesAt(ks + [p + [x]], q, kind) == if q == p && OfKind(kind, x) && x !in now then now + [x] else now
  {
    var a, b := ks + [p], ks + [p + [x]];
    assert a[..|ks|] == ks && b[..|ks|] == ks;
    assert q < p + [x] ==> q == (p + [x])[..|q|] == p[..|q|];
    assert q < p ==> (p + [x])[|q|] == p[|q|];
  }

  lemma KeysStep(ks: seq<Key>, p: Key, x: Segment, q: Key)
    ensures HasKey(ks + [p + [x]], q) <==> HasKey(ks + [p], q) || q == p + [x]
  {
    HasKeyGrows(ks, p, q);
    HasKeyGrows(ks, p + [x], q);
    if q <= p + [x] && q != p + [x] {
      assert q == (p + [x])[..|q|] == p[..|q|];
    }
  }

  /** A key already present changes nothing. */
  lemma KeyAgain(ks: seq<Key>, k: Key, q: Key, kind: EdgeKind)
    requires k in ks
    ensures HasKey(ks + [k], q) == HasKey(ks, q)
    ensures EdgesAt(ks + [k], q, kind) == EdgesAt(ks, q, kind)
  {
    HasKeyGrows(ks, k, q);
    var i :| 0 <= i < |ks| && ks[i] == k;
    assert (ks + [k])[..|ks|] == ks;
    if q < k {
      PrefixEdge(q, k[|q|], k);
      EdgesMembers(ks, q, kind, k[|q|]);
    }
  }

  function Height(ks: seq<Key>): nat {
    if ks == [] then 0 else if |ks[0]| > Height(ks[1..]) then |ks[0]| else Height(ks[1..])
  }

  lemma {:induction false} HeightBounds(ks: seq<Key>, i: nat)
    requires i < |ks|
    ensures |ks[i]| <= Height(ks)
  {
    if i > 0 {
      HeightBounds(ks[1..], i - 1);
    }
  }

  /** The patterns stored at the node of p, in order. */
  function IndicesAt(ks: seq<Key>, p: Key): (r: seq<nat>)
    ensures forall i: nat :: i in r <==> i < |ks| && ks[i] == p
    ensures forall j :: 0 <= j < |r| ==> r[j] < |ks| && ks[r[j]] == p
    ensures forall i, j :: 0 <= i < j < |r| ==> r[i] < r[j]
  {
    if ks == [] then []
    else
      var n := |ks| - 1;
      var before := IndicesAt(ks[..n], p);
      assert forall i: nat :: i in before <==> i < n && ks[i] == p;
      assert forall i: nat :: i in before + [n] <==> i in before || i == n;
      if ks[n] == p then before + [n] else before
  }

  // ----- the list of matches below a node ------------------------------------------------------

  datatype Hit = Hit(entry: nat, params: map<string, string>)

  ghost predicate Under(ks: seq<Key>, p: Key, e: nat) {
    e < |ks| && p <= ks[e]
  }

  ghost predicate Found(ks: seq<Key>, p: Key, xs: seq<string>, e: nat) {
    Under(ks, p, e) && Matches(ks[e][|p|..], xs)
  }

  ghost predicate HitOk(ks: seq<Key>, p: Key, xs: seq<string>, params: map<string, string>, h: Hit) {
    Found(ks, p, xs, h.entry) && h.params == params + Bindings(ks[h.entry][|p|..], xs)
  }

  ghost predicate Earlier(ks: seq<Key>, p: Key, a: nat, b: nat) {
    Under(ks, p, a) && Under(ks, p, b) && Before(ks, a, b, |p|)
  }

  ghost predicate Ordered(ks: seq<Key>, p: Key, hits: seq<Hit>) {
    forall i, j :: 0 <= i < j < |hits| ==> Earlier(ks, p, hits[i].entry, hits[j].entry)
  }

  ghost predicate Listed(hits: seq<Hit>, e: nat) {
    exists i :: 0 <= i < |hits| && hits[i].entry == e
  }

  /** hits are exactly the matches of xs below p whose next step has been handled, in order. */
  ghost predicate PartList(ks: seq<Key>, p: Key, xs: seq<string>, params: map<string, string>,
                           hits: seq<Hit>, steps: set<Option<Segment>>)
  {
    && (forall h :: h in hits ==> HitOk(ks, p, xs, params, h) && StepOf(ks[h.entry], |p|) in steps)
    && (forall e: nat :: Found(ks, p, xs, e) && StepOf(ks[e], |p|) in steps ==> Listed(hits, e))
    && Ordered(ks, p, hits)
  }

  ghost predicate MatchList(ks: seq<Key>, p: Key, xs: seq<string>, params: map<string, string>, hits: seq<Hit>) {
    && (forall h :: h in hits ==> HitOk(ks, p, xs, params, h))
    && (forall e: nat :: Found(ks, p, xs, e) ==> Listed(hits, e))
    && Ordered(ks, p, hits)
  }

  ghost predicate AllValid(ks: seq<Key>) {
    forall i :: 0 <= i < |ks| ==> ValidKey(ks[i])
  }

  lemma WildcardIsLast(k: Key, p: Key, name: string, x: Segment)
    requires ValidKey(k)
    ensures !(p + [Wild(name)] + [x] <= k)
  {
    assert (p + [Wild(name)] + [x])[|p|] == Wild(name);
  }

  // What following an edge consumes of the path, and what it captures.

  predicate Follows(x: Segment, xs: seq<string>) {
    match x
    case Lit(text) => xs != [] && xs[0] == text
    case Param(_) => xs != []
    case Wild(_) => true
  }

  function RestAfter(x: Segment, xs: seq<string>): seq<string>
    requires Follows(x, xs)
  {
    if x.Wild? then [] else xs[1..]
  }

  function ParamsAfter(x: Segment, xs: seq<string>, params: map<string, string>): map<string, string>
    requires Follows(x, xs)
  {
    match x
    case Lit(_) => params
    case Param(name) => params[name := xs[0]]
    case Wild(name) => params[name := Join(xs, "/")]
  }

  lemma FollowedMatch(k: Key, d: nat, xs: seq<string>, params: map<string, string>)
    requires ValidKey(k) && d < |k| && Follows(k[d], xs)
    ensures Matches(k[d..], xs) <==> Matches(k[d + 1..], RestAfter(k[d], xs))
    ensures Matches(k[d..], xs) ==>
              params + Bindings(k[d..], xs)
              == ParamsAfter(k[d], xs, params) + Bindings(k[d + 1..], RestAfter(k[d], xs))
  {
    assert k[d..][1..] == k[d + 1..];
    if k[d].Wild? {
      assert k[d + 1..] == [];
    }
  }

  lemma UnderEdge(ks: seq<Key>, p: Key, x: Segment, e: nat)
    ensures Under(ks, p + [x], e) <==> Under(ks, p, e) && StepOf(ks[e], |p|) == Some(x)
  {
    if e < |ks| {
      PrefixEdge(p, x, ks[e]);
    }
  }

  lemma EdgeFound(ks: seq<Key>, p: Key, x: Segment, xs: seq<string>, params: map<string, string>, e: nat)
    requires AllValid(ks) && Follows(x, xs)
    ensures Found(ks, p + [x], RestAfter(x, xs), e)
            <==> Found(ks, p, xs, e) && StepOf(ks[e], |p|) == Some(x)
    ensures Found(ks, p + [x], RestAfter(x, xs), e) ==>
              params + Bindings(ks[e][|p|..], xs)
              == ParamsAfter(x, xs, params) + Bindings(ks[e][|p + [x]|..], RestAfter(x, xs))
  {
    UnderEdge(ks, p, x, e);
    if Under(ks, p + [x], e) {
      FollowedMatch(ks[e], |p|, xs, params);
    }
  }

  lemma AgreeUnder(ks: seq<Key>, p: Key, a: nat, b: nat)
    requires Under(ks, p, a) && Under(ks, p, b)
    ensures AgreeTo(ks, a, b, |p|) && ks[a][..|p|] == p
  {
  }

  lemma ChildOrder(ks: seq<Key>, p: Key, x: Segment, a: nat, b: nat)
    requires Under(ks, p + [x], a) && Under(ks, p + [x], b)
    ensures AgreeTo(ks, a, b, |p|) && AgreeTo(ks, a, b, |p| + 1)
    ensures Before(ks, a, b, |p|) == Before(ks, a, b, |p| + 1)
  {
    UnderEdge(ks, p, x, a);
    UnderEdge(ks, p, x, b);
    AgreeUnder(ks, p, a, b);
    AgreeUnder(ks, p + [x], a, b);
  }

  /** What is below an edge stays in order above it. */
  lemma EarlierAbove(ks: seq<Key>, p: Key, x: Segment, a: nat, b: nat)
    requires Earlier(ks, p + [x], a, b)
    ensures Earlier(ks, p, a, b)
  {
    hide Before;
    ChildOrder(ks, p, x, a, b);
    UnderEdge(ks, p, x, a);
    UnderEdge(ks, p, x, b);
  }

  lemma EarlierEdge(ks: seq<Key>, p: Key, x: Segment, a: nat, b: nat)
    requires Under(ks, p, a) && Under(ks, p + [x], b) && StepLess(ks, p, StepOf(ks[a], |p|), Some(x))
    ensures Earlier(ks, p, a, b)
  {
    UnderEdge(ks, p, x, b);
    AgreeUnder(ks, p, a, b);
  }

  lemma OrderedAppend(ks: seq<Key>, p: Key, hits: seq<Hit>, steps: set<Option<Segment>>, x: Segment, more: seq<Hit>)
    requires Ordered(ks, p, hits) && Ordered(ks, p + [x], more)
    requires forall h :: h in hits ==> Under(ks, p, h.entry) && StepOf(ks[h.entry], |p|) in steps
    requires forall h :: h in more ==> Under(ks, p + [x], h.entry)
    requires forall s :: s in steps ==> StepLess(ks, p, s, Some(x))
    ensures Ordered(ks, p, hits + more)
  {
    hide Earlier, Under, StepLess;
    var all := hits + more;
    forall i, j | 0 <= i < j < |all| ensures Earlier(ks, p, all[i].entry, all[j].entry) {
      if j < |hits| {
        assert all[i] == hits[i] && all[j] == hits[j];
      } else if i >= |hits| {
        assert all[i] == more[i - |hits|] && all[j] == more[j - |hits|];
        EarlierAbove(ks, p, x, all[i].entry, all[j].entry);
      } else {
        assert all[i] in hits && all[j] in more;
        EarlierEdge(ks, p, x, all[i].entry, all[j].entry);
      }
    }
  }

  /** Appending the matches below one more edge, later in priority than the edges handled so far,
      extends the list. */
  lemma AppendEdge(ks: seq<Key>, p: Key, xs: seq<string>, params: map<string, string>,
                   hits: seq<Hit>, steps: set<Option<Segment>>, x: Segment, more: seq<Hit>)
    requires AllValid(ks) && Follows(x, xs)
    requires PartList(ks, p, xs, params, hits, steps)
    requires forall s :: s in steps ==> StepLess(ks, p, s, Some(x))
    requires MatchList(ks, p + [x], RestAfter(x, xs), ParamsAfter(x, xs, params), more)
    ensures PartList(ks, p, xs, params, hits + more, steps + {Some(x)})
  {
    var all := hits + more;
    forall h | h in more
      ensures HitOk(ks, p, xs, params, h) && StepOf(ks[h.entry], |p|) == Some(x)
    {
      EdgeFound(ks, p, x, xs, params, h.entry);
    }
    forall e: nat | Found(ks, p, xs, e) && StepOf(ks[e], |p|) in steps + {Some(x)}
      ensures Listed(all, e)
    {
      if StepOf(ks[e], |p|) in steps {
        var i :| 0 <= i < |hits| && hits[i].entry == e;
        assert all[i].entry == e;
      } else {
        EdgeFound(ks, p, x, xs, params, e);
        var i :| 0 <= i < |more| && more[i].entry == e;
        assert all[|hits| + i].entry == e;
      }
    }
    OrderedAppend(ks, p, hits, steps, x, more);
  }

  /** An edge that does not exist has no matches below it. */
  lemma SkipEdge(ks: seq<Key>, p: Key, xs: seq<string>, params: map<string, string>,
                 hits: seq<Hit>, steps: set<Option<Segment>>, x: Segment)
    requires PartList(ks, p, xs, params, hits, steps) && !HasKey(ks, p + [x])
    ensures PartList(ks, p, xs, params, hits, steps + {Some(x)})
  {
    forall e: nat | Found(ks, p, xs, e) ensures StepOf(ks[e], |p|) != Some(x) {
      UnderEdge(ks, p, x, e);
    }
  }

  /** The patterns that end at p, all with the captures made so far. */
  ghost function EndHits(ks: seq<Key>, p: Key, params: map<string, string>): (hits: seq<Hit>)
    ensures |hits| == |IndicesAt(ks, p)|
    ensures forall i :: 0 <= i < |hits| ==> hits[i] == Hit(IndicesAt(ks, p)[i], params)
  {
    seq(|IndicesAt(ks, p)|, i requires 0 <= i < |IndicesAt(ks, p)| => Hit(IndicesAt(ks, p)[i], params))
  }

  lemma EndedHere(ks: seq<Key>, p: Key, params: map<string, string>)
    ensures PartList(ks, p, [], params, EndHits(ks, p, params), {None})
  {
    var at, hits := IndicesAt(ks, p), EndHits(ks, p, params);
    forall h | h in hits ensures HitOk(ks, p, [], params, h) && StepOf(ks[h.entry], |p|) == None {
      var i :| 0 <= i < |hits| && hits[i] == h;
      assert ks[at[i]] == p;
      assert ks[h.entry][|p|..] == [];
    }
    forall e: nat | Found(ks, p, [], e) && StepOf(ks[e], |p|) == None ensures Listed(hits, e) {
      assert ks[e] == p;
      assert e in at;
      var i :| 0 <= i < |at| && at[i] == e;
      assert hits[i].entry == e;
    }
    forall i, j | 0 <= i < j < |hits|
      ensures Under(ks, p, hits[i].entry) && Under(ks, p, hits[j].entry)
      ensures Before(ks, hits[i].entry, hits[j].entry, |p|)
    {
      assert ks[at[i]] == p && ks[at[j]] == p;
      AgreeUnder(ks, p, hits[i].entry, hits[j].entry);
    }
  }

  /** Once every step a match could take has been handled, the list is complete. */
  lemma Complete(ks: seq<Key>, p: Key, xs: seq<string>, params: map<string, string>,
                 hits: seq<Hit>, steps: set<Option<Segment>>)
    requires PartList(ks, p, xs, params, hits, steps)
    requires xs == [] ==> None in steps
    requires xs != [] ==> Some(Lit(xs[0])) in steps
    requires xs != [] ==> forall x :: x in EdgesAt(ks, p, ParamEdges) ==> Some(x) in steps
    requires forall x :: x in EdgesAt(ks, p, WildEdges) ==> Some(x) in steps
    ensures MatchList(ks, p, xs, params, hits)
  {
    forall e: nat | Found(ks, p, xs, e) ensures StepOf(ks[e], |p|) in steps {
      var k := ks[e];
      if |p| < |k| {
        assert k[|p|..][0] == k[|p|];
        UnderEdge(ks, p, k[|p|], e);
        if k[|p|].Param? {
          EdgesMembers(ks, p, ParamEdges, k[|p|]);
        } else if k[|p|].Wild? {
          EdgesMembers(ks, p, WildEdges, k[|p|]);
        }
      }
    }
  }

  ghost function Entries(hits: seq<Hit>): (r: seq<nat>)
    ensures |r| == |hits| && forall i :: 0 <= i < |hits| ==> r[i] == hits[i].entry
  {
    seq(|hits|, i requires 0 <= i < |hits| => hits[i].entry)
  }

  /** From the root, the complete list is the linear scan's. */
  lemma RootListIsLinearScan(ks: seq<Key>, xs: seq<string>, hits: seq<Hit>)
    requires MatchList(ks, [], xs, map[], hits)
    ensures Entries(hits) == LinearScan(ks, xs)
    ensures forall i :: 0 <= i < |hits| ==>
              && hits[i].entry < |ks| && Matches(ks[hits[i].entry], xs)
              && hits[i].params == Bindings(ks[hits[i].entry], xs)
  {
    var found := LinearScan(ks, xs);
    forall i | 0 <= i < |hits|
      ensures hits[i].entry < |ks| && Matches(ks[hits[i].entry], xs)
      ensures hits[i].params == Bindings(ks[hits[i].entry], xs)
      ensures hits[i].entry in found
    {
      assert hits[i] in hits;
      assert ks[hits[i].entry][0..] == ks[hits[i].entry];
    }
    forall e: nat | e in found ensures e in Entries(hits) {
      assert ks[e][0..] == ks[e];
      assert Found(ks, [], xs, e);
      var i :| 0 <= i < |hits| && hits[i].entry == e;
      assert Entries(hits)[i] == e;
    }
    ScanIsSorted(ks, xs, |ks|);
    SortedIsUnique(ks, Entries(hits), found);
  }

  /** The first i edges of a list, as steps. */
  ghost function EdgeSteps(edges: seq<Segment>, i: nat): set<Option<Segment>>
    requires i <= |edges|
  {
    set j | 0 <= j < i :: Some(edges[j])
  }

  predicate KindBelow(kind: EdgeKind, step: Option<Segment>) {
    match kind
    case ParamEdges => Kind(step) < 2
    case WildEdges => Kind(step) < 3
  }

  /** The next edge of a list comes after the earlier ones and after all lesser kinds. */
  lemma NextEdge(ks: seq<Key>, p: Key, kind: EdgeKind, steps: set<Option<Segment>>, i: nat)
    requires i < |EdgesAt(ks, p, kind)|
    requires forall s :: s in steps ==> KindBelow(kind, s)
    ensures
      var edges := EdgesAt(ks, p, kind);
      && OfKind(kind, edges[i])
      && (forall s :: s in steps + EdgeSteps(edges, i) ==> StepLess(ks, p, s, Some(edges[i])))
      && EdgeSteps(edges, i + 1) == EdgeSteps(edges, i) + {Some(edges[i])}
  {
    var edges := EdgesAt(ks, p, kind);
    assert edges[i] in edges;
    EdgesMembers(ks, p, kind, edges[i]);
    forall j | 0 <= j < i ensures StepLess(ks, p, Some(edges[j]), Some(edges[i])) {
      assert edges[j] in edges;
      EdgesMembers(ks, p, kind, edges[j]);
      EdgesByAge(ks, p, kind, j, i);
    }
  }

  lemma ParamStepsBelow(ks: seq<Key>, p: Key)
    ensures
      var edges := EdgesAt(ks, p, ParamEdges);
      forall s :: s in EdgeSteps(edges, |edges|) ==> KindBelow(WildEdges, s)
  {
    var edges := EdgesAt(ks, p, ParamEdges);
    forall j | 0 <= j < |edges| ensures edges[j].Param? {
      assert edges[j] in edges;
      EdgesMembers(ks, p, ParamEdges, edges[j]);
    }
  }

  lemma HasKeyHeight(ks: seq<Key>, q: Key)
    requires HasKey(ks, q)
    ensures |q| <= Height(ks)
  {
    HeightBounds(ks, Created(ks, q));
  }
}
