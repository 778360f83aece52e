/** The nodes of the segment trie on the heap, and when they form a tree for a table of routes. */
module RouteNodes {
  import opened Text
  import opened RoutePattern
  import opened RoutePriority
  import opened RouteShape

  // An application handler, known by number.
  type Handler = nat

  // The reserved method name that stands for every method.
  const ANY_METHOD := ""

  datatype Route = Route(pattern: string, segments: seq<Segment>, methods: map<string, Handler>)

  datatype Edge = Edge(segment: Segment, child: Node)

  datatype RouteMatch = RouteMatch(methods: map<string, Handler>, params: map<string, string>)

  function PatternIndex(table: seq<Route>, pattern: string): (i: nat)
    ensures i <= |table|
    ensures i < |table| ==> table[i].pattern == pattern
    ensures forall j :: 0 <= j < i ==> table[j].pattern != pattern
  {
    if table == [] || table[0].pattern == pattern then 0 else 1 + PatternIndex(table[1..], pattern)
  }

  /** A pattern string seen before gets its methods merged in; a new one goes to the end. */
  function Register(table: seq<Route>, r: Route): seq<Route> {
    var i := PatternIndex(table, r.pattern);
    if i < |table| then table[i := table[i].(methods := table[i].methods + r.methods)]
    else table + [r]
  }

  /** A node's three kinds of edges, as a value. */
  datatype Links = Links(literals: map<string, Node>, params: seq<Edge>, wilds: seq<Edge>)

  const NO_LINKS := Links(map[], [], [])

  function WithEdge(links: Links, x: Segment, child: Node): Links {
    match x
    case Lit(l) => links.(literals := links.literals[l := child])
    case Param(_) => links.(params := links.params + [Edge(x, child)])
    case Wild(_) => links.(wilds := links.wilds + [Edge(x, child)])
  }

  predicate HasEdge(links: Links, x: Segment) {
    match x
    case Lit(l) => l in links.literals
    case Param(_) => exists i :: 0 <= i < |links.params| && links.params[i].segment == x
    case Wild(_) => exists i :: 0 <= i < |links.wilds| && links.wilds[i].segment == x
  }

  predicate LeadsTo(links: Links, x: Segment, child: Node) {
    match x
    case Lit(l) => l in links.literals && links.literals[l] == child
    case Param(_) => Edge(x, child) in links.params
    case Wild(_) => Edge(x, child) in links.wilds
  }

  /** The method table of one route, updated in place. */
  class MethodTable {
    var handlers: map<string, Handler>

    constructor (handlers: map<string, Handler>)
      ensures this.handlers == handlers
    {
      this.handlers := handlers;
    }
  }

  // A route as a node holds it.
  datatype Entry = Entry(pattern: string, segments: seq<Segment>, table: MethodTable)

  function TablesOf(entries: seq<Entry>): set<MethodTable> {
    set i | 0 <= i < |entries| :: entries[i].table
  }

  /** The routes the entries stand for at the moment. */
  ghost function Contents(entries: seq<Entry>): (rs: seq<Route>)
    reads TablesOf(entries)
    ensures |rs| == |entries|
    ensures forall i :: 0 <= i < |entries| ==>
              rs[i] == Route(entries[i].pattern, entries[i].segments, entries[i].table.handlers)
  {
    seq(|entries|, i requires 0 <= i < |entries| reads TablesOf(entries) =>
      Route(entries[i].pattern, entries[i].segments, entries[i].table.handlers))
  }

  ghost predicate DistinctTables(entries: seq<Entry>) {
    forall i, j :: 0 <= i < j < |entries| ==> entries[i].table != entries[j].table
  }

  lemma ContentsFound(entries: seq<Entry>, pattern: string, i: nat)
    requires i < |entries| && entries[i].pattern == pattern
    requires forall k :: 0 <= k < i ==> entries[k].pattern != pattern
    ensures PatternIndex(Contents(entries), pattern) == i
  {
    PatternIndexUnique(Contents(entries), pattern, i);
  }

  class Node {
    var routes: seq<Entry>
    var literalChildren: map<string, Node>
    var paramChildren: seq<Edge>
    var wildcardChildren: seq<Edge>

    constructor ()
      ensures IsBlank()
    {
      routes := [];
      literalChildren := map[];
      paramChildren := [];
      wildcardChildren := [];
    }

    predicate IsBlank()
      reads this
    {
      routes == [] && literalChildren == map[] && paramChildren == [] && wildcardChildren == []
    }

    function View(): Links
      reads this`literalChildren, this`paramChildren, this`wildcardChildren
    {
      Links(literalChildren, paramChildren, wildcardChildren)
    }

    method LiteralChild(literal: string) returns (child: Node)
      modifies this`literalChildren
      ensures literal in old(literalChildren) ==>
                child == old(literalChildren[literal]) && literalChildren == old(literalChildren)
      ensures literal !in old(literalChildren) ==>
                && fresh(child) && child.IsBlank()
                && literalChildren == old(literalChildren)[literal := child]
    {
      if literal in literalChildren {
        return literalChildren[literal];
      }
      child := new Node();
      literalChildren := literalChildren[literal := child];
    }

    method ParamChild(name: string) returns (child: Node)
      modifies this`paramChildren
      ensures (exists i :: 0 <= i < |old(paramChildren)| && old(paramChildren)[i].segment == Param(name)) ==>
                && paramChildren == old(paramChildren)
                && Edge(Param(name), child) in paramChildren
      ensures (forall i :: 0 <= i < |old(paramChildren)| ==> old(paramChildren)[i].segment != Param(name)) ==>
                && fresh(child) && child.IsBlank()
                && paramChildren == old(paramChildren) + [Edge(Param(name), child)]
    {
      for i := 0 to |paramChildren|
        invariant forall k :: 0 <= k < i ==> paramChildren[k].segment != Param(name)
        invariant paramChildren == old(paramChildren)
      {
        if paramChildren[i].segment == Param(name) {
          return paramChildren[i].child;
        }
      }
      child := new Node();
      paramChildren := paramChildren + [Edge(Param(name), child)];
    }

    method WildcardChild(name: string) returns (child: Node)
      modifies this`wildcardChildren
      ensures (exists i :: 0 <= i < |old(wildcardChildren)| && old(wildcardChildren)[i].segment == Wild(name)) ==>
                && wildcardChildren == old(wildcardChildren)
                && Edge(Wild(name), child) in wildcardChildren
      ensures (forall i :: 0 <= i < |old(wildcardChildren)| ==> old(wildcardChildren)[i].segment != Wild(name)) ==>
                && fresh(child) && child.IsBlank()
                && wildcardChildren == old(wildcardChildren) + [Edge(Wild(name), child)]
    {
      for i := 0 to |wildcardChildren|
        invariant forall k :: 0 <= k < i ==> wildcardChildren[k].segment != Wild(name)
        invariant wildcardChildren == old(wildcardChildren)
      {
        if wildcardChildren[i].segment == Wild(name) {
          return wildcardChildren[i].child;
        }
      }
      child := new Node();
      wildcardChildren := wildcardChildren + [Edge(Wild(name), child)];
    }

    /** The end of insert: write the methods into the table of the entry with the same pattern string,
        or add an entry. */
    method StoreRoute(route: Entry)
      requires DistinctTables(routes) && route.table !in TablesOf(routes)
      modifies this`routes, TablesOf(routes)
      ensures Contents(routes) == Register(old(Contents(routes)), old(Contents([route])[0]))
      ensures routes == old(routes) || routes == old(routes) + [route]
    {
      ghost var before := Contents(routes);
      for i := 0 to |routes|
        invariant routes == old(routes) && Contents(routes) == before
        invariant forall k :: 0 <= k < i ==> routes[k].pattern != route.pattern
      {
        if routes[i].pattern == route.pattern {
          ContentsFound(routes, route.pattern, i);
          var table := routes[i].table;
          table.handlers := table.handlers + route.table.handlers;
          assert Contents(routes) == before[i := before[i].(methods := before[i].methods + route.table.handlers)];
          return;
        }
      }
      PatternNowhere(before, route.pattern);
      routes := routes + [route];
    }

    /** One match for every route stored here, with the captures so far. */
    method TerminalMatches(params: map<string, string>) returns (matches: seq<RouteMatch>)
      ensures |matches| == |routes|
      ensures forall i :: 0 <= i < |routes| ==> matches[i] == RouteMatch(Contents(routes)[i].methods, params)
    {
      matches := [];
      for i := 0 to |routes|
        invariant |matches| == i
        invariant forall k :: 0 <= k < i ==> matches[k] == RouteMatch(Contents(routes)[k].methods, params)
      {
        matches := matches + [RouteMatch(routes[i].table.handlers, params)];
      }
    }

    /** The switch of insert: follow the edge of a segment, creating its child when missing. */
    method Descend(x: Segment) returns (child: Node)
      modifies this`literalChildren, this`paramChildren, this`wildcardChildren
      ensures HasEdge(old(View()), x) ==> View() == old(View()) && LeadsTo(View(), x, child)
      ensures !HasEdge(old(View()), x) ==>
                fresh(child) && child.IsBlank() && View() == WithEdge(old(View()), x, child)
    {
      match x
      case Lit(literal) => child := LiteralChild(literal);
      case Param(name) => child := ParamChild(name);
      case Wild(name) => child := WildcardChild(name);
    }
  }

  // ----- the entries, as values ----------------------------------------------------------------

  /** Every entry of every node has a method table of its own. */
  ghost predicate Unaliased(entries: map<Key, seq<Entry>>, tables: set<MethodTable>) {
    && (forall p :: p in entries ==> DistinctTables(entries[p]) && TablesOf(entries[p]) <= tables)
    && (forall p, q :: p in entries && q in entries && p != q ==> TablesOf(entries[p]) !! TablesOf(entries[q]))
  }

  // ----- the links, as values ------------------------------------------------------------------

  ghost predicate EdgesLinked(nodes: map<Key, Node>, p: Key, edges: seq<Edge>, segments: seq<Segment>) {
    && |edges| == |segments|
    && forall i :: 0 <= i < |segments| ==>
         p + [segments[i]] in nodes && edges[i] == Edge(segments[i], nodes[p + [segments[i]]])
  }

  ghost predicate NodeLinked(nodes: map<Key, Node>, links: Links, ks: seq<Key>, p: Key) {
    && (forall l :: l in links.literals <==> p + [Lit(l)] in nodes)
    && (forall l :: l in links.literals ==> links.literals[l] == nodes[p + [Lit(l)]])
    && EdgesLinked(nodes, p, links.params, EdgesAt(ks, p, ParamEdges))
    && EdgesLinked(nodes, p, links.wilds, EdgesAt(ks, p, WildEdges))
  }

  /** A tree without sharing: one node for every prefix of a key, different prefixes at different
      nodes, and every node linked to exactly its children. */
  ghost predicate KeyedBy(nodes: map<Key, Node>, ks: seq<Key>) {
    forall p :: p in nodes <==> p == [] || HasKey(ks, p)
  }

  ghost predicate Unshared(nodes: map<Key, Node>) {
    forall p, q :: p in nodes && q in nodes && nodes[p] == nodes[q] ==> p == q
  }

  ghost predicate AllLinked(nodes: map<Key, Node>, view: map<Key, Links>, ks: seq<Key>)
    requires view.Keys == nodes.Keys
  {
    forall p {:trigger NodeLinked(nodes, view[p], ks, p)} :: p in nodes ==> NodeLinked(nodes, view[p], ks, p)
  }

  ghost predicate Linked(nodes: map<Key, Node>, view: map<Key, Links>, ks: seq<Key>) {
    view.Keys == nodes.Keys && KeyedBy(nodes, ks) && Unshared(nodes) && AllLinked(nodes, view, ks)
  }

  lemma KindStep(ks: seq<Key>, p: Key, x: Segment, q: Key)
    ensures forall kind :: EdgesAt(ks + [p + [x]], q, kind) ==
              var now := EdgesAt(ks + [p], q, kind);
              if q == p && OfKind(kind, x) && x !in now then now + [x] else now
    ensures HasKey(ks + [p + [x]], q) <==> HasKey(ks + [p], q) || q == p + [x]
  {
    EdgesStep(ks, p, x, q, ParamEdges);
    EdgesStep(ks, p, x, q, WildEdges);
    KeysStep(ks, p, x, q);
  }

  /** Following an edge that exists changes nothing. */
  lemma FollowLinked(nodes: map<Key, Node>, view: map<Key, Links>, ks: seq<Key>, p: Key, x: Segment)
    requires Linked(nodes, view, ks + [p]) && p in nodes && p + [x] in nodes
    ensures Linked(nodes, view, ks + [p + [x]])
  {
    forall q
      ensures HasKey(ks + [p + [x]], q) <==> HasKey(ks + [p], q) || q == p + [x]
      ensures q in nodes ==> NodeLinked(nodes, view[q], ks + [p + [x]], q)
    {
      KindStep(ks, p, x, q);
      EdgesMembers(ks + [p], q, ParamEdges, x);
      EdgesMembers(ks + [p], q, WildEdges, x);
      assert q in nodes ==> NodeLinked(nodes, view[q], ks + [p], q);
      assert HasKey(ks + [p], p + [x]);
    }
  }

  lemma SnocInjective(q: Key, y: Segment, p: Key, x: Segment)
    ensures q + [y] == p + [x] <==> q == p && y == x
  {
    if q + [y] == p + [x] {
      assert q == (q + [y])[..|p|] && y == (q + [y])[|p|];
    }
  }

  lemma NodeFramed(nodes: map<Key, Node>, links: Links, ks: seq<Key>, q: Key, p: Key, x: Segment, child: Node)
    requires NodeLinked(nodes, links, ks + [p], q) && q != p && p + [x] !in nodes
    ensures NodeLinked(nodes[p + [x] := child], links, ks + [p + [x]], q)
  {
    KindStep(ks, p, x, q);
    forall y ensures q + [y] != p + [x] {
      SnocInjective(q, y, p, x);
    }
  }

  lemma EdgesGrown(nodes: map<Key, Node>, edges: seq<Edge>, p: Key, x: Segment, child: Node, segments: seq<Segment>)
    requires EdgesLinked(nodes, p, edges, segments) && p + [x] !in nodes
    ensures EdgesLinked(nodes[p + [x] := child], p, edges, segments)
    ensures EdgesLinked(nodes[p + [x] := child], p, edges + [Edge(x, child)], segments + [x])
  {
    var more := nodes[p + [x] := child];
    forall i | 0 <= i < |segments|
      ensures p + [segments[i]] in more && more[p + [segments[i]]] == nodes[p + [segments[i]]]
    {
      assert p + [segments[i]] in nodes;
    }
  }

  lemma NodeGrown(nodes: map<Key, Node>, links: Links, ks: seq<Key>, p: Key, x: Segment, child: Node)
    requires NodeLinked(nodes, links, ks + [p], p) && p + [x] !in nodes && !HasKey(ks + [p], p + [x])
    ensures NodeLinked(nodes[p + [x] := child], WithEdge(links, x, child), ks + [p + [x]], p)
  {
    KindStep(ks, p, x, p);
    EdgesMembers(ks + [p], p, ParamEdges, x);
    EdgesMembers(ks + [p], p, WildEdges, x);
    EdgesGrown(nodes, links.params, p, x, child, EdgesAt(ks + [p], p, ParamEdges));
    EdgesGrown(nodes, links.wilds, p, x, child, EdgesAt(ks + [p], p, WildEdges));
    forall y ensures p + [y] == p + [x] <==> y == x {
      SnocInjective(p, y, p, x);
    }
  }

  lemma NodeBlank(nodes: map<Key, Node>, ks: seq<Key>, p: Key, x: Segment)
    requires !HasKey(ks + [p], p + [x])
    requires forall y :: p + [x] + [y] !in nodes
    ensures NodeLinked(nodes, NO_LINKS, ks + [p + [x]], p + [x])
  {
    KindStep(ks, p, x, p + [x]);
    forall kind ensures EdgesAt(ks + [p], p + [x], kind) == [] {
      var edges := EdgesAt(ks + [p], p + [x], kind);
      if edges != [] {
        assert edges[0] in edges;
        EdgesMembers(ks + [p], p + [x], kind, edges[0]);
        CreatedByPrefix(ks + [p], p + [x], p + [x] + [edges[0]]);
      }
    }
  }

  function GrownView(view: map<Key, Links>, p: Key, x: Segment, child: Node): map<Key, Links>
    requires p in view
  {
    view[p := WithEdge(view[p], x, child)][p + [x] := NO_LINKS]
  }

  lemma GrowNode(nodes: map<Key, Node>, view: map<Key, Links>, ks: seq<Key>, p: Key, x: Segment, child: Node, q: Key)
    requires p in view && q in view && NodeLinked(nodes, view[q], ks + [p], q)
    requires p + [x] !in nodes && q != p + [x] && !HasKey(ks + [p], p + [x])
    ensures NodeLinked(nodes[p + [x] := child], GrownView(view, p, x, child)[q], ks + [p + [x]], q)
  {
    if q == p {
      NodeGrown(nodes, view[p], ks, p, x, child);
    } else {
      NodeFramed(nodes, view[q], ks, q, p, x, child);
    }
  }

  lemma GrowLeaf(nodes: map<Key, Node>, view: map<Key, Links>, ks: seq<Key>, p: Key, x: Segment, child: Node)
    requires Linked(nodes, view, ks + [p]) && p + [x] !in nodes
    ensures NodeLinked(nodes[p + [x] := child], NO_LINKS, ks + [p + [x]], p + [x])
  {
    forall y ensures p + [x] + [y] !in nodes[p + [x] := child] {
      CreatedByPrefix(ks + [p], p + [x], p + [x] + [y]);
      assert !HasKey(ks + [p], p + [x]) && !HasKey(ks + [p], p + [x] + [y]);
    }
    NodeBlank(nodes[p + [x] := child], ks, p, x);
  }

  lemma GrowKeyed(nodes: map<Key, Node>, ks: seq<Key>, p: Key, x: Segment, child: Node)
    requires KeyedBy(nodes, ks + [p])
    ensures KeyedBy(nodes[p + [x] := child], ks + [p + [x]])
  {
    forall q ensures q in nodes[p + [x] := child] <==> q == [] || HasKey(ks + [p + [x]], q) {
      KeysStep(ks, p, x, q);
    }
  }

  lemma GrowAll(nodes: map<Key, Node>, view: map<Key, Links>, ks: seq<Key>, p: Key, x: Segment, child: Node)
    requires view.Keys == nodes.Keys && p in nodes && p + [x] !in nodes
    requires AllLinked(nodes, view, ks + [p]) && !HasKey(ks + [p], p + [x])
    requires NodeLinked(nodes[p + [x] := child], NO_LINKS, ks + [p + [x]], p + [x])
    ensures AllLinked(nodes[p + [x] := child], GrownView(view, p, x, child), ks + [p + [x]])
  {
    forall q | q in nodes
      ensures NodeLinked(nodes[p + [x] := child], GrownView(view, p, x, child)[q], ks + [p + [x]], q)
    {
      assert NodeLinked(nodes, view[q], ks + [p], q);
      GrowNode(nodes, view, ks, p, x, child, q);
    }
  }

  lemma GrowUnshared(nodes: map<Key, Node>, c: Key, child: Node)
    requires Unshared(nodes) && c !in nodes && child !in nodes.Values
    ensures Unshared(nodes[c := child])
  {
    forall q | q in nodes ensures nodes[q] != child {
      assert nodes[q] in nodes.Values;
    }
  }

  lemma UnkeyedEdge(nodes: map<Key, Node>, ks: seq<Key>, p: Key, x: Segment)
    requires KeyedBy(nodes, ks)
    ensures p + [x] in nodes <==> HasKey(ks, p + [x])
  {
  }

  /** A new child under p, linked from p alone, keeps the tree a tree. */
  lemma GrowLinked(nodes: map<Key, Node>, view: map<Key, Links>, ks: seq<Key>, p: Key, x: Segment, child: Node)
    requires Linked(nodes, view, ks + [p]) && p in nodes && p + [x] !in nodes
    requires child !in nodes.Values
    ensures Linked(nodes[p + [x] := child], GrownView(view, p, x, child), ks + [p + [x]])
  {
    UnkeyedEdge(nodes, ks + [p], p, x);
    GrowLeaf(nodes, view, ks, p, x, child);
    GrowAll(nodes, view, ks, p, x, child);
    GrowKeyed(nodes, ks, p, x, child);
    GrowUnshared(nodes, p + [x], child);
  }

  /** A node has an edge for x exactly when the tree has a node there, and it leads to that node. */
  lemma EdgeLookup(nodes: map<Key, Node>, view: map<Key, Links>, ks: seq<Key>, p: Key, x: Segment)
    requires Linked(nodes, view, ks) && p in nodes
    ensures HasEdge(view[p], x) <==> p + [x] in nodes
    ensures forall c :: LeadsTo(view[p], x, c) ==> p + [x] in nodes && c == nodes[p + [x]]
  {
    assert NodeLinked(nodes, view[p], ks, p);
    assert p + [x] in nodes <==> HasKey(ks, p + [x]);
    EdgesMembers(ks, p, ParamEdges, x);
    EdgesMembers(ks, p, WildEdges, x);
    EdgeSearch(nodes, p, view[p].params, EdgesAt(ks, p, ParamEdges), x);
    EdgeSearch(nodes, p, view[p].wilds, EdgesAt(ks, p, WildEdges), x);
  }

  lemma EdgeSearch(nodes: map<Key, Node>, p: Key, edges: seq<Edge>, segments: seq<Segment>, x: Segment)
    requires EdgesLinked(nodes, p, edges, segments)
    ensures x in segments <==> exists i :: 0 <= i < |edges| && edges[i].segment == x
    ensures forall c :: Edge(x, c) in edges ==> p + [x] in nodes && c == nodes[p + [x]]
  {
    if x in segments {
      var i :| 0 <= i < |segments| && segments[i] == x;
      assert edges[i].segment == x;
    }
  }

  lemma SameShape(nodes: map<Key, Node>, view: map<Key, Links>, ks: seq<Key>, more: seq<Key>)
    requires Linked(nodes, view, ks)
    requires forall q :: q == [] || HasKey(more, q) <==> q == [] || HasKey(ks, q)
    requires forall q, kind :: EdgesAt(more, q, kind) == EdgesAt(ks, q, kind)
    ensures Linked(nodes, view, more)
  {
    forall q ensures q in nodes <==> q == [] || HasKey(more, q) {
      assert q in nodes <==> q == [] || HasKey(ks, q);
    }
    forall q | q in nodes ensures NodeLinked(nodes, view[q], more, q) {
      assert NodeLinked(nodes, view[q], ks, q);
      assert EdgesAt(more, q, ParamEdges) == EdgesAt(ks, q, ParamEdges);
      assert EdgesAt(more, q, WildEdges) == EdgesAt(ks, q, WildEdges);
    }
  }

  lemma StartLinked(nodes: map<Key, Node>, view: map<Key, Links>, ks: seq<Key>)
    requires Linked(nodes, view, ks)
    ensures Linked(nodes, view, ks + [[]])
  {
    forall q ensures q == [] || HasKey(ks + [[]], q) <==> q == [] || HasKey(ks, q) {
      HasKeyGrows(ks, [], q);
    }
    assert (ks + [[]])[..|ks|] == ks;
    SameShape(nodes, view, ks, ks + [[]]);
  }

  lemma SettleLinked(nodes: map<Key, Node>, view: map<Key, Links>, ks: seq<Key>, k: Key)
    requires Linked(nodes, view, ks + [k]) && k in ks
    ensures Linked(nodes, view, ks)
  {
    forall q, kind
      ensures HasKey(ks + [k], q) == HasKey(ks, q)
      ensures EdgesAt(ks + [k], q, kind) == EdgesAt(ks, q, kind)
    {
      KeyAgain(ks, k, q, kind);
    }
    forall q ensures HasKey(ks + [k], q) == HasKey(ks, q) {
      KeyAgain(ks, k, q, ParamEdges);
    }
    SameShape(nodes, view, ks + [k], ks);
  }

  // ----- the registered routes, in order of first registration ----------------------------------

  function KeyOf(r: Route): Key {
    Normalize(r.segments)
  }

  function Keys(table: seq<Route>): (ks: seq<Key>)
    ensures |ks| == |table| && forall i :: 0 <= i < |table| ==> ks[i] == KeyOf(table[i])
  {
    seq(|table|, i requires 0 <= i < |table| => KeyOf(table[i]))
  }

  ghost predicate ValidRoute(r: Route) {
    ValidKey(KeyOf(r)) && r.methods != map[]
  }

  /** Routes with one pattern string have one list of segments. */
  ghost predicate Agrees(table: seq<Route>, r: Route) {
    forall i :: 0 <= i < |table| && table[i].pattern == r.pattern ==> table[i].segments == r.segments
  }

  ghost predicate ValidTable(table: seq<Route>) {
    (forall i :: 0 <= i < |table| ==> ValidRoute(table[i])) && DistinctPatterns(table)
  }

  ghost predicate DistinctPatterns(table: seq<Route>) {
    forall i, j :: 0 <= i < j < |table| ==> table[i].pattern != table[j].pattern
  }

  function RoutesAt(table: seq<Route>, p: Key): seq<Route> {
    var at := IndicesAt(Keys(table), p);
    seq(|at|, i requires 0 <= i < |at| => table[at[i]])
  }

  lemma NoRoutes(table: seq<Route>, q: Key)
    requires !HasKey(Keys(table), q)
    ensures RoutesAt(table, q) == []
  {
    NoIndices(Keys(table), q);
  }

  lemma {:induction false} NoIndices(ks: seq<Key>, q: Key)
    requires forall i :: 0 <= i < |ks| ==> ks[i] != q
    ensures IndicesAt(ks, q) == []
  {
    if ks != [] {
      NoIndices(ks[..|ks| - 1], q);
    }
  }

  lemma RegisterKeys(table: seq<Route>, r: Route)
    requires Agrees(table, r)
    ensures
      var i := PatternIndex(table, r.pattern);
      if i < |table| then Keys(Register(table, r)) == Keys(table) && Keys(table)[i] == KeyOf(r)
      else Keys(Register(table, r)) == Keys(table) + [KeyOf(r)]
  {
    var i, after := PatternIndex(table, r.pattern), Register(table, r);
    if i < |table| {
      assert table[i].segments == r.segments;
      assert forall j :: 0 <= j < |table| ==> after[j].segments == table[j].segments;
      assert Keys(after) == Keys(table);
    } else {
      assert forall j :: 0 <= j < |table| ==> after[j] == table[j];
      assert Keys(after) == Keys(table) + [KeyOf(r)];
    }
  }

  lemma MethodsMerge(a: map<string, Handler>, b: map<string, Handler>)
    requires a != map[]
    ensures a + b != map[]
  {
    var m :| m in a;
    assert m in (a + b).Keys;
  }

  lemma RegisterKeepsTable(table: seq<Route>, r: Route)
    requires ValidTable(table) && ValidRoute(r) && Agrees(table, r)
    ensures ValidTable(Register(table, r))
  {
    var i := PatternIndex(table, r.pattern);
    if i < |table| {
      MethodsMerge(table[i].methods, r.methods);
    }
  }

  lemma IndicesOnce(ks: seq<Key>, p: Key, i: nat, j: nat)
    requires i < |IndicesAt(ks, p)| && j < |IndicesAt(ks, p)|
    ensures IndicesAt(ks, p)[i] == IndicesAt(ks, p)[j] ==> i == j
  {
    hide IndicesAt;
  }

  lemma RoutesAtUpdate(table: seq<Route>, e: nat, r: Route, q: Key, i: nat)
    requires e < |table| && KeyOf(r) == KeyOf(table[e])
    requires i < |IndicesAt(Keys(table), KeyOf(r))| && IndicesAt(Keys(table), KeyOf(r))[i] == e
    ensures RoutesAt(table[e := r], q)
            == if q == KeyOf(r) then RoutesAt(table, q)[i := r] else RoutesAt(table, q)
  {
    hide KeyOf, IndicesAt;
    assert Keys(table[e := r]) == Keys(table);
    var at := IndicesAt(Keys(table), q);
    forall j | 0 <= j < |at| ensures at[j] == e <==> q == KeyOf(r) && j == i {
      if q == KeyOf(r) {
        IndicesOnce(Keys(table), q, i, j);
      }
    }
  }

  lemma RoutesAtAppend(table: seq<Route>, r: Route, q: Key)
    ensures RoutesAt(table + [r], q) == RoutesAt(table, q) + if KeyOf(r) == q then [r] else []
  {
    var ks := Keys(table + [r]);
    assert ks[..|table|] == Keys(table);
  }

  lemma ValuesGrow(nodes: map<Key, Node>, c: Key, child: Node)
    requires c !in nodes
    ensures nodes[c := child].Values == nodes.Values + {child}
  {
    var more := nodes[c := child];
    forall n | n in nodes.Values + {child} ensures n in more.Values {
      if n == child {
        assert more[c] == child;
      } else {
        var q :| q in nodes && nodes[q] == n;
        assert more[q] == n;
      }
    }
  }

  lemma RegisterLinked(nodes: map<Key, Node>, view: map<Key, Links>, table: seq<Route>, r: Route)
    requires Linked(nodes, view, Keys(table) + [KeyOf(r)]) && Agrees(table, r)
    ensures Linked(nodes, view, Keys(Register(table, r)))
  {
    RegisterKeys(table, r);
    if PatternIndex(table, r.pattern) < |table| {
      SettleLinked(nodes, view, Keys(table), KeyOf(r));
    }
  }

  lemma PatternIndexUnique(table: seq<Route>, pattern: string, e: nat)
    requires e < |table| && table[e].pattern == pattern
    requires forall j :: 0 <= j < e ==> table[j].pattern != pattern
    ensures PatternIndex(table, pattern) == e
  {
  }

  lemma RegisterOld(table: seq<Route>, r: Route, q: Key)
    requires DistinctPatterns(table) && Agrees(table, r) && PatternIndex(table, r.pattern) < |table|
    ensures RoutesAt(Register(table, r), q)
            == if q == KeyOf(r) then Register(RoutesAt(table, q), r) else RoutesAt(table, q)
  {
    var e := PatternIndex(table, r.pattern);
    var merged := table[e].(methods := table[e].methods + r.methods);
    assert table[e].segments == r.segments;
    var i := PlaceOf(Keys(table), e);
    RoutesAtUpdate(table, e, merged, q, i);
    LocalRegister(table, r, e, i);
  }

  lemma PlaceOf(ks: seq<Key>, e: nat) returns (i: nat)
    requires e < |ks|
    ensures i < |IndicesAt(ks, ks[e])| && IndicesAt(ks, ks[e])[i] == e
  {
    assert e in IndicesAt(ks, ks[e]);
    i :| i < |IndicesAt(ks, ks[e])| && IndicesAt(ks, ks[e])[i] == e;
  }

  lemma LocalRegister(table: seq<Route>, r: Route, e: nat, i: nat)
    requires DistinctPatterns(table) && e < |table| && table[e].pattern == r.pattern
    requires i < |IndicesAt(Keys(table), KeyOf(r))| && IndicesAt(Keys(table), KeyOf(r))[i] == e
    ensures Register(RoutesAt(table, KeyOf(r)), r)
            == RoutesAt(table, KeyOf(r))[i := table[e].(methods := table[e].methods + r.methods)]
  {
    LocalPattern(table, r.pattern, KeyOf(r), e, i);
    assert RoutesAt(table, KeyOf(r))[i] == table[e];
  }

  lemma LocalPattern(table: seq<Route>, pattern: string, k: Key, e: nat, i: nat)
    requires DistinctPatterns(table) && e < |table| && table[e].pattern == pattern
    requires i < |IndicesAt(Keys(table), k)| && IndicesAt(Keys(table), k)[i] == e
    ensures PatternIndex(RoutesAt(table, k), pattern) == i
  {
    var at, local := IndicesAt(Keys(table), k), RoutesAt(table, k);
    forall j | 0 <= j < i ensures local[j].pattern != pattern {
      assert at[j] < at[i];
    }
    PatternIndexUnique(local, pattern, i);
  }

  lemma RegisterNew(table: seq<Route>, r: Route, q: Key)
    requires PatternIndex(table, r.pattern) == |table|
    ensures RoutesAt(Register(table, r), q)
            == if q == KeyOf(r) then Register(RoutesAt(table, q), r) else RoutesAt(table, q)
  {
    RoutesAtAppend(table, r, q);
    PatternNowhere(RoutesAt(table, q), r.pattern);
  }

  lemma PatternNowhere(rs: seq<Route>, pattern: string)
    requires forall i :: 0 <= i < |rs| ==> rs[i].pattern != pattern
    ensures PatternIndex(rs, pattern) == |rs|
  {
  }

  /** Registering in the whole table is registering at the node of the route's key. */
  lemma RegisterEverywhere(table: seq<Route>, r: Route)
    requires DistinctPatterns(table) && Agrees(table, r)
    ensures forall q :: RoutesAt(Register(table, r), q)
                        == if q == KeyOf(r) then Register(RoutesAt(table, q), r) else RoutesAt(table, q)
  {
    forall q ensures RoutesAt(Register(table, r), q)
                     == if q == KeyOf(r) then Register(RoutesAt(table, q), r) else RoutesAt(table, q)
    {
      if PatternIndex(table, r.pattern) < |table| {
        RegisterOld(table, r, q);
      } else {
        RegisterNew(table, r, q);
      }
    }
  }

  lemma NormalizeStep(segments: seq<Segment>, i: nat)
    requires i < |segments|
    ensures Normalize(segments[..i + 1])
            == Normalize(segments[..i]) + if segments[i] == Lit("") then [] else [segments[i]]
  {
    assert segments[..i + 1][..i] == segments[..i];
  }

  // ----- the entries stand for the registered routes ----------------------------------------------

  ghost predicate Reflects(entries: map<Key, seq<Entry>>, tables: set<MethodTable>, table: seq<Route>)
    reads tables
  {
    forall p {:trigger RoutesAt(table, p)} :: p in entries ==>
      TablesOf(entries[p]) <= tables && Contents(entries[p]) == RoutesAt(table, p)
  }

  lemma ReflectsBlank(entries: map<Key, seq<Entry>>, tables: set<MethodTable>, table: seq<Route>, q: Key)
    requires Reflects(entries, tables, table) && !HasKey(Keys(table), q)
    ensures Reflects(entries[q := []], tables, table)
  {
    NoRoutes(table, q);
    assert Contents([]) == [];
    var more := entries[q := []];
    forall p | p in more ensures TablesOf(more[p]) <= tables && Contents(more[p]) == RoutesAt(table, p) {
      if p != q {
        assert more[p] == entries[p] && Contents(entries[p]) == RoutesAt(table, p);
      } else {
        assert TablesOf(more[p]) == {};
      }
    }
  }

  /** Storing at the node of the route's key is registering in the whole table. */
  lemma ReflectsStore(before: map<Key, seq<Entry>>, tables: set<MethodTable>, p: Key, after: seq<Entry>,
                      table: seq<Route>, route: Route)
    requires DistinctPatterns(table) && Agrees(table, route) && p == KeyOf(route) && p in before
    requires forall q :: q in before && q != p ==>
               TablesOf(before[q]) <= tables && Contents(before[q]) == RoutesAt(table, q)
    requires TablesOf(after) <= tables && Contents(after) == Register(RoutesAt(table, p), route)
    ensures Reflects(before[p := after], tables, Register(table, route))
  {
    hide RoutesAt, Register, KeyOf, Agrees, DistinctPatterns;
    RegisterEverywhere(table, route);
  }

  lemma TablesApart(entries: map<Key, seq<Entry>>, tables: set<MethodTable>, p: Key, q: Key)
    requires Unaliased(entries, tables) && p in entries && q in entries
    ensures DistinctTables(entries[p]) && TablesOf(entries[p]) <= tables && TablesOf(entries[q]) <= tables
    ensures p != q ==> TablesOf(entries[p]) !! TablesOf(entries[q])
  {
  }

  lemma UnaliasedBlank(entries: map<Key, seq<Entry>>, tables: set<MethodTable>, q: Key)
    requires Unaliased(entries, tables)
    ensures Unaliased(entries[q := []], tables)
  {
  }

  lemma UnaliasedStore(before: map<Key, seq<Entry>>, tables: set<MethodTable>, p: Key, entry: Entry, after: seq<Entry>)
    requires Unaliased(before, tables) && p in before && entry.table !in tables
    requires after == before[p] || after == before[p] + [entry]
    ensures Unaliased(before[p := after], tables + {entry.table})
  {
    assert TablesOf(after) <= TablesOf(before[p]) + {entry.table};
    forall i | 0 <= i < |before[p]| ensures before[p][i].table != entry.table {
      assert before[p][i].table in TablesOf(before[p]);
    }
  }

  // ----- matches as values ---------------------------------------------------------------------

  ghost function Resolve(table: seq<Route>, hits: seq<Hit>): (r: seq<RouteMatch>)
    ensures |r| == |hits|
    ensures forall i :: 0 <= i < |hits| && hits[i].entry < |table| ==>
              r[i] == RouteMatch(table[hits[i].entry].methods, hits[i].params)
  {
    seq(|hits|, i requires 0 <= i < |hits| =>
      if hits[i].entry < |table| then RouteMatch(table[hits[i].entry].methods, hits[i].params)
      else RouteMatch(map[], map[]))
  }

  lemma ResolveAppend(table: seq<Route>, a: seq<Hit>, b: seq<Hit>)
    ensures Resolve(table, a + b) == Resolve(table, a) + Resolve(table, b)
  {
  }

  lemma EndResolve(table: seq<Route>, p: Key, params: map<string, string>, matches: seq<RouteMatch>)
    requires |matches| == |RoutesAt(table, p)|
    requires forall i :: 0 <= i < |matches| ==> matches[i] == RouteMatch(RoutesAt(table, p)[i].methods, params)
    ensures matches == Resolve(table, EndHits(Keys(table), p, params))
  {
    var at, r := IndicesAt(Keys(table), p), Resolve(table, EndHits(Keys(table), p, params));
    forall i | 0 <= i < |matches| ensures matches[i] == r[i] {
      assert at[i] < |table|;
    }
  }

  lemma TableKeysValid(table: seq<Route>)
    requires ValidTable(table)
    ensures AllValid(Keys(table))
  {
  }

  /** What a linear scan over the table yields for a path, in priority order. */
  function ScanMatches(table: seq<Route>, xs: seq<string>): (r: seq<RouteMatch>)
    ensures |r| == |LinearScan(Keys(table), xs)|
  {
    var found := LinearScan(Keys(table), xs);
    seq(|found|, i requires 0 <= i < |found| =>
      assert found[i] in found;
      RouteMatch(table[found[i]].methods, Bindings(Keys(table)[found[i]], xs)))
  }
}
