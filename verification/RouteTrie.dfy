/** The segment trie: registering a route, and collecting the routes that match a path. */
module RouteTrie {
  import opened Text
  import opened RoutePattern
  import opened RoutePriority
  import opened RouteShape
  import opened RouteNodes

  class Trie {
    const root: Node
    // The node of every prefix of a key, what each node links to and stores, all method tables, and the
    // routes registered so far.
    ghost var nodes: map<Key, Node>
    ghost var view: map<Key, Links>
    ghost var entries: map<Key, seq<Entry>>
    ghost var tables: set<MethodTable>
    ghost var table: seq<Route>

    ghost predicate Synced()
      reads this`nodes, this`view
      reads nodes.Values`literalChildren, nodes.Values`paramChildren, nodes.Values`wildcardChildren
    {
      && [] in nodes && nodes[[]] == root && view.Keys == nodes.Keys
      && (forall p :: p in nodes ==> nodes[p].View() == view[p])
    }

    /** The nodes store the recorded entries, no two of which share a method table, and the entries'
        contents are the registered routes. */
    ghost predicate Held()
      reads this`nodes, this`entries, this`tables, nodes.Values`routes
    {
      && entries.Keys == nodes.Keys && Unaliased(entries, tables)
      && forall p :: p in nodes ==> nodes[p].routes == entries[p]
    }

    ghost predicate Stored()
      reads this, nodes.Values, tables
    {
      Held() && Reflects(entries, tables, table)
    }

    ghost predicate Valid()
      reads this, nodes.Values, tables
    {
      ValidTable(table) && Synced() && Linked(nodes, view, Keys(table)) && Stored()
    }

    constructor ()
      ensures Valid() && table == [] && fresh(nodes.Values) && tables == {}
    {
      root := new Node();
      table := [];
      tables := {};
      new;
      Start();
    }

    lemma StartReflects(none: seq<Route>)
      requires none == []
      ensures Reflects(map[[] := []], {}, none)
    {
      var nowhere: map<Key, seq<Entry>> := map[];
      ReflectsBlank(nowhere, {}, none, []);
      assert nowhere[[] := []] == map[[] := []];
    }

    ghost method Start()
      requires root.IsBlank() && table == [] && tables == {}
      modifies this`nodes, this`view, this`entries
      ensures Valid() && nodes.Values == {root}
    {
      nodes := map[[] := root];
      view := map[[] := NO_LINKS];
      entries := map[[] := []];
      assert Keys(table) == [];
      hide Reflects;
      StartReflects(table);
    }

    /** The node of p has been asked for its child x; everything else is as recorded. */
    ghost predicate Asked(node: Node, p: Key, x: Segment, child: Node)
      reads this, nodes.Values, node, child
    {
      && p in nodes && node == nodes[p]
      && [] in nodes && nodes[[]] == root && view.Keys == nodes.Keys
      && (forall q :: q in nodes && q != p ==> nodes[q].View() == view[q])
      && (HasEdge(view[p], x) ==> node.View() == view[p] && LeadsTo(view[p], x, child))
      && (!HasEdge(view[p], x) ==>
            child !in nodes.Values && child.IsBlank() && node.View() == WithEdge(view[p], x, child))
    }

    lemma RecordedViews(node: Node, p: Key, x: Segment, child: Node)
      requires Asked(node, p, x, child) && !HasEdge(view[p], x) && p + [x] !in nodes
      ensures
        var more := nodes[p + [x] := child];
        var views := GrownView(view, p, x, child);
        && views.Keys == more.Keys && p in view && [] in more && more[[]] == root
        && forall q :: q in more ==> more[q].View() == views[q]
    {
      hide WithEdge, LeadsTo;
    }

    lemma RecordedEntries(node: Node, p: Key, x: Segment, child: Node)
      requires Asked(node, p, x, child) && !HasEdge(view[p], x) && p + [x] !in nodes && Held()
      ensures
        var more, stored := nodes[p + [x] := child], entries[p + [x] := []];
        && stored.Keys == more.Keys && Unaliased(stored, tables)
        && forall q :: q in more ==> more[q].routes == stored[q]
    {
      UnaliasedBlank(entries, tables, p + [x]);
      hide WithEdge, LeadsTo, Unaliased;
    }

    ghost method Record(node: Node, p: Key, x: Segment, child: Node)
      requires Asked(node, p, x, child) && !HasEdge(view[p], x) && p + [x] !in nodes && Held()
      modifies this`nodes, this`view, this`entries
      ensures nodes == old(nodes)[p + [x] := child] && view == GrownView(old(view), p, x, child)
      ensures entries == old(entries)[p + [x] := []]
      ensures Synced() && Held() && nodes.Values == old(nodes.Values) + {child}
    {
      hide Asked, Unaliased, GrownView, WithEdge, LeadsTo, HasEdge;
      ValuesGrow(nodes, p + [x], child);
      RecordedViews(node, p, x, child);
      RecordedEntries(node, p, x, child);
      view := GrownView(view, p, x, child);
      nodes := nodes[p + [x] := child];
      entries := entries[p + [x] := []];
    }

    /** The edge was there: the child is the node it leads to. */
    lemma Followed(node: Node, p: Key, x: Segment, child: Node)
      requires Asked(node, p, x, child) && Linked(nodes, view, Keys(table) + [p]) && p + [x] in nodes
      ensures child == nodes[p + [x]] && Synced() && Linked(nodes, view, Keys(table) + [p + [x]])
      ensures nodes.Values == nodes.Values + {child}
    {
      hide Created, EdgesAt, AllLinked, Unshared;
      EdgeLookup(nodes, view, Keys(table) + [p], p, x);
      FollowLinked(nodes, view, Keys(table), p, x);
      assert child in nodes.Values;
    }

    /** The edge was missing: the child is new to the tree and to the table. */
    lemma Fresh(node: Node, p: Key, x: Segment, child: Node)
      requires Asked(node, p, x, child) && Linked(nodes, view, Keys(table) + [p]) && p + [x] !in nodes
      ensures !HasEdge(view[p], x) && !HasKey(Keys(table), p + [x])
      ensures Linked(nodes[p + [x] := child], GrownView(view, p, x, child), Keys(table) + [p + [x]])
    {
      hide Created, EdgesAt, AllLinked, Unshared, LeadsTo;
      EdgeLookup(nodes, view, Keys(table) + [p], p, x);
      HasKeyGrows(Keys(table), p, p + [x]);
      assert !HasKey(Keys(table) + [p], p + [x]);
      GrowLinked(nodes, view, Keys(table), p, x, child);
    }

    ghost method Settle(node: Node, p: Key, x: Segment, child: Node)
      requires Asked(node, p, x, child) && Stored() && Linked(nodes, view, Keys(table) + [p])
      modifies this`nodes, this`view, this`entries
      ensures p + [x] in nodes && child == nodes[p + [x]]
      ensures Synced() && Stored() && Linked(nodes, view, Keys(table) + [p + [x]])
      ensures nodes.Values == old(nodes.Values) + {child}
    {
      hide HasKey, Linked, HasEdge, Unaliased, Reflects, Synced, Asked, Held;
      if p + [x] in nodes {
        Followed(node, p, x, child);
      } else {
        Fresh(node, p, x, child);
        ReflectsBlank(entries, tables, table, p + [x]);
        Record(node, p, x, child);
      }
    }

    method Ask(node: Node, ghost p: Key, x: Segment) returns (child: Node)
      requires p in nodes && node == nodes[p]
      requires Synced() && Stored() && Linked(nodes, view, Keys(table) + [p])
      modifies nodes.Values
      ensures Asked(node, p, x, child) && Stored()
      ensures child in old(nodes.Values) || fresh(child)
    {
      hide Held, Reflects, EdgesAt, Created, RoutesAt, AllLinked, HasEdge, LeadsTo, WithEdge, KeyedBy;
      child := node.Descend(x);
      assert forall q :: q in nodes && q != p ==> nodes[q] != node;
      EdgeLookup(nodes, view, Keys(table) + [p], p, x);
    }

    /** One step of insert: the child for a segment, created when it is missing. */
    method Child(node: Node, ghost p: Key, x: Segment) returns (child: Node)
      requires p in nodes && node == nodes[p]
      requires Synced() && Stored() && Linked(nodes, view, Keys(table) + [p])
      modifies this`nodes, this`view, this`entries, nodes.Values
      ensures p + [x] in nodes && child == nodes[p + [x]]
      ensures Synced() && Stored() && Linked(nodes, view, Keys(table) + [p + [x]])
      ensures nodes.Values == old(nodes.Values) + {child}
      ensures child in old(nodes.Values) || fresh(child)
    {
      hide Unaliased, Reflects, Asked, Held, Synced, Linked, Stored;
      child := Ask(node, p, x);
      Settle(node, p, x, child);
    }

    /** The walk of insert: one step for every segment that is not an empty literal. */
    method Locate(segments: seq<Segment>) returns (node: Node, ghost p: Key)
      requires Valid()
      modifies this`nodes, this`view, this`entries, nodes.Values
      ensures p == Normalize(segments) && p in nodes && node == nodes[p]
      ensures Synced() && Stored() && Linked(nodes, view, Keys(table) + [p])
      ensures fresh(nodes.Values - old(nodes.Values))
    {
      node := root;
      p := [];
      StartLinked(nodes, view, Keys(table));
      for i := 0 to |segments|
        invariant p == Normalize(segments[..i]) && p in nodes && node == nodes[p]
        invariant Synced() && Stored() && Linked(nodes, view, Keys(table) + [p])
        invariant fresh(nodes.Values - old(nodes.Values))
      {
        NormalizeStep(segments, i);
        if segments[i] != Lit("") {
          node := Child(node, p, segments[i]);
          p := p + [segments[i]];
        }
      }
      assert segments[..|segments|] == segments;
    }

    /** The route comes with a method table of its own. */
    method Insert(entry: Entry, ghost route: Route)
      requires Valid() && ValidRoute(route) && Agrees(table, route)
      requires entry.table !in tables && Contents([entry])[0] == route
      modifies this`nodes, this`view, this`entries, this`tables, this`table, nodes.Values, tables
      ensures Valid() && table == Register(old(table), route)
      ensures fresh(nodes.Values - old(nodes.Values)) && tables == old(tables) + {entry.table}
    {
      hide Register, RoutesAt, ValidRoute, Normalize, Unaliased, Reflects, AllLinked, KeyedBy, DistinctPatterns, Agrees;
      ghost var p: Key;
      var node: Node;
      node, p := Locate(entry.segments);
      Store(node, p, entry, route);
      Admit(route);
    }

    /** The end of insert, at the node of the route's key. */
    method Store(node: Node, ghost p: Key, entry: Entry, ghost route: Route)
      requires Synced() && Stored() && DistinctPatterns(table) && Agrees(table, route) && Unshared(nodes)
      requires p == KeyOf(route) && p in nodes && node == nodes[p]
      requires entry.table !in tables && Contents([entry])[0] == route
      modifies this`entries, this`tables, node`routes, tables
      ensures Synced() && Held() && Reflects(entries, tables, Register(table, route))
      ensures tables == old(tables) + {entry.table}
    {
      hide Synced, RoutesAt, Register, KeyOf, Agrees, DistinctPatterns, DistinctTables, Unaliased, TablesOf;
      ghost var before := entries;
      TablesApart(entries, tables, p, p);
      node.StoreRoute(entry);
      forall q | q in before && q != p
        ensures TablesOf(before[q]) <= tables && Contents(before[q]) == RoutesAt(table, q)
      {
        TablesApart(before, tables, p, q);
        assert Contents(before[q]) == old(Contents(before[q])) == RoutesAt(table, q);
      }
      Enter(node, p, entry);
      TablesApart(entries, tables, p, p);
      ReflectsStore(before, tables, p, node.routes, table, route);
    }

    ghost method Enter(node: Node, p: Key, entry: Entry)
      requires entries.Keys == nodes.Keys && Unaliased(entries, tables) && entry.table !in tables
      requires p in nodes && node == nodes[p] && (node.routes == entries[p] || node.routes == entries[p] + [entry])
      requires forall q :: q in nodes && q != p ==> nodes[q].routes == entries[q]
      modifies this`entries, this`tables
      ensures entries == old(entries)[p := node.routes] && tables == old(tables) + {entry.table} && Held()
    {
      UnaliasedStore(entries, tables, p, entry, node.routes);
      hide Unaliased;
      entries := entries[p := node.routes];
      tables := tables + {entry.table};
    }

    ghost method Admit(route: Route)
      requires ValidTable(table) && ValidRoute(route) && Agrees(table, route)
      requires Synced() && Held() && Linked(nodes, view, Keys(table) + [KeyOf(route)])
      requires Reflects(entries, tables, Register(table, route))
      modifies this`table
      ensures Valid() && table == Register(old(table), route)
    {
      hide Register, ValidRoute, KeyOf, Unaliased, Reflects, AllLinked, KeyedBy;
      RegisterLinked(nodes, view, table, route);
      RegisterKeepsTable(table, route);
      table := Register(table, route);
    }

    lemma NothingBelowWildcard(p: Key, name: string, x: Segment)
      requires AllValid(Keys(table))
      ensures !HasKey(Keys(table), p + [Wild(name)] + [x])
    {
      var q, ks := p + [Wild(name)] + [x], Keys(table);
      forall i | 0 <= i < |ks| ensures !(q <= ks[i]) {
        WildcardIsLast(ks[i], p, name, x);
      }
    }

    /** A wildcard edge always leads to a node without children. */
    lemma WildcardsAreLeaves(p: Key, name: string)
      requires Valid() && p + [Wild(name)] in nodes
      ensures nodes[p + [Wild(name)]].View() == NO_LINKS
    {
      var q, ks := p + [Wild(name)], Keys(table);
      TableKeysValid(table);
      assert NodeLinked(nodes, view[q], ks, q);
      forall x: Segment ensures q + [x] !in nodes {
        NothingBelowWildcard(p, name, x);
        UnkeyedEdge(nodes, ks, q, x);
      }
      assert view[q].literals == map[] by {
        forall l ensures l !in view[q].literals {
          assert q + [Lit(l)] !in nodes;
        }
      }
      assert |view[q].params| > 0 ==> q + [EdgesAt(ks, q, ParamEdges)[0]] in nodes;
      assert |view[q].wilds| > 0 ==> q + [EdgesAt(ks, q, WildEdges)[0]] in nodes;
    }

    // ----- matching ----------------------------------------------------------------------------

    lemma ChildBelow(p: Key, x: Segment)
      requires Valid() && p in nodes && p + [x] in nodes
      ensures |p| < |p + [x]| <= Height(Keys(table))
    {
      HasKeyHeight(Keys(table), p + [x]);
    }

    /** The loop of matchSegments over the parameter or the wildcard edges. */
    method MatchEdges(edges: seq<Edge>, kind: EdgeKind, ghost p: Key, xs: seq<string>, index: nat,
                      params: map<string, string>, found: seq<RouteMatch>,
                      ghost hits0: seq<Hit>, ghost steps: set<Option<Segment>>)
      returns (matches: seq<RouteMatch>, ghost hits: seq<Hit>)
      requires Valid() && p in nodes && index <= |xs| && (kind.ParamEdges? ==> index < |xs|)
      requires EdgesLinked(nodes, p, edges, EdgesAt(Keys(table), p, kind))
      requires PartList(Keys(table), p, xs[index..], params, hits0, steps) && found == Resolve(table, hits0)
      requires forall s :: s in steps ==> KindBelow(kind, s)
      ensures
        PartList(Keys(table), p, xs[index..], params, hits,
                 steps + EdgeSteps(EdgesAt(Keys(table), p, kind), |EdgesAt(Keys(table), p, kind)|))
      ensures matches == Resolve(table, hits)
      decreases Height(Keys(table)) - |p|, 0
    {
      hide Matches, Linked, Synced, Stored, ValidTable;
      ghost var ks := Keys(table);
      ghost var segments := EdgesAt(ks, p, kind);
      matches, hits := found, hits0;
      for i := 0 to |edges|
        invariant PartList(ks, p, xs[index..], params, hits, steps + EdgeSteps(segments, i))
        invariant matches == Resolve(table, hits)
      {
        NextEdge(ks, p, kind, steps, i);
        var x := edges[i].segment;
        assert x == segments[i];
        ChildBelow(p, x);
        var rest := xs[index..];
        var next := if x.Wild? then |xs| else index + 1;
        assert xs[next..] == RestAfter(x, rest);
        var value := if x.Wild? then Join(rest, "/") else rest[0];
        var more, below := MatchSegments(edges[i].child, p + [x], xs, next, params[x.name := value]);
        TableKeysValid(table);
        AppendEdge(ks, p, rest, params, hits, steps + EdgeSteps(segments, i), x, below);
        ResolveAppend(table, hits, below);
        matches, hits := matches + more, hits + below;
        assert steps + EdgeSteps(segments, i + 1) == steps + EdgeSteps(segments, i) + {Some(x)};
      }
    }

    /** The literal branch of matchSegments. */
    method MatchLiteral(node: Node, ghost p: Key, xs: seq<string>, index: nat, params: map<string, string>)
      returns (matches: seq<RouteMatch>, ghost hits: seq<Hit>)
      requires Valid() && p in nodes && node == nodes[p] && index < |xs|
      ensures PartList(Keys(table), p, xs[index..], params, hits, {Some(Lit(xs[index]))})
      ensures matches == Resolve(table, hits)
      decreases Height(Keys(table)) - |p|, 0
    {
      hide Matches, ValidTable, MatchList, PartList;
      ghost var ks := Keys(table);
      ghost var rest := xs[index..];
      var segment := xs[index];
      EdgeLookup(nodes, view, ks, p, Lit(segment));
      UnkeyedEdge(nodes, ks, p, Lit(segment));
      matches, hits := [], [];
      if segment in node.literalChildren {
        assert LeadsTo(view[p], Lit(segment), node.literalChildren[segment]);
        ChildBelow(p, Lit(segment));
        matches, hits := MatchSegments(node.literalChildren[segment], p + [Lit(segment)], xs, index + 1, params);
        TableKeysValid(table);
        assert xs[index + 1..] == rest[1..];
        AppendEdge(ks, p, rest, params, [], {}, Lit(segment), hits);
        assert [] + hits == hits && {} + {Some(Lit(segment))} == {Some(Lit(segment))};
      } else {
        SkipEdge(ks, p, rest, params, hits, {}, Lit(segment));
        assert {} + {Some(Lit(segment))} == {Some(Lit(segment))};
      }
    }

    method MatchSegments(node: Node, ghost p: Key, xs: seq<string>, index: nat, params: map<string, string>)
      returns (matches: seq<RouteMatch>, ghost hits: seq<Hit>)
      requires Valid() && p in nodes && node == nodes[p] && index <= |xs|
      ensures MatchList(Keys(table), p, xs[index..], params, hits)
      ensures matches == Resolve(table, hits)
      decreases Height(Keys(table)) - |p|, 1
    {
      ghost var ks := Keys(table);
      ghost var steps: set<Option<Segment>>;
      assert NodeLinked(nodes, view[p], ks, p);
      if index == |xs| {
        assert xs[index..] == [];
        matches := node.TerminalMatches(params);
        hits := EndHits(ks, p, params);
        EndResolve(table, p, params, matches);
        EndedHere(ks, p, params);
        steps := {None};
      } else {
        matches, hits := MatchLiteral(node, p, xs, index, params);
        steps := {Some(Lit(xs[index]))};
        matches, hits := MatchEdges(node.paramChildren, ParamEdges, p, xs, index, params, matches, hits, steps);
        steps := steps + EdgeSteps(EdgesAt(ks, p, ParamEdges), |EdgesAt(ks, p, ParamEdges)|);
        ParamStepsBelow(ks, p);
      }
      matches, hits := MatchEdges(node.wildcardChildren, WildEdges, p, xs, index, params, matches, hits, steps);
      steps := steps + EdgeSteps(EdgesAt(ks, p, WildEdges), |EdgesAt(ks, p, WildEdges)|);
      Complete(ks, p, xs[index..], params, hits, steps);
    }

    /** The matches of a path are, in order, those of the linear scan over the registered patterns. */
    method Match(path: string) returns (matches: seq<RouteMatch>)
      requires Valid()
      ensures matches == ScanMatches(table, SplitPath(path))
    {
      ghost var hits: seq<Hit>;
      var xs := SplitPath(path);
      matches, hits := MatchSegments(root, [], xs, 0, map[]);
      assert xs[0..] == xs;
      RootListIsLinearScan(Keys(table), xs, hits);
    }
  }
}
