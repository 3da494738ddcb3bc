/**
 The graph types and their merge.  The three graph types of the source differ only in
 whether nodes and edges carry the uids of the graph database, so they are one class here.
 */
module Graphs {
  import opened Wrappers
  import opened Folds
  import opened Properties

  datatype Node = Node(nodeKey: string, nodeType: string, uid: Option<nat>, properties: PropertyMap)

  datatype Edge = Edge(fromNodeKey: string, toNodeKey: string, edgeName: string, uids: Option<(nat, nat)>)

  type Nodes = map<string, Node>

  predicate KeyedByOwnKey(nodes: Nodes) {
    forall k | k in nodes :: nodes[k].nodeKey == k
  }

  // Edge lists, by source node key.
  type EdgeLists = map<string, seq<Edge>>

  function MergeNode(a: Node, b: Node): Node {
    a.(properties := MergeProperties(a.properties, b.properties))
  }

  function MergeNodes(a: Nodes, b: Nodes): Nodes {
    map k | k in a.Keys + b.Keys ::
      if k in a && k in b then MergeNode(a[k], b[k]) else if k in a then a[k] else b[k]
  }

  // Nodes of both sides keep the key, type and uid of the left one; the others stay as they
  // are, and there are no further ones.
  ghost predicate MergedNodes(a: Nodes, b: Nodes, merged: Nodes) {
    && merged.Keys == a.Keys + b.Keys
    && (forall k | k in b && k !in a :: merged[k] == b[k])
    && (forall k | k in a && k !in b :: merged[k] == a[k])
    && (forall k | k in a && k in b ::
          && merged[k].nodeKey == a[k].nodeKey && merged[k].nodeType == a[k].nodeType && merged[k].uid == a[k].uid
          && merged[k].properties == MergeProperties(a[k].properties, b[k].properties))
  }

  lemma MergeNodesAre(a: Nodes, b: Nodes)
    ensures MergedNodes(a, b, MergeNodes(a, b))
  {
  }

  function WithNode(nodes: Nodes, node: Node): Nodes {
    MergeNodes(nodes, map[node.nodeKey := node])
  }

  lemma MergeNodesStep(a: Nodes, b: Nodes, k: string, node: Node)
    requires k !in b
    ensures MergeNodes(a, b[k := node]) == MergeNodes(a, b)[k := if k in a then MergeNode(a[k], node) else node]
  {
  }

  // ---------------------------------------------------------------- edges as a bag

  ghost function Bag(lists: EdgeLists): multiset<Edge> {
    if lists == map[] then multiset{} else
    var k :| k in lists;
    multiset(lists[k]) + Bag(lists - {k})
  }

  // The bag does not depend on the order in which the lists are added up.
  lemma {:induction false} BagRemove(lists: EdgeLists, k: string)
    requires k in lists
    ensures Bag(lists) == multiset(lists[k]) + Bag(lists - {k})
    decreases |lists|
  {
    var j :| j in lists && Bag(lists) == multiset(lists[j]) + Bag(lists - {j});
    if j != k {
      SmallerMap(lists, j);
      SmallerMap(lists, k);
      BagRemove(lists - {j}, k);
      BagRemove(lists - {k}, j);
      assert lists - {j} - {k} == lists - {k} - {j};
    }
  }

  lemma SmallerMap<V>(m: map<string, V>, k: string)
    requires k in m
    ensures |m - {k}| < |m|
  {
    assert (m - {k}).Keys == m.Keys - {k};
    assert |(m - {k}).Keys| == |m.Keys| - 1;
  }

  lemma {:induction false} BagMembers(lists: EdgeLists, e: Edge)
    ensures e in Bag(lists) <==> exists k :: k in lists && e in lists[k]
    decreases |lists|
  {
    if lists != map[] {
      var j :| j in lists && Bag(lists) == multiset(lists[j]) + Bag(lists - {j});
      SmallerMap(lists, j);
      BagMembers(lists - {j}, e);
      assert forall k :: k in lists && e in lists[k] ==> k == j || k in lists - {j};
    }
  }

  function Pushed(lists: EdgeLists, e: Edge): EdgeLists {
    lists[e.fromNodeKey := (if e.fromNodeKey in lists then lists[e.fromNodeKey] else []) + [e]]
  }

  lemma MultisetAppend(es: seq<Edge>, e: Edge)
    ensures multiset(es + [e]) == multiset(es) + multiset{e}
  {
  }

  lemma BagOf(lists: EdgeLists, k: string)
    ensures Bag(lists) == multiset(if k in lists then lists[k] else []) + Bag(lists - {k})
  {
    if k in lists {
      BagRemove(lists, k);
    } else {
      assert lists - {k} == lists;
    }
  }

  lemma BagPushed(lists: EdgeLists, e: Edge)
    ensures Bag(Pushed(lists, e)) == Bag(lists) + multiset{e}
  {
    var k := e.fromNodeKey;
    var pushed, list := Pushed(lists, e), if k in lists then lists[k] else [];
    assert pushed[k] == list + [e] && pushed - {k} == lists - {k};
    BagRemove(pushed, k);
    MultisetAppend(list, e);
    BagOf(lists, k);
  }

  function PushedAll(lists: EdgeLists, es: seq<Edge>): EdgeLists {
    if es == [] then lists else Pushed(PushedAll(lists, es[..|es| - 1]), es[|es| - 1])
  }

  lemma MultisetSnoc(es: seq<Edge>)
    requires es != []
    ensures multiset(es) == multiset(es[..|es| - 1]) + multiset{es[|es| - 1]}
  {
    assert es == es[..|es| - 1] + [es[|es| - 1]];
  }

  lemma {:induction false} PushedAllBag(lists: EdgeLists, es: seq<Edge>)
    ensures Bag(PushedAll(lists, es)) == Bag(lists) + multiset(es)
  {
    if es != [] {
      MultisetSnoc(es);
      PushedAllBag(lists, es[..|es| - 1]);
      BagPushed(PushedAll(lists, es[..|es| - 1]), es[|es| - 1]);
    }
  }

  lemma {:induction false} PushedAllGrouped(lists: EdgeLists, es: seq<Edge>)
    requires Grouped(lists)
    ensures Grouped(PushedAll(lists, es))
  {
    if es != [] {
      PushedAllGrouped(lists, es[..|es| - 1]);
    }
  }

  // Every edge is in the list of its own source.
  ghost predicate Grouped(lists: EdgeLists) {
    forall k | k in lists :: forall e | e in lists[k] :: e.fromNodeKey == k
  }

  ghost function EdgesFrom(lists: EdgeLists, k: string): multiset<Edge> {
    if k in lists then multiset(lists[k]) else multiset{}
  }

  // In grouped lists each list holds exactly the edges of the bag with its source.
  lemma {:induction false} GroupedList(lists: EdgeLists, k: string, e: Edge)
    requires Grouped(lists)
    ensures EdgesFrom(lists, k)[e] == if e.fromNodeKey == k then Bag(lists)[e] else 0
    decreases |lists|
  {
    if k in lists {
      BagRemove(lists, k);
      SmallerMap(lists, k);
      GroupedList(lists - {k}, k, e);
      assert e in lists[k] ==> e.fromNodeKey == k;
    } else if lists != map[] {
      var j :| j in lists;
      BagRemove(lists, j);
      SmallerMap(lists, j);
      GroupedList(lists - {j}, k, e);
      assert e in lists[j] ==> e.fromNodeKey == j;
    }
  }

  // So two grouped edge maps with the same bag have the same lists, up to order.
  lemma SameBagSameLists(a: EdgeLists, b: EdgeLists, k: string)
    requires Grouped(a) && Grouped(b) && Bag(a) == Bag(b)
    ensures EdgesFrom(a, k) == EdgesFrom(b, k)
  {
    forall e: Edge
      ensures EdgesFrom(a, k)[e] == EdgesFrom(b, k)[e]
    {
      GroupedList(a, k, e);
      GroupedList(b, k, e);
    }
  }

  // What add_edge asserts of its arguments.
  predicate NoLoop(e: Edge) {
    e.fromNodeKey != e.toNodeKey && (e.uids.Some? ==> e.uids.value.0 != e.uids.value.1)
  }

  ghost predicate HasLoop(list: seq<Edge>) {
    exists e | e in list :: !NoLoop(e)
  }

  ghost predicate NoSelfLoops(lists: EdgeLists) {
    forall k | k in lists :: !HasLoop(lists[k])
  }

  lemma NoLoopsStep(before: EdgeLists, after: EdgeLists, k: string)
    requires k in after && before == after - {k} && NoSelfLoops(before) && !HasLoop(after[k])
    ensures NoSelfLoops(after)
  {
    assert forall j | j in after && j != k :: j in before && before[j] == after[j];
  }

  lemma LoopFreeBag(lists: EdgeLists)
    ensures NoSelfLoops(lists) <==> forall e | e in Bag(lists) :: NoLoop(e)
  {
    forall e: Edge
      ensures e in Bag(lists) <==> exists k :: k in lists && e in lists[k]
    {
      BagMembers(lists, e);
    }
  }

  // ---------------------------------------------------------------- the graph class

  // A graph up to the order of its edge lists.
  datatype View = View(nodes: Nodes, bag: multiset<Edge>)

  ghost predicate LoopFree(v: View) {
    forall e | e in v.bag :: NoLoop(e)
  }

  class Graph {
    var nodes: Nodes
    var edges: EdgeLists

    constructor ()
      ensures nodes == map[] && edges == map[]
      ensures AsView() == View(map[], multiset{}) && Grouped(edges)
    {
      nodes := map[];
      edges := map[];
    }

    ghost function AsView(): View
      reads this
    {
      View(nodes, Bag(edges))
    }

    method AddNode(node: Node)
      modifies this`nodes
      ensures nodes == WithNode(old(nodes), node)
      ensures MergedNodes(old(nodes), map[node.nodeKey := node], nodes)
    {
      MergeNodesAre(nodes, map[node.nodeKey := node]);
      if node.nodeKey in nodes {
        var merged := MergeInto(nodes[node.nodeKey].properties, node.properties);
        nodes := nodes[node.nodeKey := nodes[node.nodeKey].(properties := merged)];
      } else {
        nodes := nodes[node.nodeKey := node];
      }
    }

    // Panics on an edge from a node to itself.
    method AddEdge(edge: Edge) returns (panicked: bool)
      modifies this`edges
      ensures panicked <==> edge.fromNodeKey == edge.toNodeKey || (edge.uids.Some? && edge.uids.value.0 == edge.uids.value.1)
      ensures edges == if panicked then old(edges) else Pushed(old(edges), edge)
    {
      if edge.fromNodeKey == edge.toNodeKey {
        return true;
      }
      if edge.uids.Some? && edge.uids.value.0 == edge.uids.value.1 {
        return true;
      }
      if edge.fromNodeKey !in edges {
        edges := edges[edge.fromNodeKey := []];
      }
      edges := edges[edge.fromNodeKey := edges[edge.fromNodeKey] + [edge]];
      panicked := false;
    }

    method MergeNodesFrom(other: Graph)
      requires other != this
      modifies this`nodes
      ensures nodes == MergeNodes(old(nodes), other.nodes)
    {
      var rest := other.nodes.Keys;
      while rest != {}
        invariant rest <= other.nodes.Keys
        invariant nodes == MergeNodes(old(nodes), other.nodes - rest)
        decreases rest
      {
        var key :| key in rest;
        var node := other.nodes[key];
        assert other.nodes - (rest - {key}) == (other.nodes - rest)[key := node];
        MergeNodesStep(old(nodes), other.nodes - rest, key, node);
        if key in nodes {
          var merged := MergeInto(nodes[key].properties, node.properties);
          nodes := nodes[key := nodes[key].(properties := merged)];
        } else {
          nodes := nodes[key := node];
        }
        rest := rest - {key};
      }
      assert other.nodes - {} == other.nodes;
    }

    method AddEdges(list: seq<Edge>) returns (panicked: bool)
      modifies this`edges
      ensures panicked <==> HasLoop(list)
      ensures !panicked ==> edges == PushedAll(old(edges), list)
    {
      for i := 0 to |list|
        invariant forall j | 0 <= j < i :: NoLoop(list[j])
        invariant edges == PushedAll(old(edges), list[..i])
      {
        assert list[..i + 1][..i] == list[..i];
        panicked := AddEdge(list[i]);
        if panicked {
          assert list[i] in list;
          return;
        }
      }
      assert list[..|list|] == list;
      panicked := false;
    }

    // Merging regroups the other graph's edges by their own source, whatever list they were
    // in, and visits nodes and lists in any order; it panics if one of them is a loop.
    method Merge(other: Graph) returns (panicked: bool)
      requires other != this
      modifies this
      ensures panicked <==> !LoopFree(other.AsView())
      ensures !panicked ==> AsView() == MergeViews(old(AsView()), other.AsView())
      ensures !panicked && old(Grouped(edges)) ==> Grouped(edges)
    {
      LoopFreeBag(other.edges);
      MergeNodesFrom(other);
      var rest := other.edges.Keys;
      while rest != {}
        invariant rest <= other.edges.Keys && NoSelfLoops(other.edges - rest)
        invariant nodes == MergeNodes(old(nodes), other.nodes)
        invariant Bag(edges) == old(Bag(edges)) + Bag(other.edges - rest)
        invariant old(Grouped(edges)) ==> Grouped(edges)
        decreases rest
      {
        var key :| key in rest;
        ghost var before := other.edges - rest;
        ghost var after := other.edges - (rest - {key});
        assert after - {key} == before && after[key] == other.edges[key];
        BagRemove(after, key);
        PushedAllBag(edges, other.edges[key]);
        if old(Grouped(edges)) {
          PushedAllGrouped(edges, other.edges[key]);
        }
        panicked := AddEdges(other.edges[key]);
        if panicked {
          return;
        }
        NoLoopsStep(before, after, key);
        rest := rest - {key};
      }
      assert other.edges - {} == other.edges;
      panicked := false;
    }
  }

  function MergeViews(a: View, b: View): View {
    View(MergeNodes(a.nodes, b.nodes), a.bag + b.bag)
  }

  // ---------------------------------------------------------------- folding graphs

  ghost predicate AgreeNodes(a: Node, b: Node) {
    a.nodeKey == b.nodeKey && a.nodeType == b.nodeType && a.uid == b.uid && AgreeMaps(a.properties, b.properties)
  }

  ghost predicate AgreeViews(a: View, b: View) {
    forall k | k in a.nodes && k in b.nodes :: AgreeNodes(a.nodes[k], b.nodes[k])
  }

  lemma AgreeingViewsSwap(a: View, x: View, y: View)
    requires AgreeViews(a, x) && AgreeViews(a, y) && AgreeViews(x, y)
    ensures MergeViews(MergeViews(a, x), y) == MergeViews(MergeViews(a, y), x)
  {
    var left, right := MergeNodes(MergeNodes(a.nodes, x.nodes), y.nodes), MergeNodes(MergeNodes(a.nodes, y.nodes), x.nodes);
    assert left.Keys == right.Keys;
    forall k | k in left
      ensures left[k] == right[k]
    {
      NodesSwapAt(a.nodes, x.nodes, y.nodes, k);
    }
  }

  lemma NodesSwapAt(a: Nodes, x: Nodes, y: Nodes, k: string)
    requires k in a || k in x || k in y
    requires k in a && k in x ==> AgreeNodes(a[k], x[k])
    requires k in a && k in y ==> AgreeNodes(a[k], y[k])
    requires k in x && k in y ==> AgreeNodes(x[k], y[k])
    ensures MergeNodes(MergeNodes(a, x), y)[k] == MergeNodes(MergeNodes(a, y), x)[k]
  {
    if k in x && k in y {
      if k in a {
        AgreeingNodesSwap(a[k], x[k], y[k]);
      } else {
        AgreeingNodesCommute(x[k], y[k]);
      }
    }
  }

  lemma AgreeingNodesSwap(a: Node, x: Node, y: Node)
    requires AgreeNodes(a, x) && AgreeNodes(a, y) && AgreeNodes(x, y)
    ensures MergeNode(MergeNode(a, x), y) == MergeNode(MergeNode(a, y), x)
  {
    AgreeingMapsSwap(a.properties, x.properties, y.properties);
  }

  lemma AgreeingNodesCommute(x: Node, y: Node)
    requires AgreeNodes(x, y)
    ensures MergeNode(x, y) == MergeNode(y, x)
  {
    AgreeingMapsCommute(x.properties, y.properties);
  }

  lemma AgreeingViewsStayAgreeing(a: View, x: View, y: View)
    requires AgreeViews(a, x) && AgreeViews(a, y) && AgreeViews(x, y)
    ensures AgreeViews(MergeViews(a, x), y)
  {
    forall k | k in MergeNodes(a.nodes, x.nodes) && k in y.nodes
      ensures AgreeNodes(MergeNodes(a.nodes, x.nodes)[k], y.nodes[k])
    {
      if k in a.nodes && k in x.nodes {
        assert AgreeNodes(a.nodes[k], y.nodes[k]) && AgreeNodes(a.nodes[k], x.nodes[k]) && AgreeNodes(x.nodes[k], y.nodes[k]);
        AgreeingMapsStayAgreeing(a.nodes[k].properties, x.nodes[k].properties, y.nodes[k].properties);
      }
    }
  }

  ghost predicate AllAgree(gs: seq<View>) {
    forall x, y | x in gs && y in gs :: AgreeViews(x, y)
  }

  function Empty(): View {
    View(map[], multiset{})
  }

  ghost predicate AgreesWithAll(gs: seq<View>, a: View) {
    forall x | x in gs :: AgreeViews(a, x)
  }

  // The order in which agreeing graphs are merged does not matter.
  lemma MergeOrderIrrelevant(gs: seq<View>, hs: seq<View>)
    requires AllAgree(gs) && multiset(gs) == multiset(hs)
    ensures Fold(MergeViews, Empty(), gs) == Fold(MergeViews, Empty(), hs)
  {
    var inv := (a: View) => AgreesWithAll(gs, a);
    forall a, x | inv(a) && x in gs
      ensures inv(MergeViews(a, x))
    {
      forall y | y in gs
        ensures AgreeViews(MergeViews(a, x), y)
      {
        AgreeingViewsStayAgreeing(a, x, y);
      }
    }
    forall a, x, y | inv(a) && x in gs && y in gs
      ensures MergeViews(MergeViews(a, x), y) == MergeViews(MergeViews(a, y), x)
    {
      AgreeingViewsSwap(a, x, y);
    }
    FoldPermutes(MergeViews, inv, Empty(), gs, hs);
  }

  predicate Contributes(g: View, key: string, name: string) {
    key in g.nodes && name in g.nodes[key].properties
  }

  lemma {:induction false} FoldAgrees(gs: seq<View>, n: nat)
    requires AllAgree(gs) && n <= |gs|
    ensures AgreesWithAll(gs, Fold(MergeViews, Empty(), gs[..n]))
  {
    if n > 0 {
      FoldAgrees(gs, n - 1);
      assert gs[..n] == gs[..n - 1] + [gs[n - 1]];
      FoldSnoc(MergeViews, Empty(), gs[..n - 1], gs[n - 1]);
      forall y | y in gs
        ensures AgreeViews(MergeViews(Fold(MergeViews, Empty(), gs[..n - 1]), gs[n - 1]), y)
      {
        AgreeingViewsStayAgreeing(Fold(MergeViews, Empty(), gs[..n - 1]), gs[n - 1], y);
      }
    }
  }

  // A merge of agreeing values is one of them, moved by neither nor by what did not move one.
  lemma MergeIsLeastUpper(p: NodeProperty, q: NodeProperty, s: NodeProperty)
    requires Agree(p, q) && Agree(p, s) && Agree(q, s)
    ensures var r := MergeNodeProperty(p, q);
            (r == p || r == q) && !Moves(r, p) && !Moves(r, q) && (!Moves(p, s) || !Moves(q, s) ==> !Moves(r, s))
  {
  }

  predicate IsExtremum(gs: seq<View>, key: string, name: string, p: NodeProperty) {
    && (exists g | g in gs :: Contributes(g, key, name) && g.nodes[key].properties[name] == p)
    && (forall g | g in gs && Contributes(g, key, name) :: !Moves(p, g.nodes[key].properties[name]))
  }

  lemma ExtremumStep(gs: seq<View>, before: View, last: View, key: string, name: string)
    requires AllAgree(gs + [last]) && AgreesWithAll(gs + [last], before)
    requires Contributes(before, key, name) <==> exists g | g in gs :: Contributes(g, key, name)
    requires Contributes(before, key, name) ==> IsExtremum(gs, key, name, before.nodes[key].properties[name])
    ensures var all := MergeViews(before, last);
            && (Contributes(all, key, name) <==> exists g | g in gs + [last] :: Contributes(g, key, name))
            && (Contributes(all, key, name) ==> IsExtremum(gs + [last], key, name, all.nodes[key].properties[name]))
  {
    var both, all := gs + [last], MergeViews(before, last);
    Snoc(gs, last);
    assert Contributes(all, key, name) <==> Contributes(before, key, name) || Contributes(last, key, name);
    if Contributes(before, key, name) {
      var p := all.nodes[key].properties[name];
      forall g | g in both && Contributes(g, key, name)
        ensures !Moves(p, g.nodes[key].properties[name])
      {
        assert AgreeViews(before, last) && AgreeViews(before, g) && AgreeViews(last, g);
        NotMovedBy(before, last, g, key, name);
      }
    }
  }

  lemma Snoc(gs: seq<View>, last: View)
    ensures forall g :: g in gs + [last] <==> g in gs || g == last
  {
    var both := gs + [last];
    assert both[|gs|] == last;
    assert forall i | 0 <= i < |gs| :: both[i] == gs[i];
  }

  lemma NotMovedBy(before: View, last: View, g: View, key: string, name: string)
    requires AgreeViews(before, last) && AgreeViews(before, g) && AgreeViews(last, g)
    requires Contributes(before, key, name) && Contributes(g, key, name)
    requires !Moves(before.nodes[key].properties[name], g.nodes[key].properties[name]) || g == last
    ensures var p := MergeViews(before, last).nodes[key].properties[name];
            && !Moves(p, g.nodes[key].properties[name])
            && (p == before.nodes[key].properties[name]
                || (Contributes(last, key, name) && p == last.nodes[key].properties[name]))
  {
    if Contributes(last, key, name) {
      MergeIsLeastUpper(before.nodes[key].properties[name], last.nodes[key].properties[name], g.nodes[key].properties[name]);
    }
  }

  // What merging agreeing graphs computes: a property is there iff some graph has it, and
  // its value is one of the contributed values that no contribution moves: the largest
  // contribution to an increment-only and the smallest to a decrement-only property.
  lemma {:induction false} MergeIsExtremum(gs: seq<View>, key: string, name: string)
    requires AllAgree(gs)
    ensures var all := Fold(MergeViews, Empty(), gs);
            && (Contributes(all, key, name) <==> exists g | g in gs :: Contributes(g, key, name))
            && (Contributes(all, key, name) ==> IsExtremum(gs, key, name, all.nodes[key].properties[name]))
  {
    if gs != [] {
      var front, last := gs[..|gs| - 1], gs[|gs| - 1];
      assert gs == front + [last];
      MergeIsExtremum(front, key, name);
      FoldAgrees(gs, |gs| - 1);
      FoldSnoc(MergeViews, Empty(), front, last);
      ExtremumStep(front, Fold(MergeViews, Empty(), front), last, key, name);
    }
  }

  // ---------------------------------------------------------------- dispatching

  ghost function ViewsOf(graphs: seq<Graph>): (views: seq<View>)
    reads graphs
    ensures |views| == |graphs| && forall i | 0 <= i < |graphs| :: views[i] == graphs[i].AsView()
  {
    seq(|graphs|, i requires 0 <= i < |graphs| reads graphs => graphs[i].AsView())
  }

  // Every completed event is sent out with the merge of all of them, unless one has a loop.
  method SerializeCompletedEvents(keys: seq<string>, subgraphs: seq<Graph>)
    returns (panicked: bool, final: Graph, serialized: seq<(string, Graph)>)
    requires |keys| == |subgraphs|
    ensures panicked <==> exists v | v in old(ViewsOf(subgraphs)) :: !LoopFree(v)
    ensures panicked ==> serialized == []
    ensures !panicked ==>
              && fresh(final) && Grouped(final.edges)
              && final.AsView() == Fold(MergeViews, Empty(), old(ViewsOf(subgraphs)))
              && serialized == seq(|keys|, i requires 0 <= i < |keys| => (keys[i], final))
  {
    serialized := [];
    panicked, final := MergeAll(subgraphs);
    if panicked {
      return;
    }
    for i := 0 to |keys|
      invariant serialized == seq(i, j requires 0 <= j < i => (keys[j], final))
    {
      serialized := serialized + [(keys[i], final)];
    }
  }

  // `merged` is the merge of the first `n` views, none of which has a loop.
  ghost predicate Merged(merged: View, views: seq<View>, n: nat) {
    n <= |views| && merged == Fold(MergeViews, Empty(), views[..n]) && forall j | 0 <= j < n :: LoopFree(views[j])
  }

  lemma MergedStep(merged: View, views: seq<View>, n: nat)
    requires Merged(merged, views, n) && n < |views| && LoopFree(views[n])
    ensures Merged(MergeViews(merged, views[n]), views, n + 1)
  {
    assert views[..n + 1] == views[..n] + [views[n]];
    FoldSnoc(MergeViews, Empty(), views[..n], views[n]);
  }

  lemma MergedAll(merged: View, views: seq<View>)
    requires Merged(merged, views, |views|)
    ensures merged == Fold(MergeViews, Empty(), views) && forall v | v in views :: LoopFree(v)
  {
    assert views[..|views|] == views;
  }

  method MergeAll(subgraphs: seq<Graph>) returns (panicked: bool, final: Graph)
    ensures panicked <==> exists v | v in old(ViewsOf(subgraphs)) :: !LoopFree(v)
    ensures !panicked ==>
              && fresh(final) && Grouped(final.edges)
              && final.AsView() == Fold(MergeViews, Empty(), old(ViewsOf(subgraphs)))
  {
    final := new Graph();
    ghost var views := ViewsOf(subgraphs);
    for i := 0 to |subgraphs|
      invariant fresh(final) && Grouped(final.edges)
      invariant Merged(final.AsView(), views, i)
    {
      ghost var before := final.AsView();
      assert views[i] == subgraphs[i].AsView() && views[i] in views;
      panicked := final.Merge(subgraphs[i]);
      if panicked {
        return;
      }
      MergedStep(before, views, i);
    }
    MergedAll(final.AsView(), views);
    panicked := false;
  }

  // So the graph sent out does not depend on the order of the events, its edge lists only by
  // their own order.
  lemma DispatchOrderIrrelevant(gs: seq<View>, hs: seq<View>, a: EdgeLists, b: EdgeLists, k: string)
    requires AllAgree(gs) && multiset(gs) == multiset(hs)
    requires Grouped(a) && Bag(a) == Fold(MergeViews, Empty(), gs).bag
    requires Grouped(b) && Bag(b) == Fold(MergeViews, Empty(), hs).bag
    ensures Fold(MergeViews, Empty(), gs).nodes == Fold(MergeViews, Empty(), hs).nodes
    ensures EdgesFrom(a, k) == EdgesFrom(b, k)
  {
    MergeOrderIrrelevant(gs, hs);
    SameBagSameLists(a, b, k);
  }
}
