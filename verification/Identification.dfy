/**
 Identification: rewriting a graph of described nodes to a graph of identified nodes,
 through the many-to-one map from described keys to identities.
 */
module Identification {
  import opened Wrappers
  import opened Folds
  import opened Properties
  import opened Graphs
  import opened Sequences

  // What attributing the node with a given key answered: its identity, or a failure.
  type Attribution = string -> Option<string>

  datatype HandlerResult =
    | Identified(graph: Graph)
    | PartiallyIdentified(graph: Graph)
    | NothingIdentified
    | Panicked     // an edge whose two ends have one identity trips an assertion

  type IdMap = map<string, string>

  function IdMapOf(nodes: Nodes, attr: Attribution): IdMap {
    map k | k in nodes && attr(k).Some? :: attr(k).value
  }

  // The keys that failed nodes carry.
  function DeadKeys(nodes: Nodes, attr: Attribution): set<string> {
    set k | k in nodes && attr(k).None? :: nodes[k].nodeKey
  }

  // ---------------------------------------------------------------- nodes

  // What one described node contributes: itself under its identity, or nothing.
  function Single(nodes: Nodes, attr: Attribution, k: string): View {
    if k in nodes && attr(k).Some? then
      View(map[attr(k).value := nodes[k].(nodeKey := attr(k).value)], multiset{})
    else
      Empty()
  }

  function Singles(nodes: Nodes, attr: Attribution, order: seq<string>): seq<View> {
    Map((k: string) => Single(nodes, attr, k), order)
  }

  function IdentifiedNodes(nodes: Nodes, attr: Attribution, order: seq<string>): Nodes {
    Fold(MergeViews, Empty(), Singles(nodes, attr, order)).nodes
  }

  // The keys in some order, each once.
  ghost predicate Orders(order: seq<string>, keys: set<string>) {
    Lists(order, keys) && Distinct(order)
  }

  lemma AddIdentified(nodes: Nodes, attr: Attribution, order: seq<string>, k: string)
    requires k in nodes
    ensures IdentifiedNodes(nodes, attr, order + [k]) ==
            if attr(k).Some? then WithNode(IdentifiedNodes(nodes, attr, order), nodes[k].(nodeKey := attr(k).value))
            else IdentifiedNodes(nodes, attr, order)
  {
    assert Singles(nodes, attr, order + [k]) == Singles(nodes, attr, order) + [Single(nodes, attr, k)];
    FoldSnoc(MergeViews, Empty(), Singles(nodes, attr, order), Single(nodes, attr, k));
    var before := IdentifiedNodes(nodes, attr, order);
    assert MergeNodes(before, map[]) == before;
  }

  // ---------------------------------------------------------------- edges

  predicate Attributed(ids: IdMap, e: Edge) {
    e.fromNodeKey in ids && e.toNodeKey in ids
  }

  function MapEdge(ids: IdMap, e: Edge): Edge
    requires Attributed(ids, e)
  {
    Edge(ids[e.fromNodeKey], ids[e.toNodeKey], e.edgeName, None)
  }

  // The edges with both ends attributed, rewritten.
  function Images(ids: IdMap, es: seq<Edge>): seq<Edge> {
    if es == [] then [] else
    var front, last := es[..|es| - 1], es[|es| - 1];
    Images(ids, front) + (if Attributed(ids, last) then [MapEdge(ids, last)] else [])
  }

  function ImageLists(ids: IdMap, lists: EdgeLists): EdgeLists {
    map k | k in lists :: Images(ids, lists[k])
  }

  lemma {:induction false} ImagesMembers(ids: IdMap, es: seq<Edge>, m: Edge)
    ensures m in Images(ids, es) <==> exists e | e in es :: Attributed(ids, e) && MapEdge(ids, e) == m
  {
    if es != [] {
      var front, last := es[..|es| - 1], es[|es| - 1];
      ImagesMembers(ids, front, m);
      assert es == front + [last];
    }
  }

  // ---------------------------------------------------------------- the handler

  predicate Collapses(ids: IdMap, e: Edge) {
    Attributed(ids, e) && ids[e.fromNodeKey] == ids[e.toNodeKey]
  }

  // The lists the edge loop visits.
  function LiveLists(lists: EdgeLists, dead: set<string>): EdgeLists {
    map k | k in lists && k !in dead :: lists[k]
  }

  ghost predicate ListCollapses(ids: IdMap, list: seq<Edge>) {
    exists e | e in list :: Collapses(ids, e)
  }

  ghost predicate SomeEdgeCollapses(ids: IdMap, lists: EdgeLists) {
    exists k | k in lists :: ListCollapses(ids, lists[k])
  }

  lemma AddKeys(nodes: Nodes, attr: Attribution, rest: set<string>, k: string)
    requires k in rest && k in nodes
    ensures IdMapOf(nodes - (rest - {k}), attr) ==
            if attr(k).Some? then IdMapOf(nodes - rest, attr)[k := attr(k).value] else IdMapOf(nodes - rest, attr)
    ensures DeadKeys(nodes - (rest - {k}), attr) ==
            DeadKeys(nodes - rest, attr) + (if attr(k).None? then {nodes[k].nodeKey} else {})
  {
    var before, after := nodes - rest, nodes - (rest - {k});
    assert forall j :: j in after <==> j in before || j == k;
    assert forall j | j in before :: after[j] == before[j];
  }

  method IdentifyNodes(input: Graph, attr: Attribution)
    returns (graph: Graph, ids: IdMap, dead: set<string>, ghost order: seq<string>)
    ensures fresh(graph) && graph.edges == map[]
    ensures Orders(order, input.nodes.Keys) && graph.nodes == IdentifiedNodes(input.nodes, attr, order)
    ensures ids == IdMapOf(input.nodes, attr) && dead == DeadKeys(input.nodes, attr)
  {
    graph := new Graph();
    ids, dead, order := map[], {}, [];
    var rest := input.nodes.Keys;
    while rest != {}
      invariant rest <= input.nodes.Keys
      invariant fresh(graph) && graph.edges == map[]
      invariant Orders(order, input.nodes.Keys - rest)
      invariant graph.nodes == IdentifiedNodes(input.nodes, attr, order)
      invariant ids == IdMapOf(input.nodes - rest, attr) && dead == DeadKeys(input.nodes - rest, attr)
      decreases rest
    {
      var key :| key in rest;
      var node := input.nodes[key];
      AddIdentified(input.nodes, attr, order, key);
      AddKeys(input.nodes, attr, rest, key);
      match attr(key) {
        case None =>
          dead := dead + {node.nodeKey};
        case Some(id) =>
          ids := ids[key := id];
          graph.AddNode(node.(nodeKey := id));
      }
      order := order + [key];
      rest := rest - {key};
    }
    assert input.nodes - {} == input.nodes;
  }

  lemma ImagesStep(lists: EdgeLists, ids: IdMap, list: seq<Edge>, i: nat)
    requires i < |list|
    ensures PushedAll(lists, Images(ids, list[..i + 1])) ==
            if Attributed(ids, list[i]) then Pushed(PushedAll(lists, Images(ids, list[..i])), MapEdge(ids, list[i]))
            else PushedAll(lists, Images(ids, list[..i]))
  {
    assert list[..i + 1][..i] == list[..i];
    var images := Images(ids, list[..i]);
    if Attributed(ids, list[i]) {
      assert (images + [MapEdge(ids, list[i])])[..|images|] == images;
    } else {
      assert images + [] == images;
    }
  }

  function CountIf(es: seq<Edge>, f: Edge -> bool): nat {
    if es == [] then 0 else CountIf(es[..|es| - 1], f) + (if f(es[|es| - 1]) then 1 else 0)
  }

  // An edge from a node identified as `p` to a node identified as `q`.
  function Links(ids: IdMap, p: string, q: string, name: string): Edge -> bool {
    (e: Edge) =>
      && e.fromNodeKey in ids && ids[e.fromNodeKey] == p
      && e.toNodeKey in ids && ids[e.toNodeKey] == q
      && e.edgeName == name
  }

  lemma {:induction false} ImagesLinks(ids: IdMap, es: seq<Edge>, p: string, q: string, name: string)
    ensures multiset(Images(ids, es))[Edge(p, q, name, None)] == CountIf(es, Links(ids, p, q, name))
  {
    if es != [] {
      ImagesLinks(ids, es[..|es| - 1], p, q, name);
    }
  }

  // `after` has one more edge from `p` to `q` for each edge of the list that links them.
  ghost predicate AddsLinks(ids: IdMap, list: seq<Edge>, before: EdgeLists, after: EdgeLists) {
    forall p, q, name ::
      Bag(after)[Edge(p, q, name, None)] == Bag(before)[Edge(p, q, name, None)] + CountIf(list, Links(ids, p, q, name))
  }

  lemma ImagesAddLinks(ids: IdMap, list: seq<Edge>, before: EdgeLists)
    ensures AddsLinks(ids, list, before, PushedAll(before, Images(ids, list)))
  {
    PushedAllBag(before, Images(ids, list));
    forall p, q, name
      ensures multiset(Images(ids, list))[Edge(p, q, name, None)] == CountIf(list, Links(ids, p, q, name))
    {
      ImagesLinks(ids, list, p, q, name);
    }
  }

  // The loop over one list, after its first `n` edges.
  ghost predicate Pushing(ids: IdMap, list: seq<Edge>, n: nat, before: EdgeLists, edges: EdgeLists) {
    n <= |list| && edges == PushedAll(before, Images(ids, list[..n])) && forall j | 0 <= j < n :: !Collapses(ids, list[j])
  }

  lemma PushingStep(ids: IdMap, list: seq<Edge>, n: nat, before: EdgeLists, edges: EdgeLists)
    requires Pushing(ids, list, n, before, edges) && n < |list| && !Collapses(ids, list[n])
    ensures Pushing(ids, list, n + 1, before,
                    if Attributed(ids, list[n]) then Pushed(edges, MapEdge(ids, list[n])) else edges)
  {
    ImagesStep(before, ids, list, n);
  }

  lemma PushedLinks(ids: IdMap, list: seq<Edge>, before: EdgeLists, edges: EdgeLists)
    requires Pushing(ids, list, |list|, before, edges)
    ensures !ListCollapses(ids, list) && AddsLinks(ids, list, before, edges) && edges == PushedAll(before, Images(ids, list))
  {
    TakeAll(list);
    ImagesAddLinks(ids, list, before);
  }

  // One list; stops at the first edge that collapses.
  method IdentifyEdges(graph: Graph, ids: IdMap, list: seq<Edge>) returns (panicked: bool)
    modifies graph`edges
    ensures panicked <==> ListCollapses(ids, list)
    ensures !panicked ==> AddsLinks(ids, list, old(graph.edges), graph.edges)
    ensures !panicked ==> graph.edges == PushedAll(old(graph.edges), Images(ids, list))
  {
    ghost var before := graph.edges;
    TakeAll(list);
    for i := 0 to |list|
      invariant Pushing(ids, list, i, before, graph.edges)
    {
      var edge := list[i];
      if edge.fromNodeKey in ids && edge.toNodeKey in ids {
        var mapped := Edge(ids[edge.fromNodeKey], ids[edge.toNodeKey], edge.edgeName, None);
        ghost var edges := graph.edges;
        panicked := graph.AddEdge(mapped);
        if panicked {
          assert edge in list && Collapses(ids, edge);
          return;
        }
        PushingStep(ids, list, i, before, edges);
      } else {
        PushingStep(ids, list, i, before, graph.edges);
      }
    }
    PushedLinks(ids, list, before, graph.edges);
    panicked := false;
  }

  lemma ImageListsStep(ids: IdMap, before: EdgeLists, after: EdgeLists, k: string)
    requires k in after && before == after - {k}
    ensures Bag(ImageLists(ids, after)) == Bag(ImageLists(ids, before)) + multiset(Images(ids, after[k]))
  {
    BagRemove(ImageLists(ids, after), k);
    assert ImageLists(ids, after) - {k} == ImageLists(ids, before);
  }

  lemma {:induction false} NoImages(ids: IdMap, es: seq<Edge>)
    requires forall e | e in es :: !Attributed(ids, e)
    ensures Images(ids, es) == []
  {
    if es != [] {
      assert es[|es| - 1] in es;
      NoImages(ids, es[..|es| - 1]);
    }
  }

  // The state of the edge loop after the lists in `visited`.
  ghost predicate EdgesDone(ids: IdMap, visited: EdgeLists, edges: EdgeLists) {
    && !SomeEdgeCollapses(ids, visited)
    && Bag(edges) == Bag(ImageLists(ids, visited)) && Grouped(edges)
    && (ids == map[] ==> edges == map[])
  }

  lemma EdgesDoneStep(ids: IdMap, visited: EdgeLists, edges: EdgeLists, key: string, list: seq<Edge>)
    requires EdgesDone(ids, visited, edges) && key !in visited
    requires !ListCollapses(ids, list)
    ensures EdgesDone(ids, visited[key := list], PushedAll(edges, Images(ids, list)))
  {
    var after := visited[key := list];
    assert after - {key} == visited;
    ImageListsStep(ids, visited, after, key);
    PushedAllBag(edges, Images(ids, list));
    PushedAllGrouped(edges, Images(ids, list));
    if ids == map[] {
      NoImages(ids, list);
    }
    NoneCollapses(ids, visited, key, list);
  }

  lemma NoneCollapses(ids: IdMap, visited: EdgeLists, key: string, list: seq<Edge>)
    requires !SomeEdgeCollapses(ids, visited) && !ListCollapses(ids, list)
    ensures !SomeEdgeCollapses(ids, visited[key := list])
  {
    var after := visited[key := list];
    assert forall k | k in after && k != key :: after[k] == visited[k];
  }

  // The live lists that are not in `rest`.
  function Visited(lists: EdgeLists, rest: set<string>, dead: set<string>): EdgeLists {
    map k | k in lists && k !in rest && k !in dead :: lists[k]
  }

  lemma VisitedStep(lists: EdgeLists, rest: set<string>, dead: set<string>, key: string)
    requires key in rest && key in lists
    ensures Visited(lists, rest - {key}, dead) ==
            if key in dead then Visited(lists, rest, dead) else Visited(lists, rest, dead)[key := lists[key]]
  {
  }

  method IdentifyEdgeLists(graph: Graph, ids: IdMap, lists: EdgeLists, dead: set<string>) returns (panicked: bool)
    requires graph.edges == map[]
    modifies graph`edges
    ensures panicked <==> SomeEdgeCollapses(ids, LiveLists(lists, dead))
    ensures !panicked ==> EdgesDone(ids, LiveLists(lists, dead), graph.edges)
  {
    var rest := lists.Keys;
    ghost var visited: EdgeLists := map[];
    assert ImageLists(ids, visited) == map[];
    while rest != {}
      invariant rest <= lists.Keys
      invariant visited == Visited(lists, rest, dead)
      invariant EdgesDone(ids, visited, graph.edges)
      decreases rest
    {
      var key :| key in rest;
      if key !in dead {
        ghost var edges := graph.edges;
        var stop := IdentifyEdges(graph, ids, lists[key]);
        if stop {
          assert ListCollapses(ids, lists[key]) && LiveLists(lists, dead)[key] == lists[key];
          return true;
        }
        EdgesDoneStep(ids, visited, edges, key, lists[key]);
        visited := visited[key := lists[key]];
      }
      VisitedStep(lists, rest, dead, key);
      rest := rest - {key};
    }
    assert Visited(lists, {}, dead) == LiveLists(lists, dead);
    panicked := false;
  }

  lemma NobodyDead(nodes: Nodes, attr: Attribution)
    ensures AllIdentified(nodes, attr) <==> DeadKeys(nodes, attr) == {}
  {
    assert forall k | k in nodes && attr(k).None? :: nodes[k].nodeKey in DeadKeys(nodes, attr);
  }

  lemma NobodyIdentified(nodes: Nodes, attr: Attribution, order: seq<string>)
    requires Orders(order, nodes.Keys)
    ensures IdentifiedNodes(nodes, attr, order) == map[] <==> IdMapOf(nodes, attr) == map[]
    ensures IdentifiedNodes(nodes, attr, order) == map[] <==> NoneIdentified(nodes, attr)
  {
    var ids, identified := IdMapOf(nodes, attr), IdentifiedNodes(nodes, attr, order);
    IdentifiedKeys(nodes, attr, order);
    assert forall k | k in ids :: ids[k] in identified;
    assert forall k | k in nodes && attr(k).Some? :: k in ids;
    if identified != map[] {
      var id :| id in identified;
      var k :| k in order && attr(k) == Some(id);
      assert k in ids;
    }
  }

  // ---------------------------------------------------------------- counting edges

  ghost function CountLists(lists: EdgeLists, f: Edge -> bool): nat {
    if lists == map[] then 0 else
    var k :| k in lists;
    CountIf(lists[k], f) + CountLists(lists - {k}, f)
  }

  lemma {:induction false} CountRemove(lists: EdgeLists, k: string, f: Edge -> bool)
    requires k in lists
    ensures CountLists(lists, f) == CountIf(lists[k], f) + CountLists(lists - {k}, f)
    decreases |lists|
  {
    var j :| j in lists && CountLists(lists, f) == CountIf(lists[j], f) + CountLists(lists - {j}, f);
    if j != k {
      SmallerMap(lists, j);
      SmallerMap(lists, k);
      CountRemove(lists - {j}, k, f);
      CountRemove(lists - {k}, j, f);
      assert lists - {j} - {k} == lists - {k} - {j};
    }
  }

  // An edge from a node identified as `p` to a node identified as `q`.
  function Joins(nodes: Nodes, attr: Attribution, p: string, q: string, name: string): Edge -> bool {
    (e: Edge) =>
      && e.fromNodeKey in nodes && attr(e.fromNodeKey) == Some(p)
      && e.toNodeKey in nodes && attr(e.toNodeKey) == Some(q)
      && e.edgeName == name
  }

  lemma {:induction false} ImagesCount(nodes: Nodes, attr: Attribution, es: seq<Edge>, p: string, q: string, name: string)
    ensures multiset(Images(IdMapOf(nodes, attr), es))[Edge(p, q, name, None)] == CountIf(es, Joins(nodes, attr, p, q, name))
  {
    if es != [] {
      ImagesCount(nodes, attr, es[..|es| - 1], p, q, name);
    }
  }

  lemma {:induction false} ImageListsCount(nodes: Nodes, attr: Attribution, lists: EdgeLists, p: string, q: string, name: string)
    ensures Bag(ImageLists(IdMapOf(nodes, attr), lists))[Edge(p, q, name, None)] == CountLists(lists, Joins(nodes, attr, p, q, name))
    decreases |lists|
  {
    var ids := IdMapOf(nodes, attr);
    if lists == map[] {
      assert ImageLists(ids, lists) == map[];
    } else {
      var k :| k in lists;
      SmallerMap(lists, k);
      ImageListsCount(nodes, attr, lists - {k}, p, q, name);
      ImageListsStep(ids, lists - {k}, lists, k);
      ImagesCount(nodes, attr, lists[k], p, q, name);
      CountRemove(lists, k, Joins(nodes, attr, p, q, name));
    }
  }

  // The bag holds one edge from `p` to `q` for each edge of the lists that joins a node
  // identified as `p` to one identified as `q`, under the same name, and nothing else.
  ghost predicate Rewrites(nodes: Nodes, attr: Attribution, lists: EdgeLists, bag: multiset<Edge>) {
    && (forall p, q, name :: bag[Edge(p, q, name, None)] == CountLists(lists, Joins(nodes, attr, p, q, name)))
    && (forall m | m in bag :: m.uids == None)
  }

  lemma ImagesRewrite(nodes: Nodes, attr: Attribution, lists: EdgeLists)
    ensures Rewrites(nodes, attr, lists, Bag(ImageLists(IdMapOf(nodes, attr), lists)))
  {
    var ids := IdMapOf(nodes, attr);
    var bag := Bag(ImageLists(ids, lists));
    forall p, q, name
      ensures bag[Edge(p, q, name, None)] == CountLists(lists, Joins(nodes, attr, p, q, name))
    {
      ImageListsCount(nodes, attr, lists, p, q, name);
    }
    forall m | m in bag
      ensures m.uids == None
    {
      BagMembers(ImageLists(ids, lists), m);
      var k :| k in lists && m in Images(ids, lists[k]);
      ImagesMembers(ids, lists[k], m);
    }
  }

  // The lists that are not kept under the key of a node without an identity.
  ghost predicate AreVisited(visited: EdgeLists, input: EdgeLists, nodes: Nodes, attr: Attribution) {
    && (forall k :: k in visited <==> k in input && forall j | j in nodes && nodes[j].nodeKey == k :: attr(j).Some?)
    && (forall k | k in visited :: visited[k] == input[k])
  }

  ghost predicate JoinsOneIdentity(nodes: Nodes, attr: Attribution, list: seq<Edge>) {
    exists e | e in list ::
      e.fromNodeKey in nodes && e.toNodeKey in nodes && attr(e.fromNodeKey).Some? && attr(e.fromNodeKey) == attr(e.toNodeKey)
  }

  ghost predicate SomeJoinsOneIdentity(nodes: Nodes, attr: Attribution, lists: EdgeLists) {
    exists k | k in lists :: JoinsOneIdentity(nodes, attr, lists[k])
  }

  ghost predicate AllIdentified(nodes: Nodes, attr: Attribution) {
    forall k | k in nodes :: attr(k).Some?
  }

  ghost predicate NoneIdentified(nodes: Nodes, attr: Attribution) {
    forall k | k in nodes :: attr(k).None?
  }

  lemma VisitedLists(nodes: Nodes, attr: Attribution, lists: EdgeLists)
    ensures var live := LiveLists(lists, DeadKeys(nodes, attr));
            && AreVisited(live, lists, nodes, attr)
            && (SomeEdgeCollapses(IdMapOf(nodes, attr), live) <==> SomeJoinsOneIdentity(nodes, attr, live))
  {
    var live := LiveLists(lists, DeadKeys(nodes, attr));
    forall k | k in live
      ensures ListCollapses(IdMapOf(nodes, attr), live[k]) <==> JoinsOneIdentity(nodes, attr, live[k])
    {
      assert forall e | e in live[k] :: Collapses(IdMapOf(nodes, attr), e) <==>
        e.fromNodeKey in nodes && e.toNodeKey in nodes && attr(e.fromNodeKey).Some? && attr(e.fromNodeKey) == attr(e.toNodeKey);
    }
  }

  // The new graph has an edge for each visited edge whose two ends are identified, between
  // their identities; the call panics if the two ends of a visited edge have one identity.
  method HandleEvent(input: Graph, attr: Attribution) returns (r: HandlerResult, ghost order: seq<string>)
    ensures Orders(order, input.nodes.Keys)
    ensures var lists := LiveLists(input.edges, DeadKeys(input.nodes, attr));
            && AreVisited(lists, input.edges, input.nodes, attr)
            && (r.Panicked? <==> SomeJoinsOneIdentity(input.nodes, attr, lists))
            && (!r.Panicked? ==>
                  && (r.Identified? <==> AllIdentified(input.nodes, attr))
                  && (r.NothingIdentified? <==> input.nodes != map[] && NoneIdentified(input.nodes, attr)))
            && (r.Identified? || r.PartiallyIdentified? ==>
                  && fresh(r.graph) && Grouped(r.graph.edges)
                  && r.graph.nodes == IdentifiedNodes(input.nodes, attr, order)
                  && Rewrites(input.nodes, attr, lists, Bag(r.graph.edges)))
  {
    var graph, ids, dead;
    graph, ids, dead, order := IdentifyNodes(input, attr);
    ImagesRewrite(input.nodes, attr, LiveLists(input.edges, dead));
    VisitedLists(input.nodes, attr, input.edges);
    NobodyDead(input.nodes, attr);
    NobodyIdentified(input.nodes, attr, order);
    if input.nodes == map[] && input.edges == map[] {
      assert LiveLists(input.edges, dead) == map[];
      graph := new Graph();
      return Identified(graph), order;
    }
    var panicked := IdentifyEdgeLists(graph, ids, input.edges, dead);
    if panicked {
      return Panicked, order;
    }
    if graph.nodes == map[] && graph.edges == map[] {
      if dead != {} {
        return NothingIdentified, order;
      }
      graph := new Graph();
      return Identified(graph), order;
    }
    r := if dead != {} then PartiallyIdentified(graph) else Identified(graph);
  }

  // ---------------------------------------------------------------- properties of the result

  // The identified nodes are exactly the identities given out.
  lemma {:induction false} IdentifiedKeys(nodes: Nodes, attr: Attribution, order: seq<string>)
    requires forall k | k in order :: k in nodes
    ensures forall id :: id in IdentifiedNodes(nodes, attr, order) <==> exists k | k in order :: attr(k) == Some(id)
  {
    if order != [] {
      var front, k := order[..|order| - 1], order[|order| - 1];
      IdentifiedKeys(nodes, attr, front);
      AddIdentified(nodes, attr, front, k);
      assert order == front + [k];
    }
  }

  // Each identified node carries its identity as key, and the type and uid of one of the
  // nodes it was made of.
  lemma {:induction false} IdentifiedFields(nodes: Nodes, attr: Attribution, order: seq<string>, id: string)
    requires (forall k | k in order :: k in nodes) && id in IdentifiedNodes(nodes, attr, order)
    ensures var node := IdentifiedNodes(nodes, attr, order)[id];
            && node.nodeKey == id
            && exists k | k in order :: attr(k) == Some(id) && node.nodeType == nodes[k].nodeType && node.uid == nodes[k].uid
  {
    if order != [] {
      var front, k := order[..|order| - 1], order[|order| - 1];
      AddIdentified(nodes, attr, front, k);
      assert order == front + [k];
      if id in IdentifiedNodes(nodes, attr, front) {
        IdentifiedFields(nodes, attr, front, id);
        var j :| j in front && attr(j) == Some(id)
                 && IdentifiedNodes(nodes, attr, front)[id].nodeType == nodes[j].nodeType
                 && IdentifiedNodes(nodes, attr, front)[id].uid == nodes[j].uid;
        assert j in order;
      } else {
        assert k in order;
      }
    }
  }

  lemma {:induction false} SkippedImages(nodes: Nodes, attr: Attribution, lists: EdgeLists)
    requires KeyedByOwnKey(nodes) && Grouped(lists)
    ensures var ids := IdMapOf(nodes, attr);
            Bag(ImageLists(ids, LiveLists(lists, DeadKeys(nodes, attr)))) == Bag(ImageLists(ids, lists))
    decreases |lists|
  {
    var ids, dead := IdMapOf(nodes, attr), DeadKeys(nodes, attr);
    if lists == map[] {
      assert LiveLists(lists, dead) == lists;
    } else {
      var k :| k in lists;
      SmallerMap(lists, k);
      SkippedImages(nodes, attr, lists - {k});
      ImageListsStep(ids, lists - {k}, lists, k);
      if k in dead {
        assert LiveLists(lists, dead) == LiveLists(lists - {k}, dead);
        NoImages(ids, lists[k]);
      } else {
        assert LiveLists(lists, dead) - {k} == LiveLists(lists - {k}, dead);
        ImageListsStep(ids, LiveLists(lists - {k}, dead), LiveLists(lists, dead), k);
      }
    }
  }

  // In a grouped input the lists the loop skips hold no edge that it could have mapped: the
  // result is the same as if it had visited them all.
  lemma SkippedListsAreDead(nodes: Nodes, attr: Attribution, lists: EdgeLists, bag: multiset<Edge>)
    requires KeyedByOwnKey(nodes) && Grouped(lists)
    ensures Rewrites(nodes, attr, LiveLists(lists, DeadKeys(nodes, attr)), bag) <==> Rewrites(nodes, attr, lists, bag)
  {
    var live := LiveLists(lists, DeadKeys(nodes, attr));
    SkippedImages(nodes, attr, lists);
    forall p, q, name
      ensures CountLists(live, Joins(nodes, attr, p, q, name)) == CountLists(lists, Joins(nodes, attr, p, q, name))
    {
      ImageListsCount(nodes, attr, live, p, q, name);
      ImageListsCount(nodes, attr, lists, p, q, name);
    }
  }

  lemma {:induction false} Counted(es: seq<Edge>, f: Edge -> bool)
    ensures CountIf(es, f) > 0 <==> exists e | e in es :: f(e)
  {
    if es != [] {
      Counted(es[..|es| - 1], f);
      assert es == es[..|es| - 1] + [es[|es| - 1]];
    }
  }

  lemma {:induction false} CountedLists(lists: EdgeLists, f: Edge -> bool)
    requires CountLists(lists, f) > 0
    ensures exists k, e :: k in lists && e in lists[k] && f(e)
    decreases |lists|
  {
    if lists != map[] {
      var k :| k in lists && CountLists(lists, f) == CountIf(lists[k], f) + CountLists(lists - {k}, f);
      Counted(lists[k], f);
      SmallerMap(lists, k);
      if CountLists(lists - {k}, f) > 0 {
        CountedLists(lists - {k}, f);
        var j, e :| j in lists - {k} && e in (lists - {k})[j] && f(e);
        assert j in lists && e in lists[j];
      }
    }
  }

  // No identified edge dangles.
  lemma NoDanglingEdge(nodes: Nodes, attr: Attribution, order: seq<string>, lists: EdgeLists, bag: multiset<Edge>, m: Edge)
    requires Orders(order, nodes.Keys) && Rewrites(nodes, attr, lists, bag) && m in bag
    ensures m.fromNodeKey in IdentifiedNodes(nodes, attr, order) && m.toNodeKey in IdentifiedNodes(nodes, attr, order)
  {
    var p, q, name := m.fromNodeKey, m.toNodeKey, m.edgeName;
    assert m == Edge(p, q, name, None);
    CountedLists(lists, Joins(nodes, attr, p, q, name));
    var k, e :| k in lists && e in lists[k] && Joins(nodes, attr, p, q, name)(e);
    IdentifiedKeys(nodes, attr, order);
    assert e.fromNodeKey in order && e.toNodeKey in order;
  }

  // ---------------------------------------------------------------- many-to-one nodes

  // Nodes of one identity agree: type, variants and immutable values.
  ghost predicate PreimagesAgree(nodes: Nodes, attr: Attribution) {
    forall j, k | j in nodes && k in nodes && attr(j).Some? && attr(j) == attr(k) ::
      && nodes[j].nodeType == nodes[k].nodeType && nodes[j].uid == nodes[k].uid
      && AgreeMaps(nodes[j].properties, nodes[k].properties)
  }

  lemma SinglesAgree(nodes: Nodes, attr: Attribution, order: seq<string>)
    requires PreimagesAgree(nodes, attr)
    ensures AllAgree(Singles(nodes, attr, order))
  {
    forall x, y | x in Singles(nodes, attr, order) && y in Singles(nodes, attr, order)
      ensures AgreeViews(x, y)
    {
      var i :| 0 <= i < |order| && Singles(nodes, attr, order)[i] == x;
      var j :| 0 <= j < |order| && Singles(nodes, attr, order)[j] == y;
      assert x == Single(nodes, attr, order[i]) && y == Single(nodes, attr, order[j]);
    }
  }

  // The identified nodes then do not depend on the order of the hash map.
  lemma IdentificationOrderIrrelevant(nodes: Nodes, attr: Attribution, a: seq<string>, b: seq<string>)
    requires PreimagesAgree(nodes, attr) && Orders(a, nodes.Keys) && Orders(b, nodes.Keys)
    ensures IdentifiedNodes(nodes, attr, a) == IdentifiedNodes(nodes, attr, b)
  {
    forall k: string
      ensures multiset(a)[k] == multiset(b)[k]
    {
      CountOnce(a, nodes.Keys, k);
      CountOnce(b, nodes.Keys, k);
    }
    SinglesAgree(nodes, attr, a);
    MapPermutes((k: string) => Single(nodes, attr, k), a, b);
    MergeOrderIrrelevant(Singles(nodes, attr, a), Singles(nodes, attr, b));
  }

  lemma {:induction false} CountOnce(order: seq<string>, keys: set<string>, k: string)
    requires Orders(order, keys)
    ensures multiset(order)[k] == if k in keys then 1 else 0
    decreases |order|
  {
    if order != [] {
      var front, last := order[..|order| - 1], order[|order| - 1];
      assert order == front + [last];
      assert last !in front;
      CountOnce(front, keys - {last}, k);
    }
  }

  // Each identified node is the merge of its preimages: it has the properties they have,
  // each with the extreme of their values.
  lemma IdentifiedNodeIsMerge(nodes: Nodes, attr: Attribution, order: seq<string>, id: string, name: string)
    requires PreimagesAgree(nodes, attr) && Orders(order, nodes.Keys) && id in IdentifiedNodes(nodes, attr, order)
    ensures var p := IdentifiedNodes(nodes, attr, order)[id].properties;
            && (name in p <==> exists k | k in nodes :: attr(k) == Some(id) && name in nodes[k].properties)
            && (name in p ==>
                  && (exists k | k in nodes :: attr(k) == Some(id) && name in nodes[k].properties && nodes[k].properties[name] == p[name])
                  && (forall k | k in nodes && attr(k) == Some(id) && name in nodes[k].properties ::
                        !Moves(p[name], nodes[k].properties[name])))
  {
    var singles := Singles(nodes, attr, order);
    SinglesAgree(nodes, attr, order);
    MergeIsExtremum(singles, id, name);
    forall k | k in nodes && attr(k) == Some(id) && name in nodes[k].properties
      ensures Single(nodes, attr, k) in singles && Contributes(Single(nodes, attr, k), id, name)
    {
      var i :| 0 <= i < |order| && order[i] == k;
      assert singles[i] == Single(nodes, attr, k);
    }
    forall v | v in singles && Contributes(v, id, name)
      ensures exists k | k in nodes :: attr(k) == Some(id) && v == Single(nodes, attr, k)
    {
      var i :| 0 <= i < |order| && singles[i] == v;
      assert v == Single(nodes, attr, order[i]);
    }
  }
}
