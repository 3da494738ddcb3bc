/** Traversals of query graphs, which may be cyclic: a neighbour filter points back. */
module QueryGraph {
  import opened Sequences

  type Id = nat

  // An alternative of an edge filter: one query, or several that must all match.
  datatype NeighborFilter = One(q: Id) | Many(qs: seq<Id>)

  type EdgeFilters = seq<(string, seq<NeighborFilter>)>

  type QueryGraph = map<Id, EdgeFilters>

  function FilterNeighbors(filters: seq<NeighborFilter>): seq<Id> {
    if filters == [] then [] else
    (match filters[0] case One(q) => [q] case Many(qs) => qs) + FilterNeighbors(filters[1..])
  }

  // All neighbours, in the order in which the traversals come to them.
  function Neighbors(edges: EdgeFilters): seq<Id> {
    if edges == [] then [] else FilterNeighbors(edges[0].1) + Neighbors(edges[1..])
  }

  lemma {:induction false} FilterNeighborsAre(filters: seq<NeighborFilter>, n: Id)
    ensures n in FilterNeighbors(filters) <==> exists f | f in filters :: f == One(n) || (f.Many? && n in f.qs)
  {
    if filters != [] {
      FilterNeighborsAre(filters[1..], n);
      assert filters == [filters[0]] + filters[1..];
    }
  }

  // A query's neighbours are all the queries in an alternative of one of its edge filters:
  // alone, or with others.
  lemma {:induction false} NeighborsAre(edges: EdgeFilters, n: Id)
    ensures n in Neighbors(edges) <==>
            exists e | e in edges :: exists f | f in e.1 :: f == One(n) || (f.Many? && n in f.qs)
  {
    if edges != [] {
      NeighborsAre(edges[1..], n);
      FilterNeighborsAre(edges[0].1, n);
      assert edges == [edges[0]] + edges[1..];
    }
  }

  predicate WellFormed(g: QueryGraph) {
    forall q | q in g :: forall n | n in Neighbors(g[q]) :: n in g
  }

  // ---------------------------------------------------------------- reachability

  ghost predicate IsPath(g: QueryGraph, a: Id, b: Id, path: seq<Id>)
    decreases |path|
  {
    if path == [] then a == b
    else a in g && path[0] in Neighbors(g[a]) && IsPath(g, path[0], b, path[1..])
  }

  ghost predicate Reachable(g: QueryGraph, a: Id, b: Id) {
    exists path: seq<Id> :: IsPath(g, a, b, path)
  }

  lemma ReachesItself(g: QueryGraph, a: Id)
    ensures Reachable(g, a, a)
  {
    assert IsPath(g, a, a, []);
  }

  lemma ReachesFurther(g: QueryGraph, a: Id, c: Id, b: Id)
    requires a in g && c in Neighbors(g[a]) && Reachable(g, c, b)
    ensures Reachable(g, a, b)
  {
    var path :| IsPath(g, c, b, path);
    assert ([c] + path)[1..] == path;
    assert IsPath(g, a, b, [c] + path);
  }

  ghost predicate ClosedSet(g: QueryGraph, s: set<Id>) {
    forall q | q in s && q in g :: forall n | n in Neighbors(g[q]) :: n in s
  }

  lemma {:induction false} ClosedHoldsPath(g: QueryGraph, s: set<Id>, a: Id, b: Id, path: seq<Id>)
    requires ClosedSet(g, s) && a in s && IsPath(g, a, b, path)
    ensures b in s
    decreases |path|
  {
    if path != [] {
      ClosedHoldsPath(g, s, path[0], b, path[1..]);
    }
  }

  lemma ClosedHoldsReachable(g: QueryGraph, s: set<Id>, a: Id)
    requires ClosedSet(g, s) && a in s
    ensures forall b | Reachable(g, a, b) :: b in s
  {
    forall b | Reachable(g, a, b)
      ensures b in s
    {
      var path :| IsPath(g, a, b, path);
      ClosedHoldsPath(g, s, a, b, path);
    }
  }

  // ---------------------------------------------------------------- into_query_block

  // The text of a query block, as a tree: a block without text is left out by its parent.
  datatype Block = NoBlock | Block(id: Id, neighbors: seq<Block>)

  // The queries that have a place in a block's text.
  ghost function Ids(b: Block): set<Id> {
    match b
    case NoBlock => {}
    case Block(id, neighbors) => {id} + set i, n | 0 <= i < |neighbors| && n in Ids(neighbors[i]) :: n
  }

  ghost function IdsOfAll(bs: seq<Block>): set<Id> {
    set i, n | 0 <= i < |bs| && n in Ids(bs[i]) :: n
  }

  lemma IdsSnoc(bs: seq<Block>, b: Block)
    ensures IdsOfAll(bs + [b]) == IdsOfAll(bs) + Ids(b)
  {
    var all := bs + [b];
    assert all[|bs|] == b;
    forall n | n in IdsOfAll(bs)
      ensures n in IdsOfAll(all)
    {
      var i :| 0 <= i < |bs| && n in Ids(bs[i]);
      assert all[i] == bs[i];
    }
  }

  // Within the block of a query stand blocks of its neighbours; a block has text of its own
  // or a block within it; and no query has two places.
  ghost predicate WellNested(g: QueryGraph, ownText: set<Id>, b: Block) {
    match b
    case NoBlock => true
    case Block(id, neighbors) =>
      && id in g && (id in ownText || neighbors != [])
      && (forall i | 0 <= i < |neighbors| :: WellNested(g, ownText, neighbors[i]))
      && (forall i | 0 <= i < |neighbors| :: neighbors[i].Block? && neighbors[i].id in Neighbors(g[id]))
      && id !in IdsOfAll(neighbors)
      && forall i, j | 0 <= i < j < |neighbors| :: Ids(neighbors[i]) !! Ids(neighbors[j])
  }

  ghost predicate Apart(bs: seq<Block>) {
    forall i, j | 0 <= i < j < |bs| :: Ids(bs[i]) !! Ids(bs[j])
  }

  ghost predicate NestedIn(g: QueryGraph, ownText: set<Id>, q: Id, bs: seq<Block>)
    requires q in g
  {
    forall i | 0 <= i < |bs| :: WellNested(g, ownText, bs[i]) && bs[i].Block? && bs[i].id in Neighbors(g[q])
  }

  // The blocks of neighbours of `q` so far.
  ghost predicate Children(g: QueryGraph, ownText: set<Id>, q: Id, bs: seq<Block>) {
    q in g && q !in IdsOfAll(bs) && NestedIn(g, ownText, q, bs) && Apart(bs)
  }

  lemma ApartStep(bs: seq<Block>, b: Block)
    requires Apart(bs) && IdsOfAll(bs) !! Ids(b)
    ensures Apart(bs + [b])
  {
    forall i | 0 <= i < |bs|
      ensures Ids(bs[i]) !! Ids(b)
    {
      assert forall n | n in Ids(bs[i]) :: n in IdsOfAll(bs);
    }
  }

  lemma ChildrenStep(g: QueryGraph, ownText: set<Id>, q: Id, bs: seq<Block>, b: Block)
    requires Children(g, ownText, q, bs) && WellNested(g, ownText, b) && b.Block? && b.id in Neighbors(g[q])
    requires q !in Ids(b) && IdsOfAll(bs) !! Ids(b)
    ensures Children(g, ownText, q, bs + [b])
  {
    IdsSnoc(bs, b);
    ApartStep(bs, b);
  }

  // What a visit from `q` adds to the visited set: reachable queries, with all of their
  // neighbours visited too, except for those still under way.
  ghost predicate Visits(g: QueryGraph, q: Id, was: set<Id>, now: set<Id>, underWay: set<Id>) {
    && was <= now
    && (forall n | n in now && n !in was :: n in g && Reachable(g, q, n))
    && (forall n | n in now && n !in was && n !in underWay :: forall m | m in Neighbors(g[n]) :: m in now)
  }

  lemma VisitsStep(g: QueryGraph, q: Id, c: Id, was: set<Id>, mid: set<Id>, now: set<Id>)
    requires q in g && c in Neighbors(g[q])
    requires Visits(g, q, was, mid, {q}) && Visits(g, c, mid, now, {})
    ensures Visits(g, q, was, now, {q})
  {
    forall n | n in now && n !in was
      ensures n in g && Reachable(g, q, n)
    {
      if n !in mid {
        ReachesFurther(g, q, c, n);
      }
    }
  }

  lemma VisitsDone(g: QueryGraph, q: Id, was: set<Id>, now: set<Id>)
    requires q in g && Visits(g, q, was, now, {q}) && forall n | n in Neighbors(g[q]) :: n in now
    ensures Visits(g, q, was, now, {})
  {
  }

  // The queries `ids` in the text are new ones, among them all with text of their own, but
  // perhaps for `pending`.
  ghost predicate TextOk(ownText: set<Id>, was: set<Id>, now: set<Id>, ids: set<Id>, pending: set<Id>) {
    ids <= now - was && ownText * (now - was) <= ids + pending
  }

  lemma TextStep(ownText: set<Id>, was: set<Id>, mid: set<Id>, now: set<Id>, ids: set<Id>, more: set<Id>, pending: set<Id>)
    requires was <= mid <= now
    requires TextOk(ownText, was, mid, ids, pending) && TextOk(ownText, mid, now, more, {})
    ensures TextOk(ownText, was, now, ids + more, pending)
  {
    forall n | n in ownText * (now - was)
      ensures n in ids + more + pending
    {
      assert n in ownText * (mid - was) || n in ownText * (now - mid);
    }
  }

  class BlockWriter {
    const g: QueryGraph
    const ownText: set<Id>      // queries that print properties of their own
    var visited: set<Id>
    var expanded: seq<Id>       // the queries whose filters and block were generated, in order

    constructor (g: QueryGraph, ownText: set<Id>)
      ensures this.g == g && this.ownText == ownText && visited == {} && expanded == []
    {
      this.g, this.ownText := g, ownText;
      visited, expanded := {}, [];
    }

    ghost predicate Valid()
      reads this
    {
      WellFormed(g) && Distinct(expanded) && forall q :: q in visited <==> q in expanded
    }

    // Each call visits what it can reach past what was visited before; what it visited is
    // closed under neighbours.
    method IntoQueryBlock(q: Id) returns (block: Block)
      requires Valid() && q in g
      modifies this
      ensures Valid() && old(visited) <= visited && q in visited
      ensures old(expanded) <= expanded
      ensures Visits(g, q, old(visited), visited, {})
      ensures q in old(visited) ==> visited == old(visited)
      ensures TextOk(ownText, old(visited), visited, Ids(block), {})
      ensures WellNested(g, ownText, block) && (block.Block? ==> block.id == q)
      decreases g.Keys - visited, 0
    {
      if q in visited {
        return NoBlock;
      }
      ReachesItself(g, q);
      ghost var was := visited;
      visited := visited + {q};
      expanded := expanded + [q];
      var neighbors := NeighborBlocks(q, Neighbors(g[q]), was);
      VisitsDone(g, q, was, visited);
      block := if q in ownText || neighbors != [] then Block(q, neighbors) else NoBlock;
      BlockOk(q, neighbors, was, visited, ownText);
    }

    // The loops over the neighbours; a neighbour without text is left out.
    method NeighborBlocks(q: Id, next: seq<Id>, ghost was: set<Id>) returns (neighbors: seq<Block>)
      requires Valid() && q in g && q !in was && visited == was + {q} && Reachable(g, q, q)
      requires next == Neighbors(g[q])
      modifies this
      ensures Valid() && q in visited && old(expanded) <= expanded && Visits(g, q, was, visited, {q})
      ensures forall n | n in next :: n in visited
      ensures TextOk(ownText, was, visited, IdsOfAll(neighbors), {q}) && Children(g, ownText, q, neighbors)
      decreases g.Keys - visited, 2
    {
      neighbors := [];
      for i := 0 to |next|
        invariant Valid() && old(visited) <= visited && old(expanded) <= expanded
        invariant forall j | 0 <= j < i :: next[j] in visited
        invariant Visits(g, q, was, visited, {q})
        invariant TextOk(ownText, was, visited, IdsOfAll(neighbors), {q}) && Children(g, ownText, q, neighbors)
      {
        neighbors := NextBlock(q, next[i], neighbors, was);
      }
    }

    method NextBlock(q: Id, neighbor: Id, before: seq<Block>, ghost was: set<Id>) returns (neighbors: seq<Block>)
      requires Valid() && q in g && neighbor in Neighbors(g[q]) && Visits(g, q, was, visited, {q})
      requires TextOk(ownText, was, visited, IdsOfAll(before), {q}) && Children(g, ownText, q, before) && q in visited
      modifies this
      ensures Valid() && old(visited) <= visited && neighbor in visited && old(expanded) <= expanded
      ensures Visits(g, q, was, visited, {q})
      ensures TextOk(ownText, was, visited, IdsOfAll(neighbors), {q}) && Children(g, ownText, q, neighbors)
      decreases g.Keys - visited, 1
    {
      ghost var mid := visited;
      neighbors := before;
      var inner := IntoQueryBlock(neighbor);
      VisitsStep(g, q, neighbor, was, mid, visited);
      TextStep(ownText, was, mid, visited, IdsOfAll(neighbors), Ids(inner), {q});
      if inner.Block? {
        IdsSnoc(neighbors, inner);
        ChildrenStep(g, ownText, q, neighbors, inner);
        neighbors := neighbors + [inner];
      }
    }
  }

  lemma BlockOk(q: Id, neighbors: seq<Block>, was: set<Id>, now: set<Id>, ownText: set<Id>)
    requires q in now && q !in was && forall i | 0 <= i < |neighbors| :: neighbors[i].Block?
    requires TextOk(ownText, was, now, IdsOfAll(neighbors), {q})
    ensures TextOk(ownText, was, now, Ids(if q in ownText || neighbors != [] then Block(q, neighbors) else NoBlock), {})
  {
    assert Ids(Block(q, neighbors)) == {q} + IdsOfAll(neighbors);
    assert neighbors == [] ==> IdsOfAll(neighbors) == {};
  }

  // From the root, every reachable query is expanded exactly once, and no other; those with
  // text of their own have a place in the block.
  method WriteBlock(g: QueryGraph, ownText: set<Id>, root: Id) returns (block: Block, expanded: seq<Id>)
    requires WellFormed(g) && root in g
    ensures Distinct(expanded)
    ensures forall n :: n in expanded <==> Reachable(g, root, n)
    ensures forall n | n in Ids(block) :: n in expanded
    ensures forall n | n in ownText && n in expanded :: n in Ids(block)
    ensures WellNested(g, ownText, block) && (block.Block? ==> block.id == root)
  {
    var w := new BlockWriter(g, ownText);
    block := w.IntoQueryBlock(root);
    expanded := w.expanded;
    ClosedHoldsReachable(g, w.visited, root);
  }

  // ---------------------------------------------------------------- traverse_query_iter

  // A query with a nonempty filter list on some edge.
  predicate Internal(edges: EdgeFilters) {
    exists e | e in edges :: e.1 != []
  }

  lemma {:induction false} LeafHasNoNeighbors(edges: EdgeFilters)
    requires !Internal(edges)
    ensures Neighbors(edges) == []
  {
    if edges != [] {
      assert edges[0] in edges;
      assert forall e | e in edges[1..] :: e in edges;
      LeafHasNoNeighbors(edges[1..]);
    }
  }

  // What a traversal of `roots` yields, and what is visited after it.  A query is marked as
  // visited only when it has neighbours to descend to, so a leaf is yielded each time it is
  // met.
  function Walk(g: QueryGraph, root: Id, visited: set<Id>): (r: (seq<Id>, set<Id>))
    requires WellFormed(g) && root in g
    ensures visited <= r.1
    decreases g.Keys - visited, 0, 0
  {
    if root in visited then ([], visited)
    else if !Internal(g[root]) then ([root], visited)
    else
      var rest := WalkAll(g, Neighbors(g[root]), visited + {root});
      ([root] + rest.0, rest.1)
  }

  function WalkAll(g: QueryGraph, roots: seq<Id>, visited: set<Id>): (r: (seq<Id>, set<Id>))
    requires WellFormed(g) && forall n | n in roots :: n in g
    ensures visited <= r.1
    decreases g.Keys - visited, 1, |roots|
  {
    if roots == [] then ([], visited) else
    var front := WalkAll(g, roots[..|roots| - 1], visited);
    var last := Walk(g, roots[|roots| - 1], front.1);
    (front.0 + last.0, last.1)
  }

  class QueryIterator {
    const g: QueryGraph
    var visited: set<Id>

    constructor (g: QueryGraph)
      ensures this.g == g && visited == {}
    {
      this.g := g;
      visited := {};
    }

    method Traverse(root: Id) returns (found: seq<Id>)
      requires WellFormed(g) && root in g
      modifies this
      ensures (found, visited) == Walk(g, root, old(visited))
      decreases g.Keys - visited, 0
    {
      if root in visited {
        return [];
      }
      found := [root];
      if !Internal(g[root]) {
        return;
      }
      visited := visited + {root};
      var nested := Descend(Neighbors(g[root]));
      found := found + nested;
    }

    // The loops over the neighbours.
    method Descend(next: seq<Id>) returns (found: seq<Id>)
      requires WellFormed(g) && forall n | n in next :: n in g
      modifies this
      ensures (found, visited) == WalkAll(g, next, old(visited))
      decreases g.Keys - visited, 1
    {
      found := [];
      for i := 0 to |next|
        invariant (found, visited) == WalkAll(g, next[..i], old(visited))
      {
        assert next[..i + 1][..i] == next[..i];
        var nested := Traverse(next[i]);
        found := found + nested;
      }
      assert next[..|next|] == next;
    }
  }

  // ---------------------------------------------------------------- what is yielded

  // Everything yielded is reachable from a root.
  ghost predicate Reached(g: QueryGraph, roots: seq<Id>, found: seq<Id>) {
    forall n | n in found :: n in g && exists r | r in roots :: Reachable(g, r, n)
  }

  // Internal queries are yielded once, when they are marked as visited, and no others are
  // marked.
  ghost predicate Once(g: QueryGraph, was: set<Id>, now: set<Id>, found: seq<Id>) {
    && was <= now
    && (forall n | n in now && n !in was :: n in g && Internal(g[n]))
    && (forall n | n in g && Internal(g[n]) :: multiset(found)[n] == if n in now && n !in was then 1 else 0)
  }

  ghost predicate AllMet(ms: seq<Id>, now: set<Id>, found: seq<Id>) {
    forall m | m in ms :: m in now || m in found
  }

  // All neighbours of what was marked have been met.
  ghost predicate NeighborsMet(g: QueryGraph, was: set<Id>, now: set<Id>, found: seq<Id>) {
    forall n | n in now && n !in was && n in g :: AllMet(Neighbors(g[n]), now, found)
  }

  predicate Leaf(g: QueryGraph, n: Id) {
    n in g && !Internal(g[n])
  }

  function Listed(g: QueryGraph, q: Id, n: Id): nat {
    if q in g then multiset(Neighbors(g[q]))[n] else 0
  }

  // How often the queries in `s` list `n` as a neighbour.
  ghost function Listings(g: QueryGraph, s: set<Id>, n: Id): nat {
    if s == {} then 0 else
    var q :| q in s;
    Listed(g, q, n) + Listings(g, s - {q}, n)
  }

  // A leaf is yielded once for each time a marked query lists it, and each time it is a root.
  ghost predicate LeavesCounted(g: QueryGraph, roots: seq<Id>, was: set<Id>, now: set<Id>, found: seq<Id>) {
    forall n | Leaf(g, n) :: multiset(found)[n] == Listings(g, now - was, n) + multiset(roots)[n]
  }

  ghost predicate Traversed(g: QueryGraph, roots: seq<Id>, was: set<Id>, now: set<Id>, found: seq<Id>) {
    && Reached(g, roots, found) && Once(g, was, now, found)
    && AllMet(roots, now, found) && NeighborsMet(g, was, now, found)
    && LeavesCounted(g, roots, was, now, found)
  }

  lemma {:induction false} ListingsRemove(g: QueryGraph, s: set<Id>, q: Id, n: Id)
    requires q in s
    ensures Listings(g, s, n) == Listed(g, q, n) + Listings(g, s - {q}, n)
    decreases s
  {
    var p :| p in s && Listings(g, s, n) == Listed(g, p, n) + Listings(g, s - {p}, n);
    if p != q {
      ListingsRemove(g, s - {p}, q, n);
      ListingsRemove(g, s - {q}, p, n);
      assert s - {p} - {q} == s - {q} - {p};
    }
  }

  lemma {:induction false} ListingsUnion(g: QueryGraph, a: set<Id>, b: set<Id>, n: Id)
    requires a !! b
    ensures Listings(g, a + b, n) == Listings(g, a, n) + Listings(g, b, n)
    decreases a
  {
    if a == {} {
      assert a + b == b;
    } else {
      var q :| q in a;
      ListingsRemove(g, a + b, q, n);
      ListingsRemove(g, a, q, n);
      assert a + b - {q} == (a - {q}) + b;
      ListingsUnion(g, a - {q}, b, n);
    }
  }

  // One traversal after the other.
  lemma OnceConcat(g: QueryGraph, was: set<Id>, mid: set<Id>, now: set<Id>, a: seq<Id>, b: seq<Id>)
    requires Once(g, was, mid, a) && Once(g, mid, now, b)
    ensures Once(g, was, now, a + b)
  {
    assert multiset(a + b) == multiset(a) + multiset(b);
  }

  lemma NeighborsConcat(g: QueryGraph, was: set<Id>, mid: set<Id>, now: set<Id>, a: seq<Id>, b: seq<Id>)
    requires was <= mid <= now && NeighborsMet(g, was, mid, a) && NeighborsMet(g, mid, now, b)
    ensures NeighborsMet(g, was, now, a + b)
  {
    forall n | n in now && n !in was && n in g
      ensures AllMet(Neighbors(g[n]), now, a + b)
    {
      if n in mid {
        assert AllMet(Neighbors(g[n]), mid, a);
      } else {
        assert AllMet(Neighbors(g[n]), now, b);
      }
    }
  }

  lemma LeavesConcat(g: QueryGraph, xs: seq<Id>, ys: seq<Id>, was: set<Id>, mid: set<Id>, now: set<Id>, a: seq<Id>, b: seq<Id>)
    requires was <= mid <= now && LeavesCounted(g, xs, was, mid, a) && LeavesCounted(g, ys, mid, now, b)
    ensures LeavesCounted(g, xs + ys, was, now, a + b)
  {
    assert multiset(a + b) == multiset(a) + multiset(b);
    assert multiset(xs + ys) == multiset(xs) + multiset(ys);
    assert (mid - was) + (now - mid) == now - was;
    forall n | Leaf(g, n)
      ensures multiset(a + b)[n] == Listings(g, now - was, n) + multiset(xs + ys)[n]
    {
      ListingsUnion(g, mid - was, now - mid, n);
    }
  }

  lemma MetConcat(g: QueryGraph, xs: seq<Id>, ys: seq<Id>, mid: set<Id>, now: set<Id>, a: seq<Id>, b: seq<Id>)
    requires Reached(g, xs, a) && Reached(g, ys, b) && mid <= now && AllMet(xs, mid, a) && AllMet(ys, now, b)
    ensures Reached(g, xs + ys, a + b) && AllMet(xs + ys, now, a + b)
  {
    forall n | n in a + b
      ensures n in g && exists r | r in xs + ys :: Reachable(g, r, n)
    {
      if n in a {
        var r :| r in xs && Reachable(g, r, n);
        assert r in xs + ys;
      } else {
        var r :| r in ys && Reachable(g, r, n);
        assert r in xs + ys;
      }
    }
  }

  lemma TraversedConcat(g: QueryGraph, all: seq<Id>, xs: seq<Id>, ys: seq<Id>,
                        was: set<Id>, mid: set<Id>, now: set<Id>, a: seq<Id>, b: seq<Id>)
    requires all == xs + ys && Traversed(g, xs, was, mid, a) && Traversed(g, ys, mid, now, b)
    ensures Traversed(g, all, was, now, a + b)
  {
    OnceConcat(g, was, mid, now, a, b);
    NeighborsConcat(g, was, mid, now, a, b);
    LeavesConcat(g, xs, ys, was, mid, now, a, b);
    MetConcat(g, xs, ys, mid, now, a, b);
  }

  // An internal root before its neighbours.
  lemma RootOnce(g: QueryGraph, root: Id, was: set<Id>, now: set<Id>, found: seq<Id>)
    requires root in g && Internal(g[root]) && root !in was && Once(g, was + {root}, now, found)
    ensures Once(g, was, now, [root] + found)
  {
    assert multiset([root] + found) == multiset{root} + multiset(found);
  }

  lemma RootMet(g: QueryGraph, root: Id, was: set<Id>, now: set<Id>, found: seq<Id>)
    requires root in g && was + {root} <= now
    requires AllMet(Neighbors(g[root]), now, found) && NeighborsMet(g, was + {root}, now, found)
    requires Reached(g, Neighbors(g[root]), found)
    ensures AllMet([root], now, [root] + found) && NeighborsMet(g, was, now, [root] + found)
    ensures Reached(g, [root], [root] + found)
  {
    forall n | n in now && n !in was && n in g
      ensures AllMet(Neighbors(g[n]), now, [root] + found)
    {
      assert AllMet(Neighbors(g[n]), now, found);
    }
    ReachesItself(g, root);
    assert root in [root];
    forall n | n in found
      ensures Reachable(g, root, n)
    {
      var r :| r in Neighbors(g[root]) && Reachable(g, r, n);
      ReachesFurther(g, root, r, n);
    }
  }

  lemma RootLeaves(g: QueryGraph, root: Id, was: set<Id>, now: set<Id>, found: seq<Id>)
    requires root in g && Internal(g[root]) && root !in was && was + {root} <= now
    requires LeavesCounted(g, Neighbors(g[root]), was + {root}, now, found)
    ensures LeavesCounted(g, [root], was, now, [root] + found)
  {
    assert multiset([root] + found) == multiset{root} + multiset(found);
    assert now - (was + {root}) == (now - was) - {root};
    forall n | Leaf(g, n)
      ensures multiset([root] + found)[n] == Listings(g, now - was, n) + multiset([root])[n]
    {
      ListingsRemove(g, now - was, root, n);
    }
  }

  lemma NothingTraversed(g: QueryGraph, roots: seq<Id>, visited: set<Id>)
    requires forall r | r in roots :: r in visited && r in g && Internal(g[r])
    ensures Traversed(g, roots, visited, visited, [])
  {
    assert visited - visited == {};
    assert forall n | Leaf(g, n) :: n !in roots;
  }

  lemma LeafTraversed(g: QueryGraph, root: Id, visited: set<Id>)
    requires Leaf(g, root)
    ensures Traversed(g, [root], visited, visited, [root])
  {
    assert visited - visited == {};
    ReachesItself(g, root);
    assert root in [root];
  }

  ghost predicate AllInternal(g: QueryGraph, s: set<Id>) {
    forall q | q in s :: q in g && Internal(g[q])
  }

  lemma WalkAllStep(g: QueryGraph, roots: seq<Id>, visited: set<Id>, a: seq<Id>, mid: set<Id>)
    requires WellFormed(g) && roots != [] && forall n | n in roots :: n in g
    requires (a, mid) == WalkAll(g, roots[..|roots| - 1], visited) && Traversed(g, roots[..|roots| - 1], visited, mid, a)
    requires var r := Walk(g, roots[|roots| - 1], mid); Traversed(g, [roots[|roots| - 1]], mid, r.1, r.0)
    ensures var r := WalkAll(g, roots, visited); Traversed(g, roots, visited, r.1, r.0)
  {
    var front, last := roots[..|roots| - 1], roots[|roots| - 1];
    var r := Walk(g, last, mid);
    SplitLast(roots);
    TraversedConcat(g, roots, front, [last], visited, mid, r.1, a, r.0);
  }

  lemma {:induction false} WalkTraverses(g: QueryGraph, root: Id, visited: set<Id>)
    requires WellFormed(g) && root in g && AllInternal(g, visited)
    ensures var r := Walk(g, root, visited); Traversed(g, [root], visited, r.1, r.0) && AllInternal(g, r.1)
    decreases g.Keys - visited, 0, 0
  {
    if root in visited {
      NothingTraversed(g, [root], visited);
    } else if !Internal(g[root]) {
      LeafTraversed(g, root, visited);
    } else {
      var rest := WalkAll(g, Neighbors(g[root]), visited + {root});
      WalkAllTraverses(g, Neighbors(g[root]), visited + {root});
      RootOnce(g, root, visited, rest.1, rest.0);
      RootMet(g, root, visited, rest.1, rest.0);
      RootLeaves(g, root, visited, rest.1, rest.0);
    }
  }

  lemma {:induction false} WalkAllTraverses(g: QueryGraph, roots: seq<Id>, visited: set<Id>)
    requires WellFormed(g) && AllInternal(g, visited) && forall n | n in roots :: n in g
    ensures var r := WalkAll(g, roots, visited); Traversed(g, roots, visited, r.1, r.0) && AllInternal(g, r.1)
    decreases g.Keys - visited, 1, |roots|
  {
    if roots == [] {
      NothingTraversed(g, roots, visited);
    } else {
      var front, last := roots[..|roots| - 1], roots[|roots| - 1];
      var before := WalkAll(g, front, visited);
      WalkAllTraverses(g, front, visited);
      WalkTraverses(g, last, before.1);
      WalkAllStep(g, roots, visited, before.0, before.1);
    }
  }

  function InternalOnes(g: QueryGraph, found: seq<Id>): set<Id> {
    set q | q in found && q in g && Internal(g[q])
  }

  // From the root, exactly the reachable queries are yielded: those with neighbours once,
  // a leaf once for each time one of those lists it, and once more if it is the root.
  method TraverseQueryIter(g: QueryGraph, root: Id) returns (found: seq<Id>)
    requires WellFormed(g) && root in g
    ensures forall n :: n in found <==> Reachable(g, root, n)
    ensures forall n | n in InternalOnes(g, found) :: multiset(found)[n] == 1
    ensures forall n | Leaf(g, n) :: multiset(found)[n] == Listings(g, InternalOnes(g, found), n) + (if n == root then 1 else 0)
  {
    var it := new QueryIterator(g);
    found := it.Traverse(root);
    WalkTraverses(g, root, {});
    TraversedAll(g, root, it.visited, found);
    FoundIsClosed(g, root, it.visited, found);
  }

  lemma TraversedAll(g: QueryGraph, root: Id, now: set<Id>, found: seq<Id>)
    requires root in g && Traversed(g, [root], {}, now, found)
    ensures InternalOnes(g, found) == now
    ensures forall n | Leaf(g, n) :: multiset(found)[n] == Listings(g, InternalOnes(g, found), n) + (if n == root then 1 else 0)
    ensures forall n | n in found :: Reachable(g, root, n)
  {
    assert now - {} == now;
    assert forall q | q in g && Internal(g[q]) :: q in found <==> multiset(found)[q] > 0;
  }

  lemma FoundIsClosed(g: QueryGraph, root: Id, now: set<Id>, found: seq<Id>)
    requires WellFormed(g) && root in g && Traversed(g, [root], {}, now, found)
    ensures forall n | Reachable(g, root, n) :: n in found
  {
    var all := set n | n in found;
    assert forall n | n in now :: multiset(found)[n] == 1;
    assert root in [root];
    forall q | q in all && q in g
      ensures forall n | n in Neighbors(g[q]) :: n in all
    {
      if Internal(g[q]) {
        assert multiset(found)[q] > 0;
        assert AllMet(Neighbors(g[q]), now, found);
      } else {
        LeafHasNoNeighbors(g[q]);
      }
    }
    ClosedHoldsReachable(g, all, root);
  }
}
