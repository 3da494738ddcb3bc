/**
 Reverse edges: the resolver that looks edge names up in the schema table through an LRU,
 and the closing of a subgraph's edges under reversal before it is upserted.
 */
module ReverseEdges {
  import opened Wrappers
  import opened Lru
  import opened Graphs

  // Edge name to the name of its reverse, if its row has one.
  type Schema = map<string, Option<string>>

  predicate Known(schema: Schema, name: string) {
    name in schema && schema[name].Some?
  }

  // The reverse of a reverse is the edge itself.
  predicate Involutive(schema: Schema) {
    forall f | f in schema && schema[f].Some? :: Known(schema, schema[f].value) && schema[schema[f].value].value == f
  }

  function ReverseEdge(e: Edge, name: string): Edge {
    Edge(e.toNodeKey, e.fromNodeKey, name, None)
  }

  function Reversed(schema: Schema, e: Edge): Edge
    requires Known(schema, e.edgeName)
  {
    ReverseEdge(e, schema[e.edgeName].value)
  }

  // `x` goes the other way, under the name that the schema pairs with that of `e`.
  predicate IsReverse(schema: Schema, e: Edge, x: Edge) {
    && x.fromNodeKey == e.toNodeKey && x.toNodeKey == e.fromNodeKey
    && e.edgeName in schema && schema[e.edgeName] == Some(x.edgeName)
    && x.uids == None
  }

  // Every cached entry is the schema's.
  predicate Agrees(schema: Schema, cache: Entries<string, string>) {
    forall e | e in cache :: Known(schema, e.0) && schema[e.0].value == e.1
  }

  // What the resolver caches for one resolved edge.
  function Cached(cap: nat, cache: Entries<string, string>, f: string, r: string): Entries<string, string> {
    Inserted(cap, Inserted(cap, cache, f, r), r, f)
  }

  function TouchedAll(cache: Entries<string, string>, edges: seq<Edge>): Entries<string, string> {
    if edges == [] then cache else Touched(TouchedAll(cache, edges[..|edges| - 1]), edges[|edges| - 1].edgeName)
  }

  // The edges that the cache cannot reverse, in order.
  function Misses(edges: seq<Edge>, names: set<string>): seq<Edge> {
    if edges == [] then [] else
    Misses(edges[..|edges| - 1], names) + (if edges[|edges| - 1].edgeName in names then [] else [edges[|edges| - 1]])
  }

  lemma {:induction false} MissesMembers(edges: seq<Edge>, names: set<string>)
    ensures forall e :: e in Misses(edges, names) <==> e in edges && e.edgeName !in names
  {
    if edges != [] {
      var front, last := edges[..|edges| - 1], edges[|edges| - 1];
      MissesMembers(front, names);
      assert edges == front + [last];
    }
  }

  // What the resolver caches for the edges it looked up in the schema table.
  function CachedAll(schema: Schema, cap: nat, cache: Entries<string, string>, edges: seq<Edge>): Entries<string, string> {
    if edges == [] then cache else
    var before, last := CachedAll(schema, cap, cache, edges[..|edges| - 1]), edges[|edges| - 1];
    if Known(schema, last.edgeName) then Cached(cap, before, last.edgeName, schema[last.edgeName].value) else before
  }

  // With room for two names, the edge looked up last can be reversed from the cache, and so
  // can its reverse.
  lemma LastIsCached(schema: Schema, cap: nat, cache: Entries<string, string>, edges: seq<Edge>)
    requires cap >= 2 && edges != [] && Known(schema, edges[|edges| - 1].edgeName)
    ensures var f := edges[|edges| - 1].edgeName; var after := CachedAll(schema, cap, cache, edges);
            f in Keys(after) && schema[f].value in Keys(after)
  {
    var f, r := edges[|edges| - 1].edgeName, schema[edges[|edges| - 1].edgeName].value;
    var before := CachedAll(schema, cap, cache, edges[..|edges| - 1]);
    var first := Inserted(cap, before, f, r);
    InsertedEntries(cap, before, f, r);
    InsertedEntries(cap, first, r, f);
    assert first[0] == (f, r);
    if r != f {
      RemoveKeepsOthers(first, r);
      assert (f, r) in Inserted(cap, first, r, f);
    }
  }

  lemma CachedAgrees(schema: Schema, cap: nat, cache: Entries<string, string>, f: string)
    requires Agrees(schema, cache) && Known(schema, f)
    requires Known(schema, schema[f].value) && schema[schema[f].value].value == f
    ensures Agrees(schema, Cached(cap, cache, f, schema[f].value))
  {
    var r := schema[f].value;
    InsertedEntries(cap, cache, f, r);
    InsertedEntries(cap, Inserted(cap, cache, f, r), r, f);
  }

  // The cache always agrees with the schema exactly when the schema is an involution: the
  // resolver caches both directions after looking up one.
  lemma CacheAgreesIffInvolutive(schema: Schema)
    ensures Involutive(schema) <==>
            forall cap: nat, cache: Entries<string, string>, f: string | Agrees(schema, cache) && Known(schema, f) ::
              Agrees(schema, Cached(cap, cache, f, schema[f].value))
  {
    if Involutive(schema) {
      forall cap: nat, cache: Entries<string, string>, f: string | Agrees(schema, cache) && Known(schema, f)
        ensures Agrees(schema, Cached(cap, cache, f, schema[f].value))
      {
        CachedAgrees(schema, cap, cache, f);
      }
    } else {
      var f :| f in schema && schema[f].Some? && !(Known(schema, schema[f].value) && schema[schema[f].value].value == f);
      var r := schema[f].value;
      InsertedEntries(2, Inserted(2, [], f, r), r, f);
      assert (r, f) in Cached(2, [], f, r);
      assert Agrees(schema, []) && !Agrees(schema, Cached(2, [], f, r));
    }
  }

  // ---------------------------------------------------------------- answers

  ghost function KnownNames(schema: Schema): set<string> {
    set f | f in schema && schema[f].Some?
  }

  // The reverses of those of `edges` whose names are in `names`, in order.
  function ReversesIn(schema: Schema, edges: seq<Edge>, names: set<string>): seq<Edge> {
    if edges == [] then [] else
    var front, last := edges[..|edges| - 1], edges[|edges| - 1];
    ReversesIn(schema, front, names)
    + (if last.edgeName in names && Known(schema, last.edgeName) then [Reversed(schema, last)] else [])
  }

  lemma {:induction false} ReversesMembers(schema: Schema, edges: seq<Edge>, names: set<string>, x: Edge)
    ensures x in ReversesIn(schema, edges, names) <==>
            exists e | e in edges :: e.edgeName in names && IsReverse(schema, e, x)
    decreases |edges|
  {
    if edges != [] {
      var front, last := edges[..|edges| - 1], edges[|edges| - 1];
      ReversesMembers(schema, front, names, x);
      assert edges == front + [last];
    }
  }

  // `out` has exactly the reverses of the edges with known names.
  ghost predicate ReversesOf(schema: Schema, edges: seq<Edge>, out: seq<Edge>) {
    forall x :: x in out <==> exists e | e in edges :: IsReverse(schema, e, x)
  }

  lemma AllReverses(schema: Schema, edges: seq<Edge>)
    ensures ReversesOf(schema, edges, ReversesIn(schema, edges, KnownNames(schema)))
  {
    forall x: Edge
      ensures x in ReversesIn(schema, edges, KnownNames(schema)) <==>
              exists e | e in edges :: IsReverse(schema, e, x)
    {
      ReversesMembers(schema, edges, KnownNames(schema), x);
    }
  }

  // What is reversed from the cache and what from the table is together everything.
  lemma BothTiers(schema: Schema, edges: seq<Edge>, names: set<string>, remaining: seq<Edge>, out: seq<Edge>)
    requires names <= KnownNames(schema)
    requires forall e :: e in remaining <==> e in edges && e.edgeName !in names
    requires forall x :: x in out <==>
               x in ReversesIn(schema, edges, names) || x in ReversesIn(schema, remaining, KnownNames(schema))
    ensures ReversesOf(schema, edges, out)
  {
    forall x: Edge
      ensures x in out <==> exists e | e in edges :: IsReverse(schema, e, x)
    {
      ReversesMembers(schema, edges, names, x);
      ReversesMembers(schema, remaining, KnownNames(schema), x);
    }
  }

  // One reverse for each edge, in the same order.
  predicate ReversesInOrder(schema: Schema, edges: seq<Edge>, out: seq<Edge>) {
    |out| == |edges| && forall i | 0 <= i < |edges| :: IsReverse(schema, edges[i], out[i])
  }

  lemma {:induction false} KnownInOrder(schema: Schema, edges: seq<Edge>)
    requires forall e | e in edges :: Known(schema, e.edgeName)
    ensures ReversesInOrder(schema, edges, ReversesIn(schema, edges, KnownNames(schema)))
    decreases |edges|
  {
    if edges != [] {
      assert edges[|edges| - 1] in edges;
      KnownInOrder(schema, edges[..|edges| - 1]);
    }
  }

  // What the cache can reverse, with the names it has.
  ghost predicate ReversesOfNames(schema: Schema, edges: seq<Edge>, names: set<string>, out: seq<Edge>) {
    forall x :: x in out <==> exists e | e in edges :: e.edgeName in names && IsReverse(schema, e, x)
  }

  lemma NamedReverses(schema: Schema, edges: seq<Edge>, names: set<string>)
    ensures ReversesOfNames(schema, edges, names, ReversesIn(schema, edges, names))
  {
    forall x: Edge
      ensures x in ReversesIn(schema, edges, names) <==>
              exists e | e in edges :: e.edgeName in names && IsReverse(schema, e, x)
    {
      ReversesMembers(schema, edges, names, x);
    }
  }

  lemma {:induction false} OnlyCached(schema: Schema, edges: seq<Edge>, names: set<string>)
    requires names <= KnownNames(schema) && forall e | e in edges :: e.edgeName in names
    ensures ReversesIn(schema, edges, names) == ReversesIn(schema, edges, KnownNames(schema))
    decreases |edges|
  {
    if edges != [] {
      assert edges[|edges| - 1] in edges;
      OnlyCached(schema, edges[..|edges| - 1], names);
    }
  }

  // ---------------------------------------------------------------- the order of edges

  // Strings are ordered by their first difference, edges by source, target and name.
  predicate Before(a: string, b: string) {
    b != "" && (a == "" || a[0] < b[0] || (a[0] == b[0] && Before(a[1..], b[1..])))
  }

  lemma {:induction false} BeforeIsTotal(a: string, b: string)
    ensures Before(a, b) || a == b || Before(b, a)
    ensures !(Before(a, b) && Before(b, a)) && !Before(a, a)
    decreases |a|
  {
    if a != "" {
      BeforeIsTotal(a[1..], a[1..]);
      if b != "" && a[0] == b[0] {
        BeforeIsTotal(a[1..], b[1..]);
        assert a == [a[0]] + a[1..] && b == [b[0]] + b[1..];
      }
    }
  }

  // `a` is smaller at the first difference, or ends before there is one.
  predicate SmallerAt(a: string, b: string, i: nat) {
    i <= |a| && i < |b| && a[..i] == b[..i] && (i == |a| || a[i] < b[i])
  }

  lemma {:induction false} BeforeIsLexicographic(a: string, b: string)
    ensures Before(a, b) <==> exists i :: SmallerAt(a, b, i)
    decreases |a|
  {
    if a == "" {
      assert b != "" ==> SmallerAt(a, b, 0);
    } else if b != "" {
      BeforeIsLexicographic(a[1..], b[1..]);
      if a[0] == b[0] {
        if i: nat :| SmallerAt(a[1..], b[1..], i) {
          assert a[..i + 1] == [a[0]] + a[1..][..i] && b[..i + 1] == [b[0]] + b[1..][..i];
          assert SmallerAt(a, b, i + 1);
        }
        if i: nat :| SmallerAt(a, b, i) {
          assert i > 0;
          assert a[1..][..i - 1] == a[..i][1..] && b[1..][..i - 1] == b[..i][1..];
          assert SmallerAt(a[1..], b[1..], i - 1);
        }
      } else {
        assert a[0] < b[0] ==> SmallerAt(a, b, 0);
        assert forall i :: SmallerAt(a, b, i) ==> i == 0 by {
          assert forall i | 0 < i <= |a| && i <= |b| :: a[..i][0] == a[0] && b[..i][0] == b[0];
        }
      }
    }
  }

  lemma {:induction false} BeforeIsTransitive(a: string, b: string, c: string)
    requires Before(a, b) && Before(b, c)
    ensures Before(a, c)
    decreases |a|
  {
    if a != "" && a[0] == b[0] == c[0] {
      BeforeIsTransitive(a[1..], b[1..], c[1..]);
    }
  }

  predicate EdgeBefore(e: Edge, o: Edge) {
    || Before(e.fromNodeKey, o.fromNodeKey)
    || (e.fromNodeKey == o.fromNodeKey
        && (Before(e.toNodeKey, o.toNodeKey) || (e.toNodeKey == o.toNodeKey && Before(e.edgeName, o.edgeName))))
  }

  lemma EdgeBeforeIsTotal(e: Edge, o: Edge)
    requires e.uids == o.uids == None
    ensures EdgeBefore(e, o) || e == o || EdgeBefore(o, e)
    ensures !(EdgeBefore(e, o) && EdgeBefore(o, e)) && !EdgeBefore(e, e)
  {
    BeforeIsTotal(e.fromNodeKey, o.fromNodeKey);
    BeforeIsTotal(e.toNodeKey, o.toNodeKey);
    BeforeIsTotal(e.edgeName, o.edgeName);
    BeforeIsTotal(e.fromNodeKey, e.fromNodeKey);
    BeforeIsTotal(e.toNodeKey, e.toNodeKey);
    BeforeIsTotal(e.edgeName, e.edgeName);
  }

  lemma EdgeBeforeIsTransitive(e: Edge, o: Edge, u: Edge)
    requires EdgeBefore(e, o) && EdgeBefore(o, u)
    ensures EdgeBefore(e, u)
  {
    if Before(e.fromNodeKey, o.fromNodeKey) && Before(o.fromNodeKey, u.fromNodeKey) {
      BeforeIsTransitive(e.fromNodeKey, o.fromNodeKey, u.fromNodeKey);
    } else if Before(e.toNodeKey, o.toNodeKey) && Before(o.toNodeKey, u.toNodeKey) {
      BeforeIsTransitive(e.toNodeKey, o.toNodeKey, u.toNodeKey);
    } else if Before(e.edgeName, o.edgeName) && Before(o.edgeName, u.edgeName) {
      BeforeIsTransitive(e.edgeName, o.edgeName, u.edgeName);
    }
  }

  // Strictly increasing, so without duplicates.
  ghost predicate Sorted(s: seq<Edge>) {
    forall i, j | 0 <= i < j < |s| :: EdgeBefore(s[i], s[j])
  }

  // sort and dedup
  method SortDedup(s: seq<Edge>) returns (d: seq<Edge>)
    requires forall e | e in s :: e.uids == None
    ensures Sorted(d) && forall e :: e in d <==> e in s
  {
    d := [];
    for i := 0 to |s|
      invariant Sorted(d) && forall e :: e in d <==> e in s[..i]
    {
      assert s[..i + 1] == s[..i] + [s[i]] && s[i] in s;
      d := InsertSorted(d, s[i]);
    }
    assert s[..|s|] == s;
  }

  method InsertSorted(d: seq<Edge>, e: Edge) returns (r: seq<Edge>)
    requires Sorted(d) && e.uids == None && forall o | o in d :: o.uids == None
    ensures Sorted(r) && forall o :: o in r <==> o in d || o == e
  {
    var i := 0;
    while i < |d| && EdgeBefore(d[i], e)
      invariant i <= |d| && forall j | 0 <= j < i :: EdgeBefore(d[j], e)
    {
      i := i + 1;
    }
    if i < |d| && d[i] == e {
      return d;
    }
    r := d[..i] + [e] + d[i..];
    assert d == d[..i] + d[i..];
    forall j | i <= j < |d|
      ensures EdgeBefore(e, d[j])
    {
      EdgeBeforeIsTotal(d[i], e);
      if j > i {
        EdgeBeforeIsTransitive(e, d[i], d[j]);
      }
    }
    forall j, k | 0 <= j < k < |r|
      ensures EdgeBefore(r[j], r[k])
    {
    }
  }

  // ---------------------------------------------------------------- the resolver

  class ReverseEdgeResolver {
    const schema: Schema
    const cache: LruCache<string, string>

    constructor (schema: Schema, cacheSize: nat)
      ensures this.schema == schema && Valid() && fresh(cache)
    {
      this.schema := schema;
      cache := new LruCache(cacheSize);
    }

    ghost predicate Valid()
      reads cache
    {
      Agrees(schema, cache.entries)
    }

    method ResolveFromCache(edges: seq<Edge>) returns (reversed: seq<Edge>, remaining: seq<Edge>)
      requires Valid()
      modifies cache
      ensures Valid() && Keys(cache.entries) == old(Keys(cache.entries))
      ensures cache.entries == TouchedAll(old(cache.entries), edges)
      ensures reversed == ReversesIn(schema, edges, Keys(cache.entries))
      ensures ReversesOfNames(schema, edges, Keys(cache.entries), reversed)
      ensures remaining == Misses(edges, Keys(cache.entries))
    {
      reversed, remaining := [], [];
      for i := 0 to |edges|
        invariant Valid() && Keys(cache.entries) == old(Keys(cache.entries))
        invariant cache.entries == TouchedAll(old(cache.entries), edges[..i])
        invariant reversed == ReversesIn(schema, edges[..i], Keys(cache.entries))
        invariant remaining == Misses(edges[..i], Keys(cache.entries))
      {
        var edge := edges[i];
        assert edges[..i + 1] == edges[..i] + [edge] && edges[..i + 1][..i] == edges[..i];
        FindIsMembership(cache.entries, edge.edgeName);
        TouchedKeepsEntries(cache.entries, edge.edgeName);
        var name := cache.Get(edge.edgeName);
        assert name.Some? ==> Known(schema, edge.edgeName) && schema[edge.edgeName].value == name.value;
        match name {
          case Some(r) => reversed := reversed + [ReverseEdge(edge, r)];
          case None => remaining := remaining + [edge];
        }
      }
      assert edges[..|edges|] == edges;
      NamedReverses(schema, edges, Keys(cache.entries));
    }

    // The rows of the schema table for some edge names.
    method GetReverseEdges(names: set<string>, fails: bool) returns (r: Result<Schema, ()>)
      ensures r.Err? <==> fails
      ensures r.Ok? ==> r.value == map n | n in names && n in schema :: schema[n]
    {
      r := if fails then Err(()) else Ok(map n | n in names && n in schema :: schema[n]);
    }

    method ResolveRemaining(remaining: seq<Edge>, rows: Schema) returns (reversed: seq<Edge>)
      requires Valid() && Involutive(schema)
      requires forall e | e in remaining ::
                 (e.edgeName in rows <==> e.edgeName in schema) && (e.edgeName in rows ==> rows[e.edgeName] == schema[e.edgeName])
      modifies cache
      ensures Valid() && reversed == ReversesIn(schema, remaining, KnownNames(schema))
      ensures cache.entries == CachedAll(schema, cache.cap, old(cache.entries), remaining)
    {
      reversed := [];
      for i := 0 to |remaining|
        invariant Valid()
        invariant cache.entries == CachedAll(schema, cache.cap, old(cache.entries), remaining[..i])
        invariant reversed == ReversesIn(schema, remaining[..i], KnownNames(schema))
      {
        var edge := remaining[i];
        assert remaining[..i + 1][..i] == remaining[..i] && edge in remaining;
        if edge.edgeName in rows && rows[edge.edgeName].Some? {
          var r := rows[edge.edgeName].value;
          CachedAgrees(schema, cache.cap, cache.entries, edge.edgeName);
          var _ := cache.Put(edge.edgeName, r);
          var _ := cache.Put(r, edge.edgeName);
          reversed := reversed + [ReverseEdge(edge, r)];
        }
      }
      assert remaining[..|remaining|] == remaining;
    }

    // Whatever the cache holds, the answer has exactly what a direct lookup in the schema
    // gives: in the order of the edges if all names were cached, otherwise sorted and without
    // duplicates.  It fails exactly when a name is not cached and the table cannot be read.
    method ResolveReverseEdges(edges: seq<Edge>, tableFails: bool) returns (r: Result<seq<Edge>, ()>)
      requires Valid() && Involutive(schema)
      modifies cache
      ensures Valid()
      ensures r.Err? <==> tableFails && Uncached(edges, old(Keys(cache.entries)))
      ensures r.Ok? ==> ReversesOf(schema, edges, r.value)
      ensures r.Ok? && Uncached(edges, old(Keys(cache.entries))) ==> Sorted(r.value)
      ensures !Uncached(edges, old(Keys(cache.entries))) ==> r.Ok? && ReversesInOrder(schema, edges, r.value)
      ensures var touched := TouchedAll(old(cache.entries), edges);
              cache.entries == if r.Err? then touched
                               else CachedAll(schema, cache.cap, touched, Misses(edges, old(Keys(cache.entries))))
    {
      AllReverses(schema, edges);
      if edges == [] {
        return Ok([]);
      }
      var fromCache, remaining := ResolveFromCache(edges);
      ghost var cachedNames := Keys(cache.entries);
      MissesMembers(edges, cachedNames);
      CachedNamesKnown(schema, cache.entries);
      if remaining == [] {
        OnlyCached(schema, edges, cachedNames);
        KnownInOrder(schema, edges);
        return Ok(fromCache);
      }
      assert remaining[0] in remaining;
      var rows := GetReverseEdges(set e | e in remaining :: e.edgeName, tableFails);
      if rows.Err? {
        return Err(());
      }
      var fromTable := ResolveRemaining(remaining, rows.value);
      ReversesArePlain(schema, edges, cachedNames);
      ReversesArePlain(schema, remaining, KnownNames(schema));
      var all := SortDedup(fromCache + fromTable);
      BothTiers(schema, edges, cachedNames, remaining, all);
      r := Ok(all);
    }
  }

  ghost predicate Uncached(edges: seq<Edge>, names: set<string>) {
    exists e | e in edges :: e.edgeName !in names
  }

  lemma ReversesArePlain(schema: Schema, edges: seq<Edge>, names: set<string>)
    ensures forall x | x in ReversesIn(schema, edges, names) :: x.uids == None
  {
    forall x | x in ReversesIn(schema, edges, names)
      ensures x.uids == None
    {
      ReversesMembers(schema, edges, names, x);
    }
  }

  lemma CachedNamesKnown(schema: Schema, cache: Entries<string, string>)
    requires Agrees(schema, cache)
    ensures Keys(cache) <= KnownNames(schema)
  {
  }

  // ---------------------------------------------------------------- the merger's edge set

  // With an edge whose name has a reverse, the edge the other way under that name is there.
  ghost predicate ClosedUnderReversal(schema: Schema, edges: multiset<Edge>) {
    forall e | e in edges && e.edgeName in schema && schema[e.edgeName].Some? ::
      Edge(e.toNodeKey, e.fromNodeKey, schema[e.edgeName].value, None) in edges
  }

  ghost predicate Plain(edges: multiset<Edge>) {
    forall e | e in edges :: e.uids == None
  }

  lemma ReversedTwice(schema: Schema, e: Edge, x: Edge)
    requires Involutive(schema) && IsReverse(schema, e, x) && e.uids == None
    ensures IsReverse(schema, x, e)
    ensures Edge(x.toNodeKey, x.fromNodeKey, schema[x.edgeName].value, None) == e
  {
  }

  // All edges with all their reverses are closed under reversal.
  lemma ReversesClose(schema: Schema, edges: seq<Edge>, reversed: seq<Edge>)
    requires Involutive(schema) && Plain(multiset(edges)) && ReversesOf(schema, edges, reversed)
    ensures ClosedUnderReversal(schema, multiset(edges + reversed)) && Plain(multiset(edges + reversed))
  {
    var all := edges + reversed;
    forall x: Edge | x in multiset(all) && x.edgeName in schema && schema[x.edgeName].Some?
      ensures Edge(x.toNodeKey, x.fromNodeKey, schema[x.edgeName].value, None) in multiset(all)
    {
      assert x in all;
      var y := Edge(x.toNodeKey, x.fromNodeKey, schema[x.edgeName].value, None);
      if x in edges {
        assert IsReverse(schema, x, y) && y in reversed;
        assert y in all;
      } else {
        var e :| e in edges && IsReverse(schema, e, x);
        assert e in multiset(edges);
        ReversedTwice(schema, e, x);
        assert e in all;
      }
    }
    forall x: Edge | x in multiset(all)
      ensures x.uids == None
    {
      assert x in all;
      if x in edges {
        assert x in multiset(edges);
      }
    }
  }

  // A loop among the edges and their reverses is a loop, or the reverse of one, among the edges.
  lemma ReversesLoop(schema: Schema, lists: EdgeLists, edges: seq<Edge>, reversed: seq<Edge>)
    requires multiset(edges) == Bag(lists) && Plain(Bag(lists)) && ReversesOf(schema, edges, reversed)
    ensures HasLoop(edges + reversed) <==> !NoSelfLoops(lists)
  {
    LoopFreeBag(lists);
    assert forall e :: e in edges <==> e in multiset(edges);
    assert forall x | x in edges + reversed && x !in edges :: x in reversed;
    assert forall x | x in edges :: x in edges + reversed;
  }

  // Whatever there is more of is the reverse of an old edge.
  ghost predicate OnlyReversesAdded(schema: Schema, before: multiset<Edge>, after: multiset<Edge>) {
    && before <= after
    && forall x | after[x] > before[x] :: exists e | e in before :: IsReverse(schema, e, x)
  }

  lemma AddedReverses(schema: Schema, edges: seq<Edge>, reversed: seq<Edge>)
    requires ReversesOf(schema, edges, reversed)
    ensures OnlyReversesAdded(schema, multiset(edges), multiset(edges + reversed))
  {
    assert multiset(edges + reversed) == multiset(edges) + multiset(reversed);
    forall x: Edge | multiset(edges + reversed)[x] > multiset(edges)[x]
      ensures exists e | e in multiset(edges) :: IsReverse(schema, e, x)
    {
      assert x in multiset(reversed) && x in reversed;
      var e :| e in edges && IsReverse(schema, e, x);
      assert e in multiset(edges);
    }
  }

  datatype Preparation = Prepared(graph: Graph) | TableFailed | Panicked

  // The graph merger's preparation: the nodes of the subgraph, and all of its edges with all
  // their reverses.
  method CloseEdges(resolver: ReverseEdgeResolver, subgraph: Graph, tableFails: bool) returns (r: Preparation)
    requires resolver.Valid() && Involutive(resolver.schema) && Plain(Bag(subgraph.edges))
    modifies resolver.cache
    ensures resolver.Valid()
    ensures r.TableFailed? <==> tableFails && exists e | e in Bag(subgraph.edges) :: e.edgeName !in old(Keys(resolver.cache.entries))
    ensures !r.TableFailed? ==> (r.Panicked? <==> !NoSelfLoops(subgraph.edges))
    ensures r.Prepared? ==>
              && fresh(r.graph) && Grouped(r.graph.edges)
              && (KeyedByOwnKey(subgraph.nodes) ==> r.graph.nodes == subgraph.nodes)
              && ClosedUnderReversal(resolver.schema, Bag(r.graph.edges))
              && OnlyReversesAdded(resolver.schema, Bag(subgraph.edges), Bag(r.graph.edges))
  {
    var edges := Flatten(subgraph.edges);
    assert forall e :: e in edges <==> e in multiset(edges);
    var resolved := resolver.ResolveReverseEdges(edges, tableFails);
    if resolved.Err? {
      return TableFailed;
    }
    ReversesClose(resolver.schema, edges, resolved.value);
    ReversesLoop(resolver.schema, subgraph.edges, edges, resolved.value);
    AddedReverses(resolver.schema, edges, resolved.value);
    var panicked, graph := BuildGraph(subgraph.nodes, edges + resolved.value);
    r := if panicked then Panicked else Prepared(graph);
  }

  method BuildGraph(nodes: Nodes, edges: seq<Edge>) returns (panicked: bool, graph: Graph)
    ensures panicked <==> HasLoop(edges)
    ensures fresh(graph) && (KeyedByOwnKey(nodes) ==> graph.nodes == nodes)
    ensures !panicked ==> Bag(graph.edges) == multiset(edges) && Grouped(graph.edges)
  {
    graph := new Graph();
    var rest := nodes.Keys;
    while rest != {}
      invariant rest <= nodes.Keys && fresh(graph) && graph.edges == map[]
      invariant KeyedByOwnKey(nodes) ==> graph.nodes == nodes - rest
      decreases rest
    {
      var key :| key in rest;
      if KeyedByOwnKey(nodes) {
        AddOwn(nodes, rest, key);
      }
      graph.AddNode(nodes[key]);
      rest := rest - {key};
    }
    assert nodes - {} == nodes;
    PushedAllBag(graph.edges, edges);
    PushedAllGrouped(graph.edges, edges);
    panicked := graph.AddEdges(edges);
  }

  lemma AddOwn(nodes: Nodes, rest: set<string>, key: string)
    requires key in rest && key in nodes && nodes[key].nodeKey == key
    ensures WithNode(nodes - rest, nodes[key]) == nodes - (rest - {key})
  {
  }

  method Flatten(lists: EdgeLists) returns (edges: seq<Edge>)
    ensures multiset(edges) == Bag(lists)
  {
    edges := [];
    var rest := lists.Keys;
    while rest != {}
      invariant rest <= lists.Keys
      invariant multiset(edges) == Bag(lists - rest)
      decreases rest
    {
      var key :| key in rest;
      ghost var after := lists - (rest - {key});
      assert after - {key} == lists - rest && after[key] == lists[key];
      BagRemove(after, key);
      edges := edges + lists[key];
      rest := rest - {key};
    }
    assert lists - {} == lists;
  }
}
