/**
 Pruning expired nodes page by page.  Each page is deleted, edges first, before the next one is
 asked for by the last uid of the page before it.
 */
module TtlPaging {
  import opened Wrappers

  datatype Edge = Edge(src: nat, name: string, dst: nat)

  // A row of an answer: for each edge predicate the uids at its other end.
  datatype Entity = Entity(uid: nat, fields: map<string, seq<nat>>)

  // ---------------------------------------------------------------- what is expired

  // The nodes whose last index time is known and is not after the cutoff.
  function Expired(nodes: map<nat, Option<int>>, cutoff: int): set<nat> {
    set uid | uid in nodes && nodes[uid].Some? && nodes[uid].value <= cutoff
  }

  predicate IsAfter(uid: nat, last: Option<nat>) {
    last.None? || last.value < uid
  }

  function After(uids: set<nat>, last: Option<nat>): set<nat> {
    set uid | uid in uids && IsAfter(uid, last)
  }

  predicate Increasing(uids: seq<nat>) {
    forall i, j | 0 <= i < j < |uids| :: uids[i] < uids[j]
  }

  function Members(uids: seq<nat>): set<nat> {
    set uid | uid in uids
  }

  // The first `count` members of `uids` in uid order.
  ghost predicate IsPage(uids: set<nat>, count: nat, page: seq<nat>) {
    && Increasing(page) && Members(page) <= uids && |page| <= count
    && (forall i, uid | 0 <= i < |page| && uid in uids - Members(page) :: page[i] < uid)
    && (|page| < count ==> Members(page) == uids)
  }

  method Least(uids: set<nat>) returns (least: nat)
    requires uids != {}
    ensures least in uids && forall uid | uid in uids :: least <= uid
  {
    least :| least in uids;
    var rest := uids - {least};
    while rest != {}
      invariant rest <= uids && least in uids
      invariant forall uid | uid in uids :: uid in rest || least <= uid
      decreases rest
    {
      var uid :| uid in rest;
      if uid < least {
        least := uid;
      }
      rest := rest - {uid};
    }
  }

  method FirstPage(uids: set<nat>, count: nat) returns (page: seq<nat>)
    ensures IsPage(uids, count, page)
  {
    page := [];
    var rest := uids;
    while rest != {} && |page| < count
      invariant rest == uids - Members(page) && Members(page) <= uids
      invariant Increasing(page) && |page| <= count
      invariant forall i, uid | 0 <= i < |page| && uid in rest :: page[i] < uid
      decreases rest
    {
      var least := Least(rest);
      assert Members(page + [least]) == Members(page) + {least};
      page := page + [least];
      rest := rest - {least};
    }
    if rest == {} {
      NoneLeft(uids, Members(page));
    }
  }

  lemma NoneLeft(uids: set<nat>, taken: set<nat>)
    requires taken <= uids && uids - taken == {}
    ensures taken == uids
  {
    forall uid | uid in uids
      ensures uid in taken
    {
      assert uid !in uids - taken;
    }
  }

  // The node was last indexed `ttl` seconds before `now`, or earlier; both are known in
  // milliseconds.
  predicate IsOutdated(nodes: map<nat, Option<int>>, now: int, ttl: int, uid: nat) {
    uid in nodes && nodes[uid].Some? && now - nodes[uid].value >= ttl * 1000
  }

  // What is left of the nodes and the edges: those that are not outdated, as they were, and
  // those that neither start nor, if their name has a reverse, end at an outdated node.
  ghost predicate Leaves(before: map<nat, Option<int>>, after: map<nat, Option<int>>,
                         edgesBefore: set<Edge>, edgesAfter: set<Edge>, reversed: set<string>, now: int, ttl: int) {
    && (forall uid :: uid in after <==> uid in before && !IsOutdated(before, now, ttl, uid))
    && (forall uid | uid in after :: after[uid] == before[uid])
    && (forall e :: e in edgesAfter <==>
          && e in edgesBefore && !IsOutdated(before, now, ttl, e.src)
          && !(e.name in reversed && IsOutdated(before, now, ttl, e.dst)))
  }

  lemma ExpiredLeaves(nodes: map<nat, Option<int>>, edges: set<Edge>, reversed: set<string>, now: int, ttl: int)
    ensures var expired := Expired(nodes, now - ttl * 1000);
            && (forall uid :: uid in expired <==> IsOutdated(nodes, now, ttl, uid))
            && Leaves(nodes, nodes - expired, edges, Untouched(edges, expired, reversed), reversed, now, ttl)
  {
  }

  // ---------------------------------------------------------------- edges

  // An edge shows at its source under its predicate, and at its target under "~" and its
  // predicate if that has a reverse.
  ghost predicate Shown(edges: set<Edge>, reversed: set<string>, uid: nat, key: string, other: nat) {
    || Edge(uid, key, other) in edges
    || (key != "" && key[0] == '~' && key[1..] in reversed && Edge(other, key[1..], uid) in edges)
  }

  ghost predicate Shows(edges: set<Edge>, reversed: set<string>, entity: Entity) {
    forall key, other :: HasField(entity.fields, key, other) <==> Shown(edges, reversed, entity.uid, key, other)
  }

  predicate HasField(fields: map<string, seq<nat>>, key: string, other: nat) {
    key in fields && other in fields[key]
  }

  function WithField(fields: map<string, seq<nat>>, key: string, other: nat): map<string, seq<nat>> {
    fields[key := (if key in fields then fields[key] else []) + [other]]
  }

  function StripTildes(key: string): string {
    if key != "" && key[0] == '~' then StripTildes(key[1..]) else key
  }

  // The edge to delete for what shows at `src` under `key`.
  function EdgeObject(src: nat, key: string, dst: nat): Edge {
    if key != "" && key[0] == '~' then Edge(dst, StripTildes(key), src) else Edge(src, key, dst)
  }

  predicate Forward(name: string) {
    name == "" || name[0] != '~'
  }

  ghost predicate EdgesOk(edges: set<Edge>) {
    forall e | e in edges :: Forward(e.name)
  }

  predicate Touches(e: Edge, uids: set<nat>, reversed: set<string>) {
    e.src in uids || (e.dst in uids && e.name in reversed)
  }

  function Untouched(edges: set<Edge>, uids: set<nat>, reversed: set<string>): set<Edge> {
    set e | e in edges && !Touches(e, uids, reversed)
  }

  // What shows at a node is deleted as the edge it shows, and every edge that touches the
  // node shows.
  lemma ShownEdges(edges: set<Edge>, reversed: set<string>, uid: nat, key: string, other: nat)
    requires EdgesOk(edges) && Shown(edges, reversed, uid, key, other)
    ensures EdgeObject(uid, key, other) in edges && Touches(EdgeObject(uid, key, other), {uid}, reversed)
  {
    if Edge(uid, key, other) in edges {
      assert Forward(Edge(uid, key, other).name);
    } else {
      assert Forward(Edge(other, key[1..], uid).name);
      assert StripTildes(key) == key[1..];
    }
  }

  lemma TouchedShows(edges: set<Edge>, reversed: set<string>, uid: nat, e: Edge) returns (key: string, other: nat)
    requires EdgesOk(edges) && e in edges && Touches(e, {uid}, reversed)
    ensures Shown(edges, reversed, uid, key, other) && EdgeObject(uid, key, other) == e
  {
    if e.src == uid {
      key, other := e.name, e.dst;
    } else {
      key, other := "~" + e.name, e.src;
      assert key[1..] == e.name;
      assert StripTildes(key) == e.name;
    }
  }

  function NodesOf(entities: seq<Entity>): (uids: seq<nat>)
    ensures |uids| == |entities| && forall i | 0 <= i < |entities| :: uids[i] == entities[i].uid
  {
    seq(|entities|, i requires 0 <= i < |entities| => entities[i].uid)
  }

  datatype Link = Link(src: nat, key: string, dst: nat)

  // The links of the first `count` entities.
  ghost predicate IsLink(entities: seq<Entity>, count: nat, l: Link)
    requires count <= |entities|
  {
    exists i | 0 <= i < count :: entities[i].uid == l.src && HasField(entities[i].fields, l.key, l.dst)
  }

  method Links(entities: seq<Entity>) returns (links: seq<Link>)
    ensures forall l :: l in links <==> IsLink(entities, |entities|, l)
  {
    links := [];
    for i := 0 to |entities|
      invariant forall l :: l in links <==> IsLink(entities, i, l)
    {
      var more := LinksOf(entities[i]);
      forall l
        ensures l in links + more <==> IsLink(entities, i + 1, l)
      {
        assert IsLink(entities, i + 1, l) <==>
               IsLink(entities, i, l) || (entities[i].uid == l.src && HasField(entities[i].fields, l.key, l.dst));
      }
      links := links + more;
    }
  }

  method LinksOf(entity: Entity) returns (links: seq<Link>)
    ensures forall l :: l in links <==> l.src == entity.uid && HasField(entity.fields, l.key, l.dst)
  {
    links := [];
    var rest := entity.fields.Keys;
    while rest != {}
      invariant rest <= entity.fields.Keys
      invariant forall l :: l in links <==> l.src == entity.uid && l.key !in rest && HasField(entity.fields, l.key, l.dst)
      decreases rest
    {
      var key :| key in rest;
      var dsts := entity.fields[key];
      ghost var before := links;
      for k := 0 to |dsts|
        invariant forall l :: l in links <==> l in before || (l.src == entity.uid && l.key == key && l.dst in dsts[..k])
      {
        assert dsts[..k + 1] == dsts[..k] + [dsts[k]];
        links := links + [Link(entity.uid, key, dsts[k])];
      }
      assert dsts[..|dsts|] == dsts;
      rest := rest - {key};
    }
  }

  // ---------------------------------------------------------------- pruning

  ghost predicate Answers(edges: set<Edge>, reversed: set<string>, page: seq<nat>, entities: seq<Entity>) {
    NodesOf(entities) == page && forall i | 0 <= i < |entities| :: Shows(edges, reversed, entities[i])
  }

  // Deleting the links of a page removes exactly the edges that touch it.
  lemma LinkObjects(edges: set<Edge>, reversed: set<string>, page: seq<nat>, entities: seq<Entity>, e: Edge)
    requires EdgesOk(edges) && Answers(edges, reversed, page, entities)
    ensures (e in edges && exists l :: IsLink(entities, |entities|, l) && EdgeObject(l.src, l.key, l.dst) == e)
            <==> e in edges && Touches(e, Members(page), reversed)
    ensures forall l | IsLink(entities, |entities|, l) :: EdgeObject(l.src, l.key, l.dst) in edges
  {
    forall l | IsLink(entities, |entities|, l)
      ensures EdgeObject(l.src, l.key, l.dst) in edges && Touches(EdgeObject(l.src, l.key, l.dst), Members(page), reversed)
    {
      var i :| 0 <= i < |entities| && entities[i].uid == l.src && HasField(entities[i].fields, l.key, l.dst);
      assert page[i] == l.src;
      ShownEdges(edges, reversed, l.src, l.key, l.dst);
    }
    if e in edges && Touches(e, Members(page), reversed) {
      var uid := if e.src in page then e.src else e.dst;
      var i :| 0 <= i < |page| && page[i] == uid;
      var key, other := TouchedShows(edges, reversed, uid, e);
      assert entities[i].uid == uid && HasField(entities[i].fields, key, other);
      assert IsLink(entities, |entities|, Link(uid, key, other));
    }
  }

  function Objects(links: seq<Link>): set<Edge> {
    set l | l in links :: EdgeObject(l.src, l.key, l.dst)
  }

  lemma {:induction false} ObjectsCount(links: seq<Link>)
    ensures |Objects(links)| <= |links|
    decreases |links|
  {
    if links != [] {
      var front, last := links[..|links| - 1], links[|links| - 1];
      ObjectsCount(front);
      assert links == front + [last];
      assert Objects(links) == Objects(front) + {EdgeObject(last.src, last.key, last.dst)};
    }
  }

  lemma RestCount(edges: set<Edge>, deleted: set<Edge>)
    ensures |edges| <= |edges - deleted| + |deleted|
  {
    assert edges <= (edges - deleted) + deleted;
    SubsetCount(edges, (edges - deleted) + deleted);
  }

  lemma {:induction false} SubsetCount(a: set<Edge>, b: set<Edge>)
    requires a <= b
    ensures |a| <= |b|
    decreases |a|
  {
    if a != {} {
      var e :| e in a;
      SubsetCount(a - {e}, b - {e});
    }
  }

  function Joined(pages: seq<seq<nat>>): seq<nat> {
    if pages == [] then [] else Joined(pages[..|pages| - 1]) + pages[|pages| - 1]
  }

  predicate LastOf(uids: seq<nat>, last: Option<nat>) {
    last == if uids == [] then None else Some(uids[|uids| - 1])
  }

  // Whatever the pages so far took, the rest lies after the last uid.
  lemma RestIsAfter(all: set<nat>, gone: seq<nat>, last: Option<nat>)
    requires IsPage(all, |gone|, gone) && LastOf(gone, last)
    ensures After(all - Members(gone), last) == all - Members(gone)
  {
    forall uid | uid in all - Members(gone)
      ensures IsAfter(uid, last)
    {
      if gone != [] {
        assert gone[|gone| - 1] < uid;
      }
    }
  }

  // A page of the rest goes on where the pages before it ended.
  lemma PageStep(all: set<nat>, gone: seq<nat>, count: nat, page: seq<nat>)
    requires IsPage(all, |gone|, gone) && IsPage(all - Members(gone), count, page)
    ensures IsPage(all, |gone + page|, gone + page)
    ensures |page| < count ==> Members(gone + page) == all
  {
    assert Members(gone + page) == Members(gone) + Members(page);
    forall i, uid | 0 <= i < |gone + page| && uid in all - Members(gone + page)
      ensures (gone + page)[i] < uid
    {
      assert uid in all - Members(gone) && uid in (all - Members(gone)) - Members(page);
      if i >= |gone| {
        assert page[i - |gone|] < uid;
      }
    }
    forall i, j | 0 <= i < j < |gone + page|
      ensures (gone + page)[i] < (gone + page)[j]
    {
      if i < |gone| <= j {
        assert page[j - |gone|] in Members(page);
        assert gone[i] < page[j - |gone|];
      }
    }
  }

  lemma NewMember(gone: seq<nat>, page: seq<nat>)
    requires page != [] && Increasing(gone + page)
    ensures Members(gone) < Members(gone + page)
  {
    assert (gone + page)[|gone|] == page[0];
    assert page[0] in Members(gone + page);
    assert forall i | 0 <= i < |gone| :: gone[i] == (gone + page)[i] < page[0];
  }

  // Deleting a page after the pages before it.
  lemma DeletionStep(edges: set<Edge>, gone: seq<nat>, page: seq<nat>, reversed: set<string>)
    ensures var left := Untouched(Untouched(edges, Members(gone), reversed), Members(page), reversed);
            left == Untouched(edges, Members(gone + page), reversed)
            && (set e | e in left && e.src !in page) == left
  {
    assert Members(gone + page) == Members(gone) + Members(page);
    forall e: Edge
      ensures Touches(e, Members(gone + page), reversed) <==> Touches(e, Members(gone), reversed) || Touches(e, Members(page), reversed)
    {
    }
  }

  lemma ExpiredLeft(nodes: map<nat, Option<int>>, cutoff: int, gone: set<nat>)
    ensures Expired(nodes - gone, cutoff) == Expired(nodes, cutoff) - gone
  {
  }

  // ---------------------------------------------------------------- rounds

  ghost predicate AllFull(pages: seq<seq<nat>>, count: nat) {
    forall i | 0 <= i < |pages| :: |pages[i]| == count
  }

  // The pages of the rounds of the loop: each is the first page of what is left, and all
  // before the last are full, as the loop goes on only after a full one.
  ghost predicate Rounds(all: set<nat>, count: nat, pages: seq<seq<nat>>) {
    pages == [] ||
    var front, last := pages[..|pages| - 1], pages[|pages| - 1];
    Rounds(all, count, front) && AllFull(front, count) && IsPage(all - Members(Joined(front)), count, last)
  }

  lemma NextRound(all: set<nat>, count: nat, pages: seq<seq<nat>>, page: seq<nat>)
    requires Rounds(all, count, pages) && AllFull(pages, count) && IsPage(all - Members(Joined(pages)), count, page)
    ensures Rounds(all, count, pages + [page]) && Joined(pages + [page]) == Joined(pages) + page
    ensures |page| == count ==> AllFull(pages + [page], count)
  {
    assert (pages + [page])[..|pages|] == pages;
  }

  lemma {:induction false} IncreasingCount(uids: seq<nat>)
    requires Increasing(uids)
    ensures |Members(uids)| == |uids|
    decreases |uids|
  {
    if uids != [] {
      var front, last := uids[..|uids| - 1], uids[|uids| - 1];
      IncreasingCount(front);
      assert Members(uids) == Members(front) + {last};
    }
  }

  lemma {:induction false} RoundsArePage(all: set<nat>, count: nat, pages: seq<seq<nat>>)
    requires Rounds(all, count, pages)
    ensures IsPage(all, |Joined(pages)|, Joined(pages))
    ensures AllFull(pages, count) ==> |Joined(pages)| == |pages| * count
    decreases |pages|
  {
    if pages != [] {
      var front, last := pages[..|pages| - 1], pages[|pages| - 1];
      RoundsArePage(all, count, front);
      PageStep(all, Joined(front), count, last);
      assert |pages| * count == |front| * count + count;
    }
  }

  lemma Rest(all: set<nat>, gone: set<nat>)
    requires gone <= all
    ensures |all - gone| == |all| - |gone|
  {
    assert all == gone + (all - gone);
  }

  lemma PageCount(uids: set<nat>, count: nat, page: seq<nat>)
    requires IsPage(uids, count, page)
    ensures |page| == if |uids| < count then |uids| else count
  {
    IncreasingCount(page);
    Rest(uids, Members(page));
  }

  lemma OneMore(n: nat, count: nat)
    ensures (n + 1) * count == n * count + count
  {
  }

  // The loop ends after `n` rounds exactly when n times the batch size exceeds the number of
  // expired nodes: after their quotient and one more round, and with batch size 0 never.
  lemma RoundsFinish(all: set<nat>, count: nat, pages: seq<seq<nat>>)
    requires Rounds(all, count, pages) && pages != []
    ensures |pages[|pages| - 1]| < count <==> |pages| * count > |all|
  {
    var front, last := pages[..|pages| - 1], pages[|pages| - 1];
    RoundsArePage(all, count, front);
    IncreasingCount(Joined(front));
    Rest(all, Members(Joined(front)));
    PageCount(all - Members(Joined(front)), count, last);
    OneMore(|front|, count);
  }

  // The values of the pruning loop after some rounds, of which `pages` are those with nodes.
  ghost predicate Pruning(all: set<nat>, count: nat, rounds: seq<seq<nat>>, pages: seq<seq<nat>>, last: Option<nat>, finished: bool) {
    && Rounds(all, count, rounds) && Joined(rounds) == Joined(pages)
    && IsPage(all, |Joined(pages)|, Joined(pages)) && LastOf(Joined(pages), last)
    && (forall page | page in pages :: 0 < |page| <= count)
    && (if finished then rounds != [] && |rounds[|rounds| - 1]| < count && Members(Joined(pages)) == all
        else AllFull(rounds, count))
  }

  lemma PruningStep(all: set<nat>, count: nat, rounds: seq<seq<nat>>, pages: seq<seq<nat>>, last: Option<nat>, page: seq<nat>)
    requires Pruning(all, count, rounds, pages, last, false) && IsPage(all - Members(Joined(pages)), count, page)
    ensures var pages' := if page == [] then pages else pages + [page];
            && Joined(pages') == Joined(pages) + page
            && Pruning(all, count, rounds + [page], pages',
                       if page == [] then last else Some(page[|page| - 1]), |page| < count)
    ensures page != [] ==> Members(Joined(pages)) < Members(Joined(pages) + page)
  {
    NextRound(all, count, rounds, page);
    PageStep(all, Joined(pages), count, page);
    if page == [] {
      assert Joined(pages) + page == Joined(pages);
    } else {
      assert (pages + [page])[..|pages|] == pages;
      NewMember(Joined(pages), page);
    }
    assert (rounds + [page])[|rounds|] == page;
  }

  class Database {
    var nodes: map<nat, Option<int>>
    var edges: set<Edge>
    const reversed: set<string>

    constructor (nodes: map<nat, Option<int>>, edges: set<Edge>, reversed: set<string>)
      ensures this.nodes == nodes && this.edges == edges && this.reversed == reversed
    {
      this.nodes, this.edges, this.reversed := nodes, edges, reversed;
    }

    // All that shows at a node.
    method Expand(uid: nat) returns (entity: Entity)
      ensures entity.uid == uid && Shows(edges, reversed, entity)
    {
      var fields: map<string, seq<nat>> := map[];
      var rest := edges;
      while rest != {}
        invariant rest <= edges
        invariant forall key, other :: HasField(fields, key, other) <==> Shown(edges - rest, reversed, uid, key, other)
        decreases rest
      {
        var e :| e in rest;
        ghost var before, shown := fields, edges - rest;
        rest := rest - {e};
        if e.src == uid {
          fields := WithField(fields, e.name, e.dst);
        }
        if e.dst == uid && e.name in reversed {
          fields := WithField(fields, "~" + e.name, e.src);
        }
        ShownGrows(shown, reversed, uid, e, before, fields);
        assert edges - rest == shown + {e};
      }
      assert edges - rest == edges;
      entity := Entity(uid, fields);
    }

    method QueryBatch(count: nat, cutoff: int, last: Option<nat>) returns (entities: seq<Entity>)
      ensures IsPage(After(Expired(nodes, cutoff), last), count, NodesOf(entities))
      ensures Answers(edges, reversed, NodesOf(entities), entities)
    {
      var page := FirstPage(After(Expired(nodes, cutoff), last), count);
      entities := [];
      for i := 0 to |page|
        invariant Answers(edges, reversed, page[..i], entities)
      {
        var entity := Expand(page[i]);
        entities := entities + [entity];
        assert page[..i + 1] == page[..i] + [page[i]];
      }
      assert page[..|page|] == page;
    }

    method DeleteEdges(entities: seq<Entity>, ghost page: seq<nat>) returns (count: nat)
      requires EdgesOk(edges) && Answers(edges, reversed, page, entities)
      modifies this`edges
      ensures edges == Untouched(old(edges), Members(page), reversed)
      ensures |old(edges)| <= |edges| + count
    {
      var links := Links(entities);
      count := |links|;
      var deleted := Objects(links);
      ObjectsCount(links);
      RestCount(edges, deleted);
      forall e | e in edges
        ensures e in deleted <==> Touches(e, Members(page), reversed)
      {
        LinkObjects(edges, reversed, page, entities, e);
        assert forall l | l in links :: IsLink(entities, |entities|, l);
      }
      edges := edges - deleted;
    }

    method DeleteNodes(uids: seq<nat>) returns (count: nat)
      modifies this
      ensures nodes == old(nodes) - Members(uids) && count == |uids|
      ensures edges == set e | e in old(edges) && e.src !in uids
    {
      count := |uids|;
      nodes := nodes - Members(uids);
      edges := set e | e in edges && e.src !in uids;
    }

    // One round: the page that was asked for is deleted with its edges.
    method PrunePage(count: nat, cutoff: int, last: Option<nat>, ghost start: map<nat, Option<int>>,
                     ghost startEdges: set<Edge>, ghost gone: seq<nat>)
      returns (page: seq<nat>, nodeCount: nat, edgeCount: nat)
      requires EdgesOk(startEdges) && IsPage(Expired(start, cutoff), |gone|, gone) && LastOf(gone, last)
      requires nodes == start - Members(gone) && edges == Untouched(startEdges, Members(gone), reversed)
      modifies this
      ensures |page| <= count && nodeCount == |page|
      ensures IsPage(Expired(start, cutoff) - Members(gone), count, page)
      ensures IsPage(Expired(start, cutoff), |gone + page|, gone + page)
      ensures |page| < count ==> Members(gone + page) == Expired(start, cutoff)
      ensures nodes == start - Members(gone + page) && edges == Untouched(startEdges, Members(gone + page), reversed)
      ensures |old(edges)| <= |edges| + edgeCount
    {
      var entities := QueryBatch(count, cutoff, last);
      page := NodesOf(entities);
      ExpiredLeft(start, cutoff, Members(gone));
      RestIsAfter(Expired(start, cutoff), gone, last);
      PageStep(Expired(start, cutoff), gone, count, page);
      DeletionStep(startEdges, gone, page, reversed);
      nodeCount, edgeCount := 0, 0;
      if |entities| > 0 {
        edgeCount := DeleteEdges(entities, page);
        nodeCount := DeleteNodes(page);
      }
      assert Members(gone + page) == Members(gone) + Members(page);
    }

    // The loop: it ends with a page that is not full.
    method PruneRounds(cutoff: int, batchSize: nat)
      returns (pages: seq<seq<nat>>, nodeCount: nat, edgeCount: nat, ghost rounds: seq<seq<nat>>, ghost last: Option<nat>)
      requires EdgesOk(edges) && batchSize >= 1
      modifies this
      ensures Pruning(Expired(old(nodes), cutoff), batchSize, rounds, pages, last, true)
      ensures nodes == old(nodes) - Members(Joined(pages)) && edges == Untouched(old(edges), Members(Joined(pages)), reversed)
      ensures nodeCount == |Joined(pages)| && |old(edges)| <= |edges| + edgeCount
    {
      pages, nodeCount, edgeCount, rounds := [], 0, 0, [];
      var lastUid: Option<nat> := None;
      ghost var all := Expired(nodes, cutoff);
      var finished := false;
      while !finished
        invariant Pruning(all, batchSize, rounds, pages, lastUid, finished)
        invariant nodes == old(nodes) - Members(Joined(pages))
        invariant edges == Untouched(old(edges), Members(Joined(pages)), reversed)
        invariant nodeCount == |Joined(pages)| && |old(edges)| <= |edges| + edgeCount
        decreases all - Members(Joined(pages)), !finished
      {
        ghost var gone := Joined(pages);
        var page, deletedNodes, deletedEdges := PrunePage(batchSize, cutoff, lastUid, old(nodes), old(edges), gone);
        PruningStep(all, batchSize, rounds, pages, lastUid, page);
        rounds := rounds + [page];
        if |page| > 0 {
          lastUid := Some(page[|page| - 1]);
          pages := pages + [page];
          nodeCount, edgeCount := nodeCount + deletedNodes, edgeCount + deletedEdges;
        } else {
          assert gone + page == gone;
        }
        if |page| < batchSize {
          finished := true;
        }
      }
      last := lastUid;
    }

    // The pages together are the expired nodes in uid order, each once, although each page
    // is gone when the next is asked for; what is left is what had not expired, and the
    // edges that show at no expired node.
    method PruneExpired(now: int, ttl: int, batchSize: nat)
      returns (pages: seq<seq<nat>>, nodeCount: nat, edgeCount: nat, ghost rounds: seq<seq<nat>>)
      requires EdgesOk(edges) && (ttl > 0 ==> batchSize >= 1)
      modifies this
      ensures ttl <= 0 ==> pages == [] && nodes == old(nodes) && edges == old(edges)
      ensures ttl > 0 ==>
        var expired := Expired(old(nodes), now - ttl * 1000);
        && Increasing(Joined(pages)) && Members(Joined(pages)) == expired
        && (forall page | page in pages :: 0 < |page| <= batchSize)
        && nodeCount == |Joined(pages)|
        && nodes == old(nodes) - expired
        && edges == Untouched(old(edges), expired, reversed)
        && |old(edges)| <= |edges| + edgeCount
        && (forall uid :: uid in Joined(pages) <==> IsOutdated(old(nodes), now, ttl, uid))
        && Leaves(old(nodes), nodes, old(edges), edges, reversed, now, ttl)
        && Rounds(expired, batchSize, rounds) && rounds != [] && |rounds[|rounds| - 1]| < batchSize
        && Joined(rounds) == Joined(pages)
    {
      pages, nodeCount, edgeCount, rounds := [], 0, 0, [];
      if ttl <= 0 {
        return;
      }
      ExpiredLeaves(nodes, edges, reversed, now, ttl);
      ghost var last;
      pages, nodeCount, edgeCount, rounds, last := PruneRounds(now - ttl * 1000, batchSize);
    }
  }

  lemma ShownGrows(edges: set<Edge>, reversed: set<string>, uid: nat, e: Edge,
                   before: map<string, seq<nat>>, fields: map<string, seq<nat>>)
    requires forall key, other :: HasField(before, key, other) <==> Shown(edges, reversed, uid, key, other)
    requires var half := if e.src == uid then WithField(before, e.name, e.dst) else before;
             fields == if e.dst == uid && e.name in reversed then WithField(half, "~" + e.name, e.src) else half
    ensures forall key, other :: HasField(fields, key, other) <==> Shown(edges + {e}, reversed, uid, key, other)
  {
    forall key, other
      ensures HasField(fields, key, other) <==> Shown(edges + {e}, reversed, uid, key, other)
    {
      assert HasField(before, key, other) <==> Shown(edges, reversed, uid, key, other);
      assert ("~" + e.name)[1..] == e.name;
      if key != "" && key[0] == '~' {
        assert key == "~" + key[1..];
      }
    }
  }
}
