/**
 Upserting nodes: each node becomes a query and conditional mutations; the mutations of a
 chunk run in one transaction; chunks run in any order, and a transaction whose answer was
 lost runs again.
 */
module Upserts {
  import opened Wrappers
  import opened Literals
  import opened Sequences

  // A node to upsert: its position names its query variable and blank node.
  datatype Node = Node(id: nat, key: string, nodeType: string, properties: map<string, string>)

  datatype Stored = Stored(uid: nat, nodeType: string, properties: map<string, string>)

  // The nodes of the database, whose node keys are unique.
  type Store = map<string, Stored>

  datatype Condition = NodeExists | NodeMissing

  datatype Quad = KeyQuad(literal: string) | TypeQuad(nodeType: string) | PropertyQuad(name: string, literal: string)

  // The variable `id` holds the node that the query finds, whose key is the quoted one.  The
  // quads are about that node or, if there is none, about the blank node of the same name.
  datatype Mutation = Mutation(id: nat, query: string, condition: Condition, quads: seq<Quad>)

  // Uids that one transaction would give to blank nodes.
  type Blanks = nat -> nat

  // ---------------------------------------------------------------- building requests

  function Upserted(n: Node): set<string> {
    n.properties.Keys - {"node_key", "dgraph.type"}
  }

  function Creation(n: Node): Mutation {
    Mutation(n.id, Quoted(n.key), NodeMissing, [KeyQuad(Quoted(n.key)), TypeQuad(n.nodeType)])
  }

  function PropertyUpserts(n: Node, name: string): seq<Mutation>
    requires name in n.properties
  {
    var quads := [PropertyQuad(name, Quoted(n.properties[name]))];
    [Mutation(n.id, Quoted(n.key), NodeExists, quads), Mutation(n.id, Quoted(n.key), NodeMissing, quads)]
  }

  // The request for a node, with its properties in some order.
  function Request(n: Node, names: seq<string>): seq<Mutation>
    requires forall name | name in names :: name in n.properties
  {
    if names == [] then [Creation(n)]
    else Request(n, names[..|names| - 1]) + PropertyUpserts(n, names[|names| - 1])
  }

  method BuildUpserts(n: Node) returns (mutations: seq<Mutation>, names: seq<string>)
    ensures Lists(names, Upserted(n)) && mutations == Request(n, names)
  {
    var key := EscapeQuote(n.key);
    mutations, names := [Mutation(n.id, key, NodeMissing, [KeyQuad(key), TypeQuad(n.nodeType)])], [];
    var rest := n.properties.Keys;
    while rest != {}
      invariant rest <= n.properties.Keys
      invariant Lists(names, Upserted(n) - rest) && mutations == Request(n, names)
      decreases rest
    {
      var name :| name in rest;
      rest := rest - {name};
      if name == "node_key" {
        continue;
      }
      if name == "dgraph.type" {
        continue;
      }
      var literal := EscapeQuote(n.properties[name]);
      var quads := [PropertyQuad(name, literal)];
      assert (names + [name])[..|names|] == names;
      mutations := mutations + [Mutation(n.id, key, NodeExists, quads), Mutation(n.id, key, NodeMissing, quads)];
      names := names + [name];
    }
  }

  // ---------------------------------------------------------------- running requests

  function WithQuad(s: Stored, q: Quad): Stored {
    match q
    case KeyQuad(_) => s   // the key is where the store keeps the node: see BlankKeys
    case TypeQuad(t) => s.(nodeType := t)
    case PropertyQuad(name, literal) =>
      (match LiteralValue(literal)
       case Some(v) => s.(properties := s.properties[name := v])
       case None => s)
  }

  function WithQuads(s: Stored, qs: seq<Quad>): Stored
    decreases |qs|
  {
    if qs == [] then s else WithQuads(WithQuad(s, qs[0]), qs[1..])
  }

  // The node key that the quads of a transaction give to a blank node, if they do.
  function BlankKey(ms: seq<Mutation>, id: nat): Option<string> {
    if ms == [] then None
    else if ms[|ms| - 1].id == id && KeyGiven(ms[|ms| - 1].quads).Some? then KeyGiven(ms[|ms| - 1].quads)
    else BlankKey(ms[..|ms| - 1], id)
  }

  function KeyGiven(qs: seq<Quad>): Option<string>
    decreases |qs|
  {
    if qs == [] then None
    else if qs[0].KeyQuad? && LiteralValue(qs[0].literal).Some? then LiteralValue(qs[0].literal)
    else KeyGiven(qs[1..])
  }

  // For each blank node, by its name, its key.
  type BlankNames = nat -> Option<string>

  function BlankKeys(ms: seq<Mutation>): BlankNames {
    (id: nat) => BlankKey(ms, id)
  }

  // Queries and conditions are about the store as it was when the transaction began.  A
  // blank node is stored under the key that the transaction gives it, and without a key it
  // is not one of the nodes of the store.
  function RunMutation(before: Store, keys: BlankNames, s: Store, blank: Blanks, m: Mutation): Store {
    match LiteralValue(m.query)
    case None => s
    case Some(queried) =>
      if (queried in before) != m.condition.NodeExists? then s
      else if m.condition.NodeExists? then
        if queried in s then s[queried := WithQuads(s[queried], m.quads)] else s
      else
        match keys(m.id)
        case None => s
        case Some(key) =>
          var target := if key in s then s[key] else Stored(blank(m.id), "", map[]);
          s[key := WithQuads(target, m.quads)]
  }

  function RunMutations(before: Store, keys: BlankNames, s: Store, blank: Blanks, ms: seq<Mutation>): Store {
    if ms == [] then s
    else RunMutation(before, keys, RunMutations(before, keys, s, blank, ms[..|ms| - 1]), blank, ms[|ms| - 1])
  }

  // The node can be queried for, and its blank node gets its key.
  predicate Named(keys: BlankNames, n: Node) {
    OneLine(n.key) && keys(n.id) == Some(n.key)
  }

  // ---------------------------------------------------------------- what a request means

  // No text that the request for a node quotes has a line break.
  predicate NodeOk(n: Node) {
    OneLine(n.key) && forall name | name in Upserted(n) :: OneLine(n.properties[name])
  }

  function Picked(n: Node, names: set<string>): map<string, string> {
    map name | name in n.properties && name in names :: n.properties[name]
  }

  // Override the properties of an existing node, or create the node.
  function Overridden(s: Store, n: Node, names: set<string>, uid: nat): Stored {
    if n.key in s then s[n.key].(properties := s[n.key].properties + Picked(n, names))
    else Stored(uid, n.nodeType, Picked(n, names))
  }

  function NamesOf(names: seq<string>): set<string> {
    set name | name in names
  }

  lemma RunTwo(before: Store, keys: BlankNames, s: Store, blank: Blanks, ms: seq<Mutation>, a: Mutation, b: Mutation)
    ensures RunMutations(before, keys, s, blank, ms + [a, b]) ==
            RunMutation(before, keys, RunMutation(before, keys, RunMutations(before, keys, s, blank, ms), blank, a), blank, b)
  {
    assert (ms + [a, b])[..|ms| + 1] == ms + [a];
    assert (ms + [a])[..|ms|] == ms;
  }

  // Exactly one of the two mutations of a property runs, on the node's own row.
  lemma PropertyRuns(before: Store, keys: BlankNames, s: Store, blank: Blanks, n: Node, name: string)
    requires Named(keys, n) && name in n.properties && OneLine(n.properties[name]) && n.key in s
    ensures var ms := PropertyUpserts(n, name);
            RunMutation(before, keys, RunMutation(before, keys, s, blank, ms[0]), blank, ms[1]) ==
            s[n.key := s[n.key].(properties := s[n.key].properties[name := n.properties[name]])]
  {
    QuotedReadsBack(n.properties[name]);
    QuotedReadsBack(n.key);
    var quad := PropertyQuad(name, Quoted(n.properties[name]));
    assert [quad][1..] == [];
    assert WithQuads(s[n.key], [quad]) == WithQuad(s[n.key], quad);
  }

  lemma OneMorePicked(s: Store, n: Node, done: set<string>, name: string, uid: nat)
    requires name in n.properties
    ensures var o := Overridden(s, n, done, uid);
            Overridden(s, n, done + {name}, uid) == o.(properties := o.properties[name := n.properties[name]])
  {
    assert Picked(n, done + {name}) == Picked(n, done)[name := n.properties[name]];
    if n.key in s {
      assert s[n.key].properties + Picked(n, done + {name}) == (s[n.key].properties + Picked(n, done))[name := n.properties[name]];
    }
  }

  lemma OneProperty(before: Store, keys: BlankNames, s: Store, blank: Blanks, n: Node, done: set<string>, name: string)
    requires Named(keys, n) && name in n.properties && OneLine(n.properties[name])
    ensures var ms := PropertyUpserts(n, name);
            var s1 := s[n.key := Overridden(s, n, done, blank(n.id))];
            RunMutation(before, keys, RunMutation(before, keys, s1, blank, ms[0]), blank, ms[1]) ==
            s[n.key := Overridden(s, n, done + {name}, blank(n.id))]
  {
    PropertyRuns(before, keys, s[n.key := Overridden(s, n, done, blank(n.id))], blank, n, name);
    OneMorePicked(s, n, done, name, blank(n.id));
  }

  lemma CreationRuns(before: Store, keys: BlankNames, s: Store, blank: Blanks, n: Node)
    requires Named(keys, n) && (n.key in s <==> n.key in before)
    ensures RunMutation(before, keys, s, blank, Creation(n)) == s[n.key := Overridden(s, n, {}, blank(n.id))]
  {
    QuotedReadsBack(n.key);
    var quads := Creation(n).quads;
    assert Picked(n, {}) == map[];
    if n.key in s {
      assert s[n.key].properties + map[] == s[n.key].properties;
      assert s[n.key := s[n.key]] == s;
    } else {
      assert quads[1..] == [quads[1]] && quads[1..][1..] == [];
      assert WithQuads(Stored(blank(n.id), "", map[]), quads[1..]) == Stored(blank(n.id), n.nodeType, map[]);
    }
  }

  // Running a node's request in a store that has the node iff it had it at the beginning
  // overrides the node, in whatever order its properties come.
  lemma {:induction false} RequestOverrides(before: Store, keys: BlankNames, s: Store, blank: Blanks, n: Node, names: seq<string>)
    requires forall name | name in names :: name in n.properties && OneLine(n.properties[name])
    requires Named(keys, n) && (n.key in s <==> n.key in before)
    ensures RunMutations(before, keys, s, blank, Request(n, names)) == s[n.key := Overridden(s, n, NamesOf(names), blank(n.id))]
    decreases |names|
  {
    if names == [] {
      assert [Creation(n)][..0] == [];
      CreationRuns(before, keys, s, blank, n);
      assert NamesOf([]) == {};
    } else {
      var front, name := names[..|names| - 1], names[|names| - 1];
      assert names == front + [name];
      RequestOverrides(before, keys, s, blank, n, front);
      var ms := PropertyUpserts(n, name);
      RunTwo(before, keys, s, blank, Request(n, front), ms[0], ms[1]);
      assert ms == [ms[0], ms[1]];
      OneProperty(before, keys, s, blank, n, NamesOf(front), name);
      assert NamesOf(names) == NamesOf(front) + {name};
    }
  }

  // ---------------------------------------------------------------- what is refused

  predicate QuadParses(q: Quad) {
    match q
    case KeyQuad(literal) => LiteralValue(literal).Some?
    case TypeQuad(_) => true
    case PropertyQuad(_, literal) => LiteralValue(literal).Some?
  }

  // The database refuses a request with a quad that it cannot read.
  predicate Parses(ms: seq<Mutation>) {
    forall m | m in ms :: LiteralValue(m.query).Some? && forall q | q in m.quads :: QuadParses(q)
  }

  lemma ParsesConcat(a: seq<Mutation>, b: seq<Mutation>)
    ensures Parses(a + b) <==> Parses(a) && Parses(b)
  {
    assert forall m | m in a :: m in a + b;
    assert forall m | m in b :: m in a + b;
  }

  lemma CreationParses(n: Node)
    ensures Parses([Creation(n)]) <==> OneLine(n.key)
  {
    QuotedReadsBack(n.key);
    var c := Creation(n);
    assert c in [c] && c.quads[0] in c.quads;
  }

  lemma PropertyParses(n: Node, name: string)
    requires name in n.properties
    ensures Parses(PropertyUpserts(n, name)) <==> OneLine(n.key) && OneLine(n.properties[name])
  {
    QuotedReadsBack(n.key);
    QuotedReadsBack(n.properties[name]);
    var ms := PropertyUpserts(n, name);
    assert ms[0] in ms && ms[0].quads[0] in ms[0].quads;
  }

  lemma {:induction false} RequestParses(n: Node, names: seq<string>)
    requires forall name | name in names :: name in n.properties
    ensures Parses(Request(n, names)) <==> OneLine(n.key) && forall name | name in names :: OneLine(n.properties[name])
    decreases |names|
  {
    CreationParses(n);
    if names != [] {
      var front, last := names[..|names| - 1], names[|names| - 1];
      SplitLast(names);
      assert forall name | name in names :: name in front || name == last;
      RequestParses(n, front);
      PropertyParses(n, last);
      ParsesConcat(Request(n, front), PropertyUpserts(n, last));
    }
  }

  // ---------------------------------------------------------------- chunks

  // A node with the order in which its properties were visited.
  datatype Upsert = Upsert(node: Node, names: seq<string>)

  ghost predicate UpsertOk(u: Upsert) {
    Lists(u.names, Upserted(u.node))
  }

  function ChunkRequest(chunk: seq<Upsert>): seq<Mutation>
    requires forall u | u in chunk :: forall name | name in u.names :: name in u.node.properties
  {
    if chunk == [] then [] else
    var last := chunk[|chunk| - 1];
    ChunkRequest(chunk[..|chunk| - 1]) + Request(last.node, last.names)
  }

  ghost predicate ChunkOk(chunk: seq<Upsert>) {
    && (forall u | u in chunk :: UpsertOk(u))
    && forall i, j | 0 <= i < j < |chunk| :: chunk[i].node.key != chunk[j].node.key && chunk[i].node.id != chunk[j].node.id
  }

  function KeysOf(chunk: seq<Upsert>): set<string> {
    set i | 0 <= i < |chunk| :: chunk[i].node.key
  }

  function OverrideAll(s: Store, blank: Blanks, chunk: seq<Upsert>): Store {
    if chunk == [] then s else
    var before, n := OverrideAll(s, blank, chunk[..|chunk| - 1]), chunk[|chunk| - 1].node;
    before[n.key := Overridden(before, n, Upserted(n), blank(n.id))]
  }

  // The rest of the store is as before, and each node of the chunk is overridden.
  lemma {:induction false} OverrideAllElsewhere(s: Store, blank: Blanks, chunk: seq<Upsert>, key: string)
    requires key !in KeysOf(chunk)
    ensures key in OverrideAll(s, blank, chunk) <==> key in s
    ensures key in s ==> OverrideAll(s, blank, chunk)[key] == s[key]
    decreases |chunk|
  {
    if chunk != [] {
      assert chunk[|chunk| - 1].node.key in KeysOf(chunk);
      assert forall i | 0 <= i < |chunk| - 1 :: chunk[i].node.key in KeysOf(chunk);
      OverrideAllElsewhere(s, blank, chunk[..|chunk| - 1], key);
    }
  }

  lemma {:induction false} OverrideAllAt(s: Store, blank: Blanks, chunk: seq<Upsert>, i: nat)
    requires i < |chunk| && forall j, k | 0 <= j < k < |chunk| :: chunk[j].node.key != chunk[k].node.key
    ensures var n := chunk[i].node;
            n.key in OverrideAll(s, blank, chunk)
            && OverrideAll(s, blank, chunk)[n.key] == Overridden(s, n, Upserted(n), blank(n.id))
    decreases |chunk|
  {
    if i == |chunk| - 1 {
      OverrideAllElsewhere(s, blank, chunk[..i], chunk[i].node.key);
    } else {
      OverrideAllAt(s, blank, chunk[..|chunk| - 1], i);
    }
  }

  lemma {:induction false} RunConcat(before: Store, keys: BlankNames, s: Store, blank: Blanks, a: seq<Mutation>, b: seq<Mutation>)
    ensures RunMutations(before, keys, s, blank, a + b) ==
            RunMutations(before, keys, RunMutations(before, keys, s, blank, a), blank, b)
    decreases |b|
  {
    if b == [] {
      assert a + b == a;
    } else {
      assert (a + b)[..|a + b| - 1] == a + b[..|b| - 1];
      RunConcat(before, keys, s, blank, a, b[..|b| - 1]);
    }
  }

  // One more node after the requests `ms`, which left it alone.
  lemma NextNode(s: Store, keys: BlankNames, mid: Store, blank: Blanks, ms: seq<Mutation>, u: Upsert)
    requires UpsertOk(u) && NodeOk(u.node) && Named(keys, u.node) && mid == RunMutations(s, keys, s, blank, ms)
    requires u.node.key in mid <==> u.node.key in s
    ensures RunMutations(s, keys, s, blank, ms + Request(u.node, u.names)) ==
            mid[u.node.key := Overridden(mid, u.node, Upserted(u.node), blank(u.node.id))]
  {
    RunConcat(s, keys, s, blank, ms, Request(u.node, u.names));
    RequestOverrides(s, keys, mid, blank, u.node, u.names);
    assert NamesOf(u.names) == Upserted(u.node);
  }

  // ---------------------------------------------------------------- the keys of blank nodes

  lemma {:induction false} BlankKeyConcat(a: seq<Mutation>, b: seq<Mutation>, id: nat)
    ensures BlankKey(a + b, id) == if BlankKey(b, id).Some? then BlankKey(b, id) else BlankKey(a, id)
    decreases |b|
  {
    if b == [] {
      assert a + b == a;
    } else {
      assert (a + b)[..|a + b| - 1] == a + b[..|b| - 1];
      BlankKeyConcat(a, b[..|b| - 1], id);
    }
  }

  lemma CreationGivesKey(n: Node, id: nat)
    requires OneLine(n.key)
    ensures BlankKey([Creation(n)], id) == if id == n.id then Some(n.key) else None
  {
    QuotedReadsBack(n.key);
    assert [Creation(n)][..0] == [];
  }

  lemma PropertiesGiveNoKey(n: Node, name: string, id: nat)
    requires name in n.properties
    ensures BlankKey(PropertyUpserts(n, name), id) == None
  {
    var ms := PropertyUpserts(n, name);
    assert ms[..1] == [ms[0]] && ms[..1][..0] == [];
    assert ms[0].quads[1..] == [] && ms[1].quads == ms[0].quads;
    assert KeyGiven([]) == None && KeyGiven(ms[0].quads) == None;
    assert BlankKey(ms[..1], id) == BlankKey(ms[..1][..0], id) == None;
  }

  // A request gives its blank node the key of its node, and no other a key.
  lemma {:induction false} RequestGivesKey(n: Node, names: seq<string>, id: nat)
    requires OneLine(n.key) && forall name | name in names :: name in n.properties
    ensures BlankKey(Request(n, names), id) == if id == n.id then Some(n.key) else None
    decreases |names|
  {
    if names == [] {
      CreationGivesKey(n, id);
    } else {
      var front, last := names[..|names| - 1], names[|names| - 1];
      RequestGivesKey(n, front, id);
      PropertiesGiveNoKey(n, last, id);
      BlankKeyConcat(Request(n, front), PropertyUpserts(n, last), id);
    }
  }

  // So the request of a chunk gives every blank node the key of its own node.
  lemma {:induction false} ChunkGivesKey(chunk: seq<Upsert>, i: nat)
    requires ChunkOk(chunk) && (forall u | u in chunk :: NodeOk(u.node)) && i < |chunk|
    ensures BlankKey(ChunkRequest(chunk), chunk[i].node.id) == Some(chunk[i].node.key)
    decreases |chunk|
  {
    var front, last := chunk[..|chunk| - 1], chunk[|chunk| - 1];
    FrontOk(chunk);
    RequestGivesKey(last.node, last.names, chunk[i].node.id);
    BlankKeyConcat(ChunkRequest(front), Request(last.node, last.names), chunk[i].node.id);
    if i < |front| {
      ChunkGivesKey(front, i);
    }
  }

  lemma ChunkNames(chunk: seq<Upsert>)
    requires ChunkOk(chunk) && forall u | u in chunk :: NodeOk(u.node)
    ensures forall u | u in chunk :: Named(BlankKeys(ChunkRequest(chunk)), u.node)
  {
    forall u | u in chunk
      ensures Named(BlankKeys(ChunkRequest(chunk)), u.node)
    {
      var i :| 0 <= i < |chunk| && chunk[i] == u;
      ChunkGivesKey(chunk, i);
    }
  }

  lemma FrontOk(chunk: seq<Upsert>)
    requires ChunkOk(chunk) && chunk != []
    ensures ChunkOk(chunk[..|chunk| - 1]) && UpsertOk(chunk[|chunk| - 1])
    ensures forall u | u in chunk :: u in chunk[..|chunk| - 1] || u == chunk[|chunk| - 1]
    ensures chunk[|chunk| - 1] in chunk && forall u | u in chunk[..|chunk| - 1] :: u in chunk
  {
  }

  // A request for a chunk is refused if one of its nodes has a line break.
  lemma {:induction false} ChunkParses(chunk: seq<Upsert>)
    requires ChunkOk(chunk)
    ensures Parses(ChunkRequest(chunk)) <==> forall u | u in chunk :: NodeOk(u.node)
    decreases |chunk|
  {
    if chunk != [] {
      var front, last := chunk[..|chunk| - 1], chunk[|chunk| - 1];
      FrontOk(chunk);
      ChunkParses(front);
      RequestParses(last.node, last.names);
      ParsesConcat(ChunkRequest(front), Request(last.node, last.names));
    }
  }

  lemma {:induction false} ChunkOverrides(s: Store, keys: BlankNames, blank: Blanks, chunk: seq<Upsert>)
    requires ChunkOk(chunk) && forall u | u in chunk :: NodeOk(u.node) && Named(keys, u.node)
    ensures RunMutations(s, keys, s, blank, ChunkRequest(chunk)) == OverrideAll(s, blank, chunk)
    decreases |chunk|
  {
    if chunk != [] {
      var front, last := chunk[..|chunk| - 1], chunk[|chunk| - 1];
      assert forall u | u in front :: u in chunk;
      assert last in chunk;
      ChunkOverrides(s, keys, blank, front);
      OverrideAllElsewhere(s, blank, front, last.node.key);
      NextNode(s, keys, OverrideAll(s, blank, front), blank, ChunkRequest(front), last);
    }
  }

  // ---------------------------------------------------------------- schedules

  // One run of the transaction of the chunk us[lo..hi].  The database may not commit it, or
  // commit it although its answer is lost; then it is run again.
  datatype Execution = Execution(lo: nat, hi: nat, blank: Blanks, committed: bool, answered: bool)

  ghost predicate ExecutionOk(us: seq<Upsert>, e: Execution) {
    ChunkOk(us) && e.lo <= e.hi <= |us| && (e.answered ==> e.committed)
  }

  predicate Covers(e: Execution, i: nat) {
    e.lo <= i < e.hi
  }

  // A run takes effect if the database commits it, and can read it at all.
  predicate TakesEffect(nodes: seq<Node>, e: Execution) {
    e.committed && e.lo <= e.hi <= |nodes| && forall i | e.lo <= i < e.hi :: NodeOk(nodes[i])
  }

  predicate Replies(nodes: seq<Node>, e: Execution) {
    e.answered && TakesEffect(nodes, e)
  }

  function NodesOf(us: seq<Upsert>): (nodes: seq<Node>)
    ensures |nodes| == |us| && forall i | 0 <= i < |us| :: nodes[i] == us[i].node
  {
    seq(|us|, i requires 0 <= i < |us| => us[i].node)
  }

  lemma SliceOk(us: seq<Upsert>, e: Execution)
    requires ExecutionOk(us, e)
    ensures ChunkOk(us[e.lo..e.hi])
    ensures forall i | 0 <= i < |us| :: us[i].node.key in KeysOf(us[e.lo..e.hi]) <==> e.lo <= i < e.hi
  {
    var chunk := us[e.lo..e.hi];
    assert forall u | u in chunk :: u in us;
    forall i | 0 <= i < |us|
      ensures us[i].node.key in KeysOf(chunk) <==> e.lo <= i < e.hi
    {
      if e.lo <= i < e.hi {
        assert chunk[i - e.lo] == us[i];
      }
      forall j | 0 <= j < |chunk| && chunk[j].node.key == us[i].node.key
        ensures i == e.lo + j
      {
        assert chunk[j] == us[e.lo + j];
      }
    }
  }

  lemma SliceNodesOk(us: seq<Upsert>, e: Execution)
    requires ExecutionOk(us, e)
    ensures (forall u | u in us[e.lo..e.hi] :: NodeOk(u.node)) <==> forall i | e.lo <= i < e.hi :: NodeOk(us[i].node)
  {
    var chunk := us[e.lo..e.hi];
    forall i | e.lo <= i < e.hi
      ensures us[i] in chunk
    {
      assert chunk[i - e.lo] == us[i];
    }
  }

  ghost function After(s: Store, us: seq<Upsert>, e: Execution): Store
    requires ExecutionOk(us, e)
  {
    if TakesEffect(NodesOf(us), e) then OverrideAll(s, e.blank, us[e.lo..e.hi]) else s
  }

  // A property that the upserter writes: any but the two that it leaves out.
  predicate Writes(n: Node, name: string) {
    name in n.properties && name != "node_key" && name != "dgraph.type"
  }

  predicate Stores(s: Store, key: string, name: string) {
    key in s && name in s[key].properties
  }

  // What a finished node looks like: it has its own properties, the stored ones that it did
  // not come with, and no others; and the type that was stored, or its own if none was.
  ghost predicate Finished(start: Store, s: Store, n: Node) {
    && n.key in s
    && s[n.key].nodeType == (if n.key in start then start[n.key].nodeType else n.nodeType)
    && (forall name | Writes(n, name) :: Stores(s, n.key, name) && s[n.key].properties[name] == n.properties[name])
    && (forall name | Stores(start, n.key, name) && !Writes(n, name) ::
          Stores(s, n.key, name) && s[n.key].properties[name] == start[n.key].properties[name])
    && (forall name | Stores(s, n.key, name) :: Writes(n, name) || Stores(start, n.key, name))
  }

  lemma FinishedIsOverridden(start: Store, s: Store, n: Node)
    requires n.key in s
    ensures Finished(start, s, n) <==>
            var o := Overridden(start, n, Upserted(n), 0);
            s[n.key].nodeType == o.nodeType && s[n.key].properties == o.properties
  {
    var o := Overridden(start, n, Upserted(n), 0);
    assert forall name :: name in o.properties <==> Writes(n, name) || Stores(start, n.key, name);
    if Finished(start, s, n) {
      assert forall name :: name in s[n.key].properties <==> Stores(s, n.key, name);
      assert s[n.key].properties == o.properties;
    }
  }

  ghost predicate Untouched(start: Store, s: Store, key: string) {
    (key in s <==> key in start) && (key in start ==> s[key] == start[key])
  }

  // Nothing loses or changes a uid.
  ghost predicate KeepsUids(s: Store, s': Store) {
    forall key | key in s :: key in s' && s'[key].uid == s[key].uid
  }

  // The state of the database after some executions, in which the nodes in `done` had part.
  ghost predicate Progress(start: Store, s: Store, us: seq<Upsert>, done: set<nat>) {
    && KeepsUids(start, s)
    && (forall i | 0 <= i < |us| :: if i in done then Finished(start, s, us[i].node) else Untouched(start, s, us[i].node.key))
    && (forall key | key !in KeysOf(us) :: Untouched(start, s, key))
  }

  function Covered(e: Execution): set<nat> {
    set i: nat | i < e.hi && Covers(e, i)
  }

  lemma ExecutionKeepsUids(s: Store, us: seq<Upsert>, e: Execution)
    requires ExecutionOk(us, e)
    ensures KeepsUids(s, After(s, us, e))
  {
    var chunk := us[e.lo..e.hi];
    forall key | key in s
      ensures key in After(s, us, e) && After(s, us, e)[key].uid == s[key].uid
    {
      if key in KeysOf(chunk) {
        var i :| 0 <= i < |chunk| && chunk[i].node.key == key;
        SliceOk(us, e);
        OverrideAllAt(s, e.blank, chunk, i);
      } else {
        OverrideAllElsewhere(s, e.blank, chunk, key);
      }
    }
  }

  // Overriding an already overridden node changes nothing.
  lemma FinishedAgain(start: Store, s: Store, n: Node, uid: nat, s': Store)
    requires Finished(start, s, n) || Untouched(start, s, n.key)
    requires n.key in s' && s'[n.key] == Overridden(s, n, Upserted(n), uid)
    ensures Finished(start, s', n)
  {
    FinishedIsOverridden(start, s', n);
    if Finished(start, s, n) {
      FinishedIsOverridden(start, s, n);
      var p := Picked(n, Upserted(n));
      assert s[n.key].properties + p == s[n.key].properties;
    }
  }

  lemma LeftAlone(start: Store, s: Store, s': Store, n: Node)
    requires Untouched(s, s', n.key)
    ensures Finished(start, s, n) ==> Finished(start, s', n)
    ensures Untouched(start, s, n.key) ==> Untouched(start, s', n.key)
  {
    assert forall name :: Stores(s', n.key, name) <==> Stores(s, n.key, name);
  }

  lemma CoveredNode(s: Store, us: seq<Upsert>, e: Execution, i: nat)
    requires ExecutionOk(us, e) && TakesEffect(NodesOf(us), e) && i < |us|
    ensures var n := us[i].node; var s' := After(s, us, e);
            if i in Covered(e) then n.key in s' && s'[n.key] == Overridden(s, n, Upserted(n), e.blank(n.id))
            else Untouched(s, s', n.key)
  {
    SliceOk(us, e);
    var n, chunk := us[i].node, us[e.lo..e.hi];
    if i in Covered(e) {
      assert chunk[i - e.lo] == us[i];
      OverrideAllAt(s, e.blank, chunk, i - e.lo);
    } else {
      OverrideAllElsewhere(s, e.blank, chunk, n.key);
    }
  }

  lemma NodeProgress(start: Store, s: Store, us: seq<Upsert>, done: set<nat>, e: Execution, i: nat)
    requires ExecutionOk(us, e) && TakesEffect(NodesOf(us), e) && Progress(start, s, us, done) && i < |us|
    ensures var s' := After(s, us, e);
            if i in done + Covered(e) then Finished(start, s', us[i].node) else Untouched(start, s', us[i].node.key)
  {
    var n, s' := us[i].node, After(s, us, e);
    CoveredNode(s, us, e, i);
    if i in Covered(e) {
      FinishedAgain(start, s, n, e.blank(n.id), s');
    } else {
      LeftAlone(start, s, s', n);
    }
  }

  lemma ElsewhereUntouched(s: Store, us: seq<Upsert>, e: Execution, key: string)
    requires ExecutionOk(us, e) && key !in KeysOf(us)
    ensures Untouched(s, After(s, us, e), key)
  {
    assert forall j | 0 <= j < e.hi - e.lo :: us[e.lo..e.hi][j] == us[e.lo + j] && us[e.lo + j].node.key in KeysOf(us);
    OverrideAllElsewhere(s, e.blank, us[e.lo..e.hi], key);
  }

  lemma ProgressStep(start: Store, s: Store, us: seq<Upsert>, done: set<nat>, e: Execution)
    requires ExecutionOk(us, e) && TakesEffect(NodesOf(us), e) && Progress(start, s, us, done)
    ensures Progress(start, After(s, us, e), us, done + Covered(e))
  {
    ExecutionKeepsUids(s, us, e);
    forall i | 0 <= i < |us|
      ensures var s' := After(s, us, e);
              if i in done + Covered(e) then Finished(start, s', us[i].node) else Untouched(start, s', us[i].node.key)
    {
      NodeProgress(start, s, us, done, e, i);
    }
    forall key | key !in KeysOf(us)
      ensures Untouched(start, After(s, us, e), key)
    {
      ElsewhereUntouched(s, us, e, key);
    }
  }

  // ---------------------------------------------------------------- answers

  // The uids a transaction answers with: of the nodes it found, by key, and of the nodes it
  // created, by blank node.
  function Found(before: Store, chunk: seq<Upsert>): map<string, nat> {
    map i | 0 <= i < |chunk| && chunk[i].node.key in before :: chunk[i].node.key := before[chunk[i].node.key].uid
  }

  function Created(before: Store, chunk: seq<Upsert>, blank: Blanks): map<nat, nat> {
    map i | 0 <= i < |chunk| && chunk[i].node.key !in before :: chunk[i].node.id := blank(chunk[i].node.id)
  }

  function UidOf(n: Node, known: map<string, nat>, created: map<nat, nat>): Option<nat> {
    if n.key in known then Some(known[n.key])
    else if n.id in created then Some(created[n.id])
    else None
  }

  // The answer collected for a node, if any, is its uid.
  ghost predicate AnswerOk(s: Store, n: Node, known: map<string, nat>, created: map<nat, nat>) {
    && (n.key in known ==> n.key in s && s[n.key].uid == known[n.key])
    && (n.id in created ==> n.key in s && s[n.key].uid == created[n.id])
  }

  // And there is one for every node in `answered`.
  ghost predicate AnswersOk(s: Store, us: seq<Upsert>, known: map<string, nat>, created: map<nat, nat>, answered: set<nat>) {
    forall i | 0 <= i < |us| ::
      AnswerOk(s, us[i].node, known, created) && (i in answered ==> UidOf(us[i].node, known, created).Some?)
  }

  lemma AnswersStay(s: Store, s': Store, us: seq<Upsert>, known: map<string, nat>, created: map<nat, nat>, answered: set<nat>)
    requires KeepsUids(s, s') && AnswersOk(s, us, known, created, answered)
    ensures AnswersOk(s', us, known, created, answered)
  {
    forall i | 0 <= i < |us|
      ensures AnswerOk(s', us[i].node, known, created)
    {
      assert AnswerOk(s, us[i].node, known, created);
    }
  }

  // A blank node belongs to one node, of the chunk, that was missing.
  lemma CreatedNode(s: Store, us: seq<Upsert>, lo: nat, hi: nat, blank: Blanks, i: nat)
    requires ChunkOk(us) && lo <= hi <= |us| && i < |us|
    requires us[i].node.id in Created(s, us[lo..hi], blank)
    ensures lo <= i < hi && us[i].node.key !in s
  {
    var j :| 0 <= j < hi - lo && us[lo..hi][j].node.key !in s && us[lo..hi][j].node.id == us[i].node.id;
    assert us[lo + j].node.id == us[i].node.id;
    assert lo + j == i;
  }

  lemma AnsweredOutside(s: Store, us: seq<Upsert>, e: Execution, i: nat)
    requires ExecutionOk(us, e) && TakesEffect(NodesOf(us), e) && i < |us| && !Covers(e, i)
    ensures us[i].node.key !in Found(s, us[e.lo..e.hi]) && us[i].node.id !in Created(s, us[e.lo..e.hi], e.blank)
  {
    var n, chunk := us[i].node, us[e.lo..e.hi];
    SliceOk(us, e);
    if n.id in Created(s, chunk, e.blank) {
      CreatedNode(s, us, e.lo, e.hi, e.blank, i);
    }
    assert n.key !in KeysOf(chunk);
    assert Found(s, chunk).Keys <= KeysOf(chunk);
  }

  lemma AnsweredInside(s: Store, us: seq<Upsert>, e: Execution, i: nat)
    requires ExecutionOk(us, e) && TakesEffect(NodesOf(us), e) && i < |us| && Covers(e, i)
    ensures var n := us[i].node; var chunk := us[e.lo..e.hi]; var s' := After(s, us, e);
            && n.key in s'
            && (if n.key in s then n.key in Found(s, chunk) && Found(s, chunk)[n.key] == s'[n.key].uid && n.id !in Created(s, chunk, e.blank)
                else n.key !in Found(s, chunk) && n.id in Created(s, chunk, e.blank) && Created(s, chunk, e.blank)[n.id] == s'[n.key].uid)
  {
    var n, chunk := us[i].node, us[e.lo..e.hi];
    SliceOk(us, e);
    assert chunk[i - e.lo] == us[i];
    OverrideAllAt(s, e.blank, chunk, i - e.lo);
    if n.id in Created(s, chunk, e.blank) {
      CreatedNode(s, us, e.lo, e.hi, e.blank, i);
    }
  }

  lemma AnsweredNode(s: Store, us: seq<Upsert>, e: Execution, i: nat)
    requires ExecutionOk(us, e) && TakesEffect(NodesOf(us), e) && i < |us|
    ensures var n := us[i].node; var chunk := us[e.lo..e.hi]; var s' := After(s, us, e);
            && AnswerOk(s', n, Found(s, chunk), Created(s, chunk, e.blank))
            && (Covers(e, i) ==> n.key in Found(s, chunk) || n.id in Created(s, chunk, e.blank))
  {
    if Covers(e, i) {
      AnsweredInside(s, us, e, i);
    } else {
      AnsweredOutside(s, us, e, i);
    }
  }

  lemma AnswersStep(s: Store, us: seq<Upsert>, e: Execution, known: map<string, nat>, created: map<nat, nat>, answered: set<nat>)
    requires ExecutionOk(us, e) && TakesEffect(NodesOf(us), e) && AnswersOk(s, us, known, created, answered)
    ensures var chunk := us[e.lo..e.hi];
            AnswersOk(After(s, us, e), us, known + Found(s, chunk), created + Created(s, chunk, e.blank), answered + Covered(e))
  {
    var chunk, s' := us[e.lo..e.hi], After(s, us, e);
    ExecutionKeepsUids(s, us, e);
    AnswersStay(s, s', us, known, created, answered);
    forall i | 0 <= i < |us|
      ensures AnswerOk(s', us[i].node, known + Found(s, chunk), created + Created(s, chunk, e.blank))
      ensures i in answered + Covered(e) ==> UidOf(us[i].node, known + Found(s, chunk), created + Created(s, chunk, e.blank)).Some?
    {
      AnsweredNode(s, us, e, i);
      assert AnswerOk(s', us[i].node, known, created);
    }
  }

  // ---------------------------------------------------------------- the whole upsert

  function Indices(count: nat): (s: set<nat>)
    ensures forall i: nat :: i in s <==> i < count
  {
    if count == 0 then {} else Indices(count - 1) + {count - 1}
  }

  ghost predicate DistinctNodes(nodes: seq<Node>) {
    forall i, j | 0 <= i < j < |nodes| :: nodes[i].key != nodes[j].key && nodes[i].id != nodes[j].id
  }

  // Runs of chunks of any sizes, in any order and any number.
  ghost predicate ScheduleOk(schedule: seq<Execution>, count: nat) {
    forall e | e in schedule :: e.lo <= e.hi <= count && (e.answered ==> e.committed)
  }

  // Some run that covered node `i` took effect, or replied.
  predicate Reached(nodes: seq<Node>, ran: seq<Execution>, i: nat) {
    exists r | 0 <= r < |ran| :: TakesEffect(nodes, ran[r]) && Covers(ran[r], i)
  }

  predicate Replied(nodes: seq<Node>, ran: seq<Execution>, i: nat) {
    exists r | 0 <= r < |ran| :: Replies(nodes, ran[r]) && Covers(ran[r], i)
  }

  // Every chunk was repeated until it replied.
  predicate Completes(nodes: seq<Node>, schedule: seq<Execution>) {
    forall i | 0 <= i < |nodes| :: Replied(nodes, schedule, i)
  }

  // A node with a line break is never reached, nor is a node that shares its chunks, and the
  // upsert does not complete.
  lemma LineBreakIsRefused(nodes: seq<Node>, schedule: seq<Execution>, i: nat, j: nat)
    requires i < |nodes| && !NodeOk(nodes[i])
    requires forall e | e in schedule && Covers(e, j) :: Covers(e, i)
    ensures !Reached(nodes, schedule, i) && !Reached(nodes, schedule, j) && !Completes(nodes, schedule)
  {
    assert forall r | 0 <= r < |schedule| :: schedule[r] in schedule;
    assert !Replied(nodes, schedule, i);
  }

  // The chunks the upserter makes: `size` nodes each, but for the last.
  predicate IsChunk(e: Execution, k: nat, size: nat, count: nat) {
    e.lo == k * size && e.hi == if (k + 1) * size < count then (k + 1) * size else count
  }

  ghost predicate ChunkReplied(nodes: seq<Node>, schedule: seq<Execution>, k: nat, size: nat) {
    exists r | 0 <= r < |schedule| :: Replies(nodes, schedule[r]) && IsChunk(schedule[r], k, size, |nodes|)
  }

  // A reply for each chunk of some size, in any order, is one for every node.
  lemma ChunksComplete(nodes: seq<Node>, schedule: seq<Execution>, size: nat)
    requires size > 0 && forall k: nat | k * size < |nodes| :: ChunkReplied(nodes, schedule, k, size)
    ensures Completes(nodes, schedule)
  {
    forall i | 0 <= i < |nodes|
      ensures Replied(nodes, schedule, i)
    {
      var k := i / size;
      assert k * size <= i < (k + 1) * size;
      assert ChunkReplied(nodes, schedule, k, size);
      var r :| 0 <= r < |schedule| && Replies(nodes, schedule[r]) && IsChunk(schedule[r], k, size, |nodes|);
      assert Covers(schedule[r], i);
    }
  }

  // The loop over the executions `ran`.
  ghost predicate Running(start: Store, s: Store, us: seq<Upsert>, ran: seq<Execution>,
                          known: map<string, nat>, created: map<nat, nat>, done: set<nat>, answered: set<nat>) {
    && Progress(start, s, us, done) && AnswersOk(s, us, known, created, answered)
    && (forall i: nat | i < |us| :: i in done <==> Reached(NodesOf(us), ran, i))
    && (forall i: nat | i < |us| :: i in answered <==> Replied(NodesOf(us), ran, i))
  }

  lemma ReachedSnoc(nodes: seq<Node>, ran: seq<Execution>, e: Execution, i: nat)
    ensures Reached(nodes, ran + [e], i) <==> Reached(nodes, ran, i) || (TakesEffect(nodes, e) && Covers(e, i))
    ensures Replied(nodes, ran + [e], i) <==> Replied(nodes, ran, i) || (Replies(nodes, e) && Covers(e, i))
  {
    var all := ran + [e];
    assert all[|ran|] == e && forall r | 0 <= r < |ran| :: all[r] == ran[r];
  }

  lemma SetsStep(us: seq<Upsert>, ran: seq<Execution>, e: Execution, done: set<nat>, answered: set<nat>)
    requires forall i: nat | i < |us| :: i in done <==> Reached(NodesOf(us), ran, i)
    requires forall i: nat | i < |us| :: i in answered <==> Replied(NodesOf(us), ran, i)
    ensures var done' := if TakesEffect(NodesOf(us), e) then done + Covered(e) else done;
            forall i: nat | i < |us| :: i in done' <==> Reached(NodesOf(us), ran + [e], i)
    ensures var answered' := if Replies(NodesOf(us), e) then answered + Covered(e) else answered;
            forall i: nat | i < |us| :: i in answered' <==> Replied(NodesOf(us), ran + [e], i)
  {
    forall i: nat | i < |us|
      ensures Reached(NodesOf(us), ran + [e], i) <==> i in done || (TakesEffect(NodesOf(us), e) && Covers(e, i))
      ensures Replied(NodesOf(us), ran + [e], i) <==> i in answered || (Replies(NodesOf(us), e) && Covers(e, i))
    {
      ReachedSnoc(NodesOf(us), ran, e, i);
    }
  }

  lemma RunningStep(start: Store, s: Store, us: seq<Upsert>, ran: seq<Execution>, e: Execution,
                    known: map<string, nat>, created: map<nat, nat>, done: set<nat>, answered: set<nat>)
    requires ExecutionOk(us, e) && Running(start, s, us, ran, known, created, done, answered)
    ensures var chunk := us[e.lo..e.hi]; var replies := Replies(NodesOf(us), e);
            Running(start, After(s, us, e), us, ran + [e],
                    if replies then known + Found(s, chunk) else known,
                    if replies then created + Created(s, chunk, e.blank) else created,
                    if TakesEffect(NodesOf(us), e) then done + Covered(e) else done,
                    if replies then answered + Covered(e) else answered)
  {
    ExecutionKeepsUids(s, us, e);
    SetsStep(us, ran, e, done, answered);
    if TakesEffect(NodesOf(us), e) {
      ProgressStep(start, s, us, done, e);
    }
    if Replies(NodesOf(us), e) {
      AnswersStep(s, us, e, known, created, answered);
    } else {
      AnswersStay(s, After(s, us, e), us, known, created, answered);
    }
  }

  // ---------------------------------------------------------------- fresh uids

  ghost predicate UidsDistinct(s: Store) {
    forall k, o | k in s && o in s && s[k].uid == s[o].uid :: k == o
  }

  // The database never gives a uid twice.
  ghost predicate FreshBlank(s: Store, e: Execution) {
    && (forall k, id: nat | k in s :: s[k].uid != e.blank(id))
    && (forall a: nat, b: nat | e.blank(a) == e.blank(b) :: a == b)
  }

  ghost predicate FreshBlanks(start: Store, schedule: seq<Execution>) {
    && (forall i | 0 <= i < |schedule| :: FreshBlank(start, schedule[i]))
    && (forall i, j, a: nat, b: nat | 0 <= i < j < |schedule| :: schedule[i].blank(a) != schedule[j].blank(b))
  }

  // Every uid was there at the beginning or was given to a blank node of some run.
  ghost predicate UidsFrom(start: Store, s: Store, ran: seq<Execution>) {
    forall k | k in s ::
      (k in start && s[k].uid == start[k].uid) || exists i, id: nat | 0 <= i < |ran| :: s[k].uid == ran[i].blank(id)
  }

  lemma ChunkUid(s: Store, blank: Blanks, chunk: seq<Upsert>, key: string) returns (i: nat)
    requires key in OverrideAll(s, blank, chunk)
    requires forall j, k | 0 <= j < k < |chunk| :: chunk[j].node.key != chunk[k].node.key
    ensures var s' := OverrideAll(s, blank, chunk);
            if key in s then s'[key].uid == s[key].uid
            else i < |chunk| && chunk[i].node.key == key && s'[key].uid == blank(chunk[i].node.id)
  {
    i := 0;
    if key in KeysOf(chunk) {
      i :| 0 <= i < |chunk| && chunk[i].node.key == key;
      OverrideAllAt(s, blank, chunk, i);
    } else {
      OverrideAllElsewhere(s, blank, chunk, key);
    }
  }

  lemma DistinctAfterChunk(s: Store, blank: Blanks, chunk: seq<Upsert>)
    requires ChunkOk(chunk) && UidsDistinct(s)
    requires forall k, id: nat | k in s :: s[k].uid != blank(id)
    requires forall a: nat, b: nat | blank(a) == blank(b) :: a == b
    ensures UidsDistinct(OverrideAll(s, blank, chunk))
  {
    var s' := OverrideAll(s, blank, chunk);
    forall k, o | k in s' && o in s' && s'[k].uid == s'[o].uid
      ensures k == o
    {
      var a := ChunkUid(s, blank, chunk, k);
      var b := ChunkUid(s, blank, chunk, o);
      assert k !in s && o !in s ==> chunk[a].node.id == chunk[b].node.id;
    }
  }

  lemma DistinctStep(s: Store, us: seq<Upsert>, e: Execution)
    requires ExecutionOk(us, e) && UidsDistinct(s) && FreshBlank(s, e)
    ensures UidsDistinct(After(s, us, e))
  {
    SliceOk(us, e);
    DistinctAfterChunk(s, e.blank, us[e.lo..e.hi]);
  }

  lemma FromStep(start: Store, s: Store, us: seq<Upsert>, ran: seq<Execution>, e: Execution)
    requires ExecutionOk(us, e) && UidsFrom(start, s, ran)
    ensures UidsFrom(start, After(s, us, e), ran + [e])
  {
    var s', all := After(s, us, e), ran + [e];
    SliceOk(us, e);
    forall k | k in s'
      ensures (k in start && s'[k].uid == start[k].uid) || exists i, id: nat | 0 <= i < |all| :: s'[k].uid == all[i].blank(id)
    {
      if s' != s {
        var chunk := us[e.lo..e.hi];
        var n := ChunkUid(s, e.blank, chunk, k);
        assert k !in s ==> s'[k].uid == all[|ran|].blank(chunk[n].node.id);
      }
      if k in s && !(k in start && s[k].uid == start[k].uid) {
        var i, o: nat :| 0 <= i < |ran| && s[k].uid == ran[i].blank(o);
        assert s'[k].uid == all[i].blank(o);
      }
    }
  }

  lemma StillFresh(start: Store, s: Store, schedule: seq<Execution>, i: nat)
    requires i < |schedule| && FreshBlanks(start, schedule) && UidsFrom(start, s, schedule[..i])
    ensures FreshBlank(s, schedule[i])
  {
    forall k, id: nat | k in s
      ensures s[k].uid != schedule[i].blank(id)
    {
      if k in start && s[k].uid == start[k].uid {
        assert FreshBlank(start, schedule[i]);
      } else {
        var j, o: nat :| 0 <= j < i && s[k].uid == schedule[..i][j].blank(o);
        assert schedule[j].blank(o) != schedule[i].blank(id);
      }
    }
    assert FreshBlank(start, schedule[i]);
  }

  // What holds of uids while the schedule runs, if the database gives fresh ones.
  ghost predicate UidsOk(start: Store, s: Store, schedule: seq<Execution>, i: nat) {
    && i <= |schedule| && UidsFrom(start, s, schedule[..i])
    && (FreshBlanks(start, schedule) && UidsDistinct(start) ==> UidsDistinct(s))
  }

  lemma UidsStep(start: Store, s: Store, us: seq<Upsert>, schedule: seq<Execution>, i: nat)
    requires i < |schedule| && ExecutionOk(us, schedule[i]) && UidsOk(start, s, schedule, i)
    ensures UidsOk(start, After(s, us, schedule[i]), schedule, i + 1)
  {
    TakeNext(schedule, i);
    FromStep(start, s, us, schedule[..i], schedule[i]);
    if FreshBlanks(start, schedule) && UidsDistinct(start) {
      StillFresh(start, s, schedule, i);
      DistinctStep(s, us, schedule[i]);
    }
  }

  // ---------------------------------------------------------------- the database

  lemma RequestRuns(s: Store, us: seq<Upsert>, e: Execution)
    requires ExecutionOk(us, e) && ChunkOk(us[e.lo..e.hi])
    ensures var request := ChunkRequest(us[e.lo..e.hi]);
            After(s, us, e) ==
            if e.committed && Parses(request) then RunMutations(s, BlankKeys(request), s, e.blank, request) else s
  {
    var chunk := us[e.lo..e.hi];
    SliceNodesOk(us, e);
    ChunkParses(chunk);
    if e.committed && Parses(ChunkRequest(chunk)) {
      ChunkNames(chunk);
      ChunkOverrides(s, BlankKeys(ChunkRequest(chunk)), e.blank, chunk);
    }
  }

  class GraphDb {
    var store: Store

    constructor (store: Store)
      ensures this.store == store
    {
      this.store := store;
    }

    method Transact(us: seq<Upsert>, e: Execution) returns (known: map<string, nat>, created: map<nat, nat>)
      requires ExecutionOk(us, e)
      modifies this
      ensures store == After(old(store), us, e)
      ensures known == Found(old(store), us[e.lo..e.hi]) && created == Created(old(store), us[e.lo..e.hi], e.blank)
    {
      var chunk := us[e.lo..e.hi];
      SliceOk(us, e);
      RequestRuns(store, us, e);
      var request := ChunkRequest(chunk);
      known, created := Found(store, chunk), Created(store, chunk, e.blank);
      if e.committed && Parses(request) {
        store := RunMutations(store, BlankKeys(request), store, e.blank, request);
      }
    }

    // Adds what one transaction replied, if it did, to what was collected.
    method RunOne(us: seq<Upsert>, e: Execution, known: map<string, nat>, created: map<nat, nat>,
                  ghost start: Store, ghost ran: seq<Execution>, ghost done: set<nat>, ghost answered: set<nat>)
      returns (known': map<string, nat>, created': map<nat, nat>, ghost done': set<nat>, ghost answered': set<nat>)
      requires ExecutionOk(us, e) && Running(start, store, us, ran, known, created, done, answered)
      modifies this
      ensures store == After(old(store), us, e)
      ensures Running(start, store, us, ran + [e], known', created', done', answered')
    {
      RunningStep(start, store, us, ran, e, known, created, done, answered);
      var found, made := Transact(us, e);
      var replies := Replies(NodesOf(us), e);
      done' := if TakesEffect(NodesOf(us), e) then done + Covered(e) else done;
      answered' := if replies then answered + Covered(e) else answered;
      known', created' := if replies then known + found else known, if replies then created + made else created;
    }

    method RunSchedule(us: seq<Upsert>, schedule: seq<Execution>)
      returns (known: map<string, nat>, created: map<nat, nat>, ghost done: set<nat>, ghost answered: set<nat>)
      requires ChunkOk(us) && ScheduleOk(schedule, |us|)
      modifies this
      ensures Running(old(store), store, us, schedule, known, created, done, answered)
      ensures UidsOk(old(store), store, schedule, |schedule|)
    {
      known, created, done, answered := map[], map[], {}, {};
      TakeAll(schedule);
      for i := 0 to |schedule|
        invariant Running(old(store), store, us, schedule[..i], known, created, done, answered)
        invariant UidsOk(old(store), store, schedule, i)
      {
        TakeNext(schedule, i);
        assert ExecutionOk(us, schedule[i]);
        UidsStep(old(store), store, us, schedule, i);
        known, created, done, answered :=
          RunOne(us, schedule[i], known, created, old(store), schedule[..i], done, answered);
      }
    }

    // However the nodes are chunked, in whatever order and however often the chunks run:
    // every node that a run with effect covered ends with its properties overridden, existing
    // nodes keep their uid and type, and nothing else changes.  If every chunk replied in the
    // end, every merged node carries its stored uid; otherwise the upserter panics.
    method UpsertNodes(nodes: seq<Node>, schedule: seq<Execution>) returns (merged: Option<seq<(Node, nat)>>)
      requires DistinctNodes(nodes) && ScheduleOk(schedule, |nodes|)
      modifies this
      ensures forall i | 0 <= i < |nodes| ::
                if Reached(nodes, schedule, i) then Finished(old(store), store, nodes[i]) else Untouched(old(store), store, nodes[i].key)
      ensures forall key | (forall i | 0 <= i < |nodes| :: nodes[i].key != key) :: Untouched(old(store), store, key)
      ensures KeepsUids(old(store), store)
      ensures FreshBlanks(old(store), schedule) && UidsDistinct(old(store)) ==> UidsDistinct(store)
      ensures merged.Some? <==> Completes(nodes, schedule)
      ensures merged.Some? ==> |merged.value| == |nodes| && forall i | 0 <= i < |nodes| :: IsMerged(store, nodes[i], merged.value[i])
    {
      var us: seq<Upsert> := [];
      for i := 0 to |nodes|
        invariant store == old(store)
        invariant |us| == i && forall j | 0 <= j < i :: us[j].node == nodes[j] && UpsertOk(us[j])
      {
        var _, names := BuildUpserts(nodes[i]);
        us := us + [Upsert(nodes[i], names)];
      }
      assert NodesOf(us) == nodes;
      ghost var start := store;
      var known, created, done, answered := RunSchedule(us, schedule);
      TakeAll(schedule);
      NodesFinished(start, store, nodes, us, schedule, done);
      if !Completes(nodes, schedule) {
        return None;
      }
      AllAnswered(store, us, schedule, known, created, answered);
      var all := Collect(nodes, known, created);
      merged := Some(all);
    }

    // The last loop: a merged node for every node.
    method Collect(nodes: seq<Node>, known: map<string, nat>, created: map<nat, nat>) returns (all: seq<(Node, nat)>)
      requires forall i | 0 <= i < |nodes| :: HasUid(store, nodes[i], known, created)
      ensures |all| == |nodes| && forall i | 0 <= i < |nodes| :: IsMerged(store, nodes[i], all[i])
    {
      all := [];
      for i := 0 to |nodes|
        invariant |all| == i && forall j | 0 <= j < i :: IsMerged(store, nodes[j], all[j])
      {
        var uid := UidOf(nodes[i], known, created);
        all := all + [(nodes[i], uid.value)];
      }
    }
  }

  ghost predicate HasUid(s: Store, n: Node, known: map<string, nat>, created: map<nat, nat>) {
    var uid := UidOf(n, known, created);
    uid.Some? && n.key in s && s[n.key].uid == uid.value
  }

  lemma AllAnswered(s: Store, us: seq<Upsert>, schedule: seq<Execution>, known: map<string, nat>, created: map<nat, nat>, answered: set<nat>)
    requires AnswersOk(s, us, known, created, answered) && Completes(NodesOf(us), schedule)
    requires forall i: nat | i < |us| :: i in answered <==> Replied(NodesOf(us), schedule, i)
    ensures forall i | 0 <= i < |us| :: HasUid(s, NodesOf(us)[i], known, created)
  {
    forall i | 0 <= i < |us|
      ensures HasUid(s, us[i].node, known, created)
    {
      assert Replied(NodesOf(us), schedule, i) && AnswerOk(s, us[i].node, known, created);
    }
  }

  ghost predicate IsMerged(s: Store, n: Node, m: (Node, nat)) {
    n.key in s && m == (n, s[n.key].uid)
  }

  lemma {:induction false} NodesFinished(start: Store, s: Store, nodes: seq<Node>, us: seq<Upsert>, schedule: seq<Execution>, done: set<nat>)
    requires nodes == NodesOf(us) && Progress(start, s, us, done)
    requires forall i: nat | i < |us| :: i in done <==> Reached(nodes, schedule, i)
    ensures forall i | 0 <= i < |nodes| ::
              if Reached(nodes, schedule, i) then Finished(start, s, nodes[i]) else Untouched(start, s, nodes[i].key)
    ensures forall key | (forall i | 0 <= i < |nodes| :: nodes[i].key != key) :: Untouched(start, s, key)
    ensures KeepsUids(start, s)
  {
    forall i | 0 <= i < |nodes|
      ensures if Reached(nodes, schedule, i) then Finished(start, s, nodes[i]) else Untouched(start, s, nodes[i].key)
    {
      assert us[i].node == nodes[i];
    }
  }
}
