/**
 The event cache: an LRU shared by all clones, in front of Redis.

 `RedisCache` is the imperative component, used by one caller at a time.  The state machine
 below it interleaves the lock sections and Redis calls of many clones.
 */
module EventCache {
  import opened Wrappers
  import opened Lru
  import opened Sequences

  // The items whose identity is not in `known`, in order.
  function Without<T, K(==)>(items: seq<T>, ident: T -> K, known: set<K>): seq<T> {
    if items == [] then []
    else
      Without(items[..|items| - 1], ident, known)
      + (if ident(items[|items| - 1]) in known then [] else [items[|items| - 1]])
  }

  // The items whose identity is in `known`, in order.
  function Among<T, K(==)>(items: seq<T>, ident: T -> K, known: set<K>): seq<T> {
    if items == [] then []
    else
      Among(items[..|items| - 1], ident, known)
      + (if ident(items[|items| - 1]) in known then [items[|items| - 1]] else [])
  }

  function Identities<T, K(==)>(items: seq<T>, ident: T -> K): set<K> {
    set i | 0 <= i < |items| :: ident(items[i])
  }

  lemma IdentitiesSnoc<T, K>(items: seq<T>, last: T, ident: T -> K)
    ensures Identities(items + [last], ident) == Identities(items, ident) + {ident(last)}
  {
    var all := items + [last];
    assert all[|items|] == last && forall i | 0 <= i < |items| :: all[i] == items[i];
  }

  lemma {:induction false} WithoutTwice<T, K>(items: seq<T>, ident: T -> K, a: set<K>, b: set<K>)
    ensures Without(Without(items, ident, a), ident, b) == Without(items, ident, a + b)
  {
    if items != [] {
      var front, last := items[..|items| - 1], items[|items| - 1];
      WithoutTwice(front, ident, a, b);
      var kept := Without(front, ident, a);
      if ident(last) !in a {
        assert (kept + [last])[..|kept + [last]| - 1] == kept;
        assert Without(kept + [last], ident, b) == Without(kept, ident, b) + (if ident(last) in b then [] else [last]);
      } else {
        assert kept + [] == kept;
      }
    }
  }

  lemma {:induction false} WithoutMembers<T, K>(items: seq<T>, ident: T -> K, known: set<K>)
    ensures forall c | c in Without(items, ident, known) :: c in items && ident(c) !in known
    ensures forall c | c in items && ident(c) !in known :: c in Without(items, ident, known)
  {
    if items != [] {
      var front, last := items[..|items| - 1], items[|items| - 1];
      WithoutMembers(front, ident, known);
      assert items == front + [last];
    }
  }

  // ---------------------------------------------------------------- one caller at a time

  function TouchAll<K(==)>(lru: Entries<K, ()>, ks: seq<K>): Entries<K, ()> {
    if ks == [] then lru else Touched(TouchAll(lru, ks[..|ks| - 1]), ks[|ks| - 1])
  }

  function PutAll<K(==)>(cap: nat, lru: Entries<K, ()>, ks: seq<K>): Entries<K, ()> {
    if ks == [] then lru else Inserted(cap, PutAll(cap, lru, ks[..|ks| - 1]), ks[|ks| - 1], ())
  }

  // The keys whose put found nothing.
  function NewKeys<K(==)>(cap: nat, lru: Entries<K, ()>, ks: seq<K>): set<K> {
    if ks == [] then {} else
    var front, last := ks[..|ks| - 1], ks[|ks| - 1];
    NewKeys(cap, lru, front) + (if Find(PutAll(cap, lru, front), last).None? then {last} else {})
  }

  function SetOf<K(==)>(ks: seq<K>): set<K> {
    set k | k in ks
  }

  lemma {:induction false} TouchAllKeys<K>(lru: Entries<K, ()>, ks: seq<K>)
    ensures Keys(TouchAll(lru, ks)) == Keys(lru)
  {
    if ks != [] {
      TouchAllKeys(lru, ks[..|ks| - 1]);
      TouchedKeepsEntries(TouchAll(lru, ks[..|ks| - 1]), ks[|ks| - 1]);
    }
  }

  lemma SetOfLast<K>(ks: seq<K>)
    requires ks != []
    ensures SetOf(ks) == SetOf(ks[..|ks| - 1]) + {ks[|ks| - 1]}
  {
    SplitLast(ks);
  }

  lemma {:induction false} PutAllKeys<K>(cap: nat, lru: Entries<K, ()>, ks: seq<K>)
    ensures Keys(PutAll(cap, lru, ks)) <= Keys(lru) + SetOf(ks)
    ensures NewKeys(cap, lru, ks) <= SetOf(ks)
    ensures SetOf(ks) <= Keys(lru) + NewKeys(cap, lru, ks)
  {
    if ks != [] {
      var front, last := ks[..|ks| - 1], ks[|ks| - 1];
      PutAllKeys(cap, lru, front);
      InsertedEntries(cap, PutAll(cap, lru, front), last, ());
      FindIsMembership(PutAll(cap, lru, front), last);
      SetOfLast(ks);
    }
  }

  function Ids<T, K>(items: seq<T>, ident: T -> K): seq<K> {
    seq(|items|, i requires 0 <= i < |items| => ident(items[i]))
  }

  lemma SetOfIds<T, K>(items: seq<T>, ident: T -> K)
    ensures SetOf(Ids(items, ident)) == Identities(items, ident)
  {
    forall i | 0 <= i < |items|
      ensures ident(items[i]) in SetOf(Ids(items, ident))
    {
      assert Ids(items, ident)[i] == ident(items[i]);
    }
  }

  // ---------------------------------------------------------------- what the LRU keeps

  predicate Shaped<K(==)>(cap: nat, lru: Entries<K, ()>) {
    DistinctKeys(lru) && |lru| <= cap && 1 <= cap
  }

  lemma {:induction false} TouchesKeep<K>(cap: nat, lru: Entries<K, ()>, ks: seq<K>, k: K, room: set<K>)
    requires Shaped(cap, lru) && |room| <= cap && (forall o | o in ks :: o in room)
    ensures Shaped(cap, TouchAll(lru, ks))
    ensures k in ks && k in Keys(lru) ==> KeptIn(TouchAll(lru, ks), k, room)
    decreases |ks|
  {
    if ks != [] {
      var front, last := ks[..|ks| - 1], ks[|ks| - 1];
      SplitLast(ks);
      TouchesKeep(cap, lru, front, k, room);
      TouchAllKeys(lru, front);
      var use: Use<K, ()> := GetOf(last);
      UsedKeepsShape(cap, TouchAll(lru, front), use);
      if k in ks && k in Keys(lru) {
        KeptStep(cap, TouchAll(lru, front), use, k, room);
      }
    }
  }

  lemma {:induction false} PutsKeep<K>(cap: nat, lru: Entries<K, ()>, ks: seq<K>, k: K, room: set<K>)
    requires Shaped(cap, lru) && |room| <= cap && (forall o | o in ks :: o in room)
    ensures Shaped(cap, PutAll(cap, lru, ks))
    ensures k in ks || KeptIn(lru, k, room) ==> KeptIn(PutAll(cap, lru, ks), k, room)
    decreases |ks|
  {
    if ks != [] {
      var front, last := ks[..|ks| - 1], ks[|ks| - 1];
      SplitLast(ks);
      PutsKeep(cap, lru, front, k, room);
      UsedKeepsShape(cap, PutAll(cap, lru, front), PutOf(last, ()));
      if k in ks || KeptIn(lru, k, room) {
        KeptStep(cap, PutAll(cap, lru, front), PutOf(last, ()), k, room);
      }
    }
  }

  lemma KeptIsKey<K>(lru: Entries<K, ()>, k: K, room: set<K>)
    requires KeptIn(lru, k, room)
    ensures k in Keys(lru)
  {
  }

  // With room for the ids of a call, the LRU holds afterwards exactly those that it held and
  // those that were put back.
  lemma FoundIsKept<K>(cap: nat, lru: Entries<K, ()>, ks: seq<K>, hits: seq<K>, k: K)
    requires Shaped(cap, lru) && |SetOf(ks)| <= cap && (forall o | o in hits :: o in ks) && k in ks
    ensures k in Keys(PutAll(cap, TouchAll(lru, ks), hits)) <==> k in Keys(lru) || k in hits
  {
    TouchesKeep(cap, lru, ks, k, SetOf(ks));
    PutsKeep(cap, TouchAll(lru, ks), hits, k, SetOf(ks));
    TouchAllKeys(lru, ks);
    PutAllKeys(cap, TouchAll(lru, ks), hits);
    if k in Keys(lru) || k in hits {
      KeptIsKey(PutAll(cap, TouchAll(lru, ks), hits), k, SetOf(ks));
    }
  }

  class RedisCache<T, K(==)> {
    const ident: T -> K
    const lru: LruCache<K, ()>
    var redis: set<K>
    ghost var stored: set<K>   // identities of everything ever passed to store

    // Nothing is remembered that was not stored.
    ghost predicate Valid()
      reads this, lru
    {
      Keys(lru.entries) <= stored && redis <= stored
    }

    // No SET has failed: everything stored is in Redis.
    ghost predicate Complete()
      reads this
    {
      redis == stored
    }

    constructor (ident: T -> K, cap: nat)
      ensures Valid() && Complete() && stored == {} && fresh(lru)
      ensures this.ident == ident && lru.cap == cap
    {
      this.ident := ident;
      lru := new LruCache(cap);
      redis := {};
      stored := {};
    }

    // The lock section that looks every item up.
    method LruMisses(items: seq<T>) returns (misses: seq<T>)
      modifies lru
      ensures lru.entries == TouchAll(old(lru.entries), Ids(items, ident))
      ensures misses == Without(items, ident, Keys(old(lru.entries)))
    {
      ghost var entries := lru.entries;
      misses := [];
      for i := 0 to |items|
        invariant lru.entries == TouchAll(entries, Ids(items[..i], ident))
        invariant misses == Without(items[..i], ident, Keys(entries))
      {
        var k := ident(items[i]);
        assert items[..i + 1][..i] == items[..i];
        assert Ids(items[..i + 1], ident)[..i] == Ids(items[..i], ident);
        TouchAllKeys(entries, Ids(items[..i], ident));
        FindIsMembership(lru.entries, k);
        var hit := lru.Get(k);
        if hit.None? {
          misses := misses + [items[i]];
        }
      }
      assert items[..|items|] == items;
    }

    // The lock section that puts every item, keeping those that were not there.
    method LruPuts(items: seq<T>) returns (added: seq<T>)
      modifies lru
      ensures lru.entries == PutAll(lru.cap, old(lru.entries), Ids(items, ident))
      ensures Identities(added, ident) == NewKeys(lru.cap, old(lru.entries), Ids(items, ident))
    {
      ghost var entries := lru.entries;
      added := [];
      for i := 0 to |items|
        invariant lru.entries == PutAll(lru.cap, entries, Ids(items[..i], ident))
        invariant Identities(added, ident) == NewKeys(lru.cap, entries, Ids(items[..i], ident))
      {
        var k := ident(items[i]);
        assert Ids(items[..i + 1], ident)[..i] == Ids(items[..i], ident);
        var previous := lru.Put(k, ());
        if previous.None? {
          IdentitiesSnoc(added, items[i], ident);
          added := added + [items[i]];
        }
      }
      assert items[..|items|] == items;
    }

    // One GET for all the items.
    method RedisLookup(items: seq<T>) returns (hits: seq<T>, misses: seq<T>)
      ensures misses == Without(items, ident, redis)
      ensures hits == Among(items, ident, redis) && Identities(hits, ident) <= redis
    {
      hits, misses := [], [];
      for i := 0 to |items|
        invariant misses == Without(items[..i], ident, redis)
        invariant hits == Among(items[..i], ident, redis) && Identities(hits, ident) <= redis
      {
        assert items[..i + 1][..i] == items[..i];
        if ident(items[i]) in redis {
          IdentitiesSnoc(hits, items[i], ident);
          hits := hits + [items[i]];
        } else {
          misses := misses + [items[i]];
        }
      }
      assert items[..|items|] == items;
    }

    // Without Redis failures, exactly the items never stored come back, in input order; with
    // a failing GET, at least those.
    method FilterCached(items: seq<T>, getFails: bool) returns (misses: seq<T>)
      requires Valid()
      modifies lru
      ensures Valid()
      ensures misses == Without(items, ident, if getFails then Keys(old(lru.entries)) else Keys(old(lru.entries)) + redis)
      ensures Complete() && !getFails ==> misses == Without(items, ident, stored)
      ensures Without(misses, ident, stored) == Without(items, ident, stored)
      ensures old(Keys(lru.entries) <= redis) ==> Keys(lru.entries) <= redis
      ensures var touched := TouchAll(old(lru.entries), Ids(items, ident));
              lru.entries ==
              if getFails then touched
              else PutAll(lru.cap, touched, Ids(Among(Without(items, ident, Keys(old(lru.entries))), ident, redis), ident))
    {
      ghost var keys := Keys(lru.entries);
      WithoutTwice(items, ident, keys, redis);
      WithoutTwice(items, ident, keys, stored);
      WithoutTwice(items, ident, keys + redis, stored);
      assert keys + stored == stored && keys + redis + stored == stored;
      assert Complete() ==> keys + redis == stored;
      TouchAllKeys(lru.entries, Ids(items, ident));

      misses := LruMisses(items);
      if misses == [] {
        return;
      }
      if getFails {
        return;
      }
      var hits;
      hits, misses := RedisLookup(misses);
      PutAllKeys(lru.cap, lru.entries, Ids(hits, ident));
      SetOfIds(hits, ident);
      var _ := LruPuts(hits);
    }

    // A failed SET is reported, but its ids stay in the LRU, so a later store of the same ids
    // has nothing to set.  A SET of nothing is sent all the same, and Redis refuses it.
    method StoreAll(items: seq<T>, setFails: bool) returns (r: Result<(), ()>)
      requires Valid()
      modifies this, lru
      ensures Valid() && stored == old(stored) + Identities(items, ident)
      ensures lru.entries == PutAll(lru.cap, old(lru.entries), Ids(items, ident))
      ensures r.Err? <==> items != [] && (setFails || NewKeys(lru.cap, old(lru.entries), Ids(items, ident)) == {})
      ensures redis == old(redis) + (if setFails then {} else NewKeys(lru.cap, old(lru.entries), Ids(items, ident)))
      ensures old(Keys(lru.entries) <= redis && Complete()) && !setFails ==> Complete() && Keys(lru.entries) <= redis
    {
      PutAllKeys(lru.cap, lru.entries, Ids(items, ident));
      SetOfIds(items, ident);
      stored := stored + Identities(items, ident);
      if items == [] {
        return Ok(());
      }
      var forRedis := LruPuts(items);
      assert forRedis != [] ==> ident(forRedis[0]) in Identities(forRedis, ident);
      if setFails || forRedis == [] {
        return Err(());
      }
      redis := redis + Identities(forRedis, ident);
      r := Ok(());
    }
  }

  // ---------------------------------------------------------------- many clones

  // What a clone has under way between two of its lock sections and Redis calls.
  datatype Handle<!K> =
    | Idle
    | Getting(items: seq<K>, misses: seq<K>, before: set<K>)
    | PuttingBack(items: seq<K>, hits: seq<K>, misses: seq<K>, before: set<K>)
    | Setting(items: seq<K>, pending: set<K>)

  // A finished filter call: what it was asked, what Redis held when it began, what had been
  // stored when it ended, and what it answered.
  datatype Answer<!K> = Answer(items: seq<K>, before: set<K>, storedAtEnd: set<K>, result: seq<K>, getFailed: bool)

  datatype Shared<!K> = Shared(
    lru: Entries<K, ()>,
    redis: set<K>,
    limbo: set<K>,       // SETs reported failed that Redis may still apply
    stored: set<K>,
    acked: set<K>,       // ids of stores that were answered with success
    handles: seq<Handle<K>>,
    answers: seq<Answer<K>>,
    setFailed: bool)

  datatype Call<!K> =
    | BeginFilter(h: nat, items: seq<K>)
    | RedisGet(h: nat, fails: bool)
    | PutBack(h: nat)
    | BeginStore(h: nat, items: seq<K>)
    | RedisSet(h: nat, fails: bool)
    | LateSet(k: K)

  function Same<K>(k: K): K {
    k
  }

  function Missing<K(==)>(ks: seq<K>, known: set<K>): seq<K> {
    Without(ks, Same, known)
  }

  function Present<K(==)>(ks: seq<K>, known: set<K>): seq<K> {
    Missing(ks, SetOf(ks) - known)
  }

  function Finish<K(==)>(s: Shared<K>, h: nat, a: Answer<K>): Shared<K>
    requires h < |s.handles|
  {
    s.(handles := s.handles[h := Idle], answers := s.answers + [a])
  }

  function Apply<K(==)>(cap: nat, s: Shared<K>, c: Call<K>): Shared<K> {
    match c
    case BeginFilter(h, items) =>
      if h >= |s.handles| || !s.handles[h].Idle? then s else
      var misses := Missing(items, Keys(s.lru));
      var s' := s.(lru := TouchAll(s.lru, items));
      if misses == [] then Finish(s', h, Answer(items, s.redis, s.stored, [], false))
      else s'.(handles := s.handles[h := Getting(items, misses, s.redis)])
    case RedisGet(h, fails) =>
      if h >= |s.handles| || !s.handles[h].Getting? then s else
      var g := s.handles[h];
      if fails then Finish(s, h, Answer(g.items, g.before, s.stored, g.misses, true))
      else s.(handles := s.handles[h := PuttingBack(g.items, Present(g.misses, s.redis), Missing(g.misses, s.redis), g.before)])
    case PutBack(h) =>
      if h >= |s.handles| || !s.handles[h].PuttingBack? then s else
      var p := s.handles[h];
      Finish(s.(lru := PutAll(cap, s.lru, p.hits)), h, Answer(p.items, p.before, s.stored, p.misses, false))
    case BeginStore(h, items) =>
      if h >= |s.handles| || !s.handles[h].Idle? || items == [] then s else
      s.(lru := PutAll(cap, s.lru, items), stored := s.stored + SetOf(items),
         handles := s.handles[h := Setting(items, NewKeys(cap, s.lru, items))])
    case RedisSet(h, fails) =>
      if h >= |s.handles| || !s.handles[h].Setting? then s else
      var Setting(items, pending) := s.handles[h];
      var s' := s.(handles := s.handles[h := Idle]);
      if pending == {} then s'   // refused by Redis, and reported as an error
      else if fails then s'.(limbo := s.limbo + pending, setFailed := true)
      else s'.(redis := s.redis + pending, acked := s.acked + SetOf(items))
    case LateSet(k) =>
      if k in s.limbo then s.(redis := s.redis + {k}) else s
  }

  function Start<K>(clones: nat): Shared<K> {
    Shared([], {}, {}, {}, {}, seq(clones, _ => Idle), [], false)
  }

  function Run<K(==)>(cap: nat, clones: nat, calls: seq<Call<K>>): Shared<K> {
    if calls == [] then Start(clones)
    else Apply(cap, Run(cap, clones, calls[..|calls| - 1]), calls[|calls| - 1])
  }

  // ---------------------------------------------------------------- invariants

  predicate HandleOk<K>(s: Shared<K>, h: Handle<K>) {
    match h
    case Idle => true
    case Getting(items, misses, before) =>
      && before <= s.redis
      && (forall k | k in misses :: k in items)
      && (forall k | k in items && k !in misses :: k in s.stored)
    case PuttingBack(items, hits, misses, before) =>
      && before <= s.redis
      && (forall k | k in hits :: k in s.stored)
      && (forall k | k in misses :: k in items && k !in before)
      && (forall k | k in items && k !in misses :: k in s.stored)
    case Setting(items, pending) => pending <= s.stored && SetOf(items) <= s.stored
  }

  // A finished call reported as cached only what had been stored, and, if its GET worked,
  // everything that was in Redis before it began.
  predicate AnswerOk<K>(a: Answer<K>) {
    && (forall k | k in a.result :: k in a.items)
    && (forall k | k in a.items && k !in a.result :: k in a.storedAtEnd)
    && (!a.getFailed ==> forall k | k in a.result :: k !in a.before)
  }

  predicate Sound<K(==)>(s: Shared<K>) {
    && Keys(s.lru) <= s.stored && s.redis <= s.stored && s.limbo <= s.stored && s.acked <= s.stored
    && (forall h | h in s.handles :: HandleOk(s, h))
    && (forall a | a in s.answers :: AnswerOk(a))
  }

  predicate InFlight<K(==)>(s: Shared<K>, k: K) {
    exists h | h in s.handles :: h.Setting? && k in h.pending
  }

  // While no SET has failed, the LRU holds nothing that is not in Redis or on its way there.
  predicate Backed<K(==)>(s: Shared<K>) {
    !s.setFailed ==>
      && (forall k | k in Keys(s.lru) :: k in s.redis || InFlight(s, k))
      && (forall k | k in s.stored :: k in s.redis || InFlight(s, k))
      && (forall h | h in s.handles && h.PuttingBack? :: forall k | k in h.hits :: k in s.redis)
  }

  lemma MissingMembers<K>(ks: seq<K>, known: set<K>)
    ensures forall k | k in Missing(ks, known) :: k in ks && k !in known
    ensures forall k | k in ks && k !in known :: k in Missing(ks, known)
    ensures forall k | k in Present(ks, known) :: k in ks && k in known
  {
    WithoutMembers(ks, Same, known);
    WithoutMembers(ks, Same, SetOf(ks) - known);
  }

  lemma SetHandleKeepsOthers<K>(s: Shared<K>, s': Shared<K>, h: nat, to: Handle<K>)
    requires h < |s.handles| && s'.handles == s.handles[h := to]
    requires s.redis <= s'.redis && s.stored <= s'.stored
    requires (forall o | o in s.handles :: HandleOk(s, o)) && HandleOk(s', to)
    ensures forall o | o in s'.handles :: HandleOk(s', o)
  {
    forall o | o in s'.handles
      ensures HandleOk(s', o)
    {
      var i :| 0 <= i < |s'.handles| && s'.handles[i] == o;
      assert i != h ==> s.handles[i] == o && HandleOk(s, o);
    }
  }

  lemma BeginFilterKeepsSound<K>(cap: nat, s: Shared<K>, h: nat, items: seq<K>)
    requires Sound(s) && h < |s.handles| && s.handles[h].Idle?
    ensures Sound(Apply(cap, s, BeginFilter(h, items)))
  {
    var s' := Apply(cap, s, BeginFilter(h, items));
    var misses := Missing(items, Keys(s.lru));
    TouchAllKeys(s.lru, items);
    MissingMembers(items, Keys(s.lru));
    var to := if misses == [] then Idle else Getting(items, misses, s.redis);
    assert forall k | k in items && k !in misses :: k in Keys(s.lru);
    assert HandleOk(s', to);
    SetHandleKeepsOthers(s, s', h, to);
  }

  lemma RedisGetKeepsSound<K>(cap: nat, s: Shared<K>, h: nat, fails: bool)
    requires Sound(s) && h < |s.handles| && s.handles[h].Getting?
    ensures Sound(Apply(cap, s, RedisGet(h, fails)))
  {
    var s' := Apply(cap, s, RedisGet(h, fails));
    var g := s.handles[h];
    assert HandleOk(s, g);
    var hits, misses := Present(g.misses, s.redis), Missing(g.misses, s.redis);
    MissingMembers(g.misses, s.redis);
    var to := if fails then Idle else PuttingBack(g.items, hits, misses, g.before);
    assert forall k | k in misses :: k in g.misses && k !in s.redis;
    assert forall k | k in hits :: k in s.redis;
    assert forall k | k in g.misses && k !in misses :: k in s.redis;
    assert HandleOk(s', to);
    SetHandleKeepsOthers(s, s', h, to);
  }

  lemma PutBackKeepsSound<K>(cap: nat, s: Shared<K>, h: nat)
    requires Sound(s) && h < |s.handles| && s.handles[h].PuttingBack?
    ensures Sound(Apply(cap, s, PutBack(h)))
  {
    assert HandleOk(s, s.handles[h]);
    PutAllKeys(cap, s.lru, s.handles[h].hits);
    SetHandleKeepsOthers(s, Apply(cap, s, PutBack(h)), h, Idle);
  }

  lemma StoreKeepsSound<K>(cap: nat, s: Shared<K>, c: Call<K>)
    requires Sound(s) && (c.BeginStore? || c.RedisSet? || c.LateSet?)
    ensures Sound(Apply(cap, s, c))
  {
    var s' := Apply(cap, s, c);
    if s' != s {
      match c
      case BeginStore(h, items) =>
        PutAllKeys(cap, s.lru, items);
        SetHandleKeepsOthers(s, s', h, Setting(items, NewKeys(cap, s.lru, items)));
      case RedisSet(h, fails) =>
        assert HandleOk(s, s.handles[h]);
        SetHandleKeepsOthers(s, s', h, Idle);
      case LateSet(k) =>
        forall h | h in s'.handles
          ensures HandleOk(s', h)
        {
          assert HandleOk(s, h);
        }
      case _ =>
    }
  }

  lemma ApplyKeepsSound<K>(cap: nat, s: Shared<K>, c: Call<K>)
    requires Sound(s)
    ensures Sound(Apply(cap, s, c))
  {
    match c
    case BeginFilter(h, items) =>
      if h < |s.handles| && s.handles[h].Idle? {
        BeginFilterKeepsSound(cap, s, h, items);
      }
    case RedisGet(h, fails) =>
      if h < |s.handles| && s.handles[h].Getting? {
        RedisGetKeepsSound(cap, s, h, fails);
      }
    case PutBack(h) =>
      if h < |s.handles| && s.handles[h].PuttingBack? {
        PutBackKeepsSound(cap, s, h);
      }
    case _ =>
      StoreKeepsSound(cap, s, c);
  }

  lemma {:induction false} RunIsSound<K>(cap: nat, clones: nat, calls: seq<Call<K>>)
    ensures Sound(Run(cap, clones, calls))
  {
    if calls != [] {
      RunIsSound(cap, clones, calls[..|calls| - 1]);
      ApplyKeepsSound(cap, Run(cap, clones, calls[..|calls| - 1]), calls[|calls| - 1]);
    }
  }

  lemma FlightsPersist<K>(s: Shared<K>, s': Shared<K>, h: nat)
    requires h < |s.handles| == |s'.handles| && s'.handles == s.handles[h := s'.handles[h]]
    requires s.handles[h].Setting? ==> s'.handles[h] == s.handles[h]
    ensures forall k | InFlight(s, k) :: InFlight(s', k)
  {
    forall k | InFlight(s, k)
      ensures InFlight(s', k)
    {
      var o :| o in s.handles && o.Setting? && k in o.pending;
      var i :| 0 <= i < |s.handles| && s.handles[i] == o;
      assert s'.handles[i] == o;
    }
  }

  lemma RedisGetKeepsBacked<K>(cap: nat, s: Shared<K>, h: nat, fails: bool)
    requires Backed(s) && !s.setFailed && h < |s.handles| && s.handles[h].Getting?
    ensures Backed(Apply(cap, s, RedisGet(h, fails)))
  {
    var s' := Apply(cap, s, RedisGet(h, fails));
    MissingMembers(s.handles[h].misses, s.redis);
    assert forall k | k in Present(s.handles[h].misses, s.redis) :: k in s.redis;
    FlightsPersist(s, s', h);
    forall o | o in s'.handles && o.PuttingBack?
      ensures forall k | k in o.hits :: k in s'.redis
    {
      var i :| 0 <= i < |s'.handles| && s'.handles[i] == o;
      assert i != h ==> s.handles[i] == o;
    }
  }

  lemma RedisSetKeepsBacked<K>(cap: nat, s: Shared<K>, h: nat, fails: bool)
    requires Backed(s) && h < |s.handles| && s.handles[h].Setting?
    requires !Apply(cap, s, RedisSet(h, fails)).setFailed
    ensures Backed(Apply(cap, s, RedisSet(h, fails)))
  {
    var s' := Apply(cap, s, RedisSet(h, fails));
    forall k | InFlight(s, k)
      ensures k in s'.redis || InFlight(s', k)
    {
      var o :| o in s.handles && o.Setting? && k in o.pending;
      var i :| 0 <= i < |s.handles| && s.handles[i] == o;
      assert i != h ==> s'.handles[i] == o;
    }
  }

  lemma ApplyKeepsBacked<K>(cap: nat, s: Shared<K>, c: Call<K>)
    requires Sound(s) && Backed(s) && !Apply(cap, s, c).setFailed
    ensures Backed(Apply(cap, s, c))
  {
    var s' := Apply(cap, s, c);
    if s' != s {
      match c
      case BeginFilter(h, items) =>
        TouchAllKeys(s.lru, items);
        FlightsPersist(s, s', h);
      case RedisGet(h, fails) => RedisGetKeepsBacked(cap, s, h, fails);
      case PutBack(h) =>
        PutAllKeys(cap, s.lru, s.handles[h].hits);
        FlightsPersist(s, s', h);
      case BeginStore(h, items) =>
        PutAllKeys(cap, s.lru, items);
        FlightsPersist(s, s', h);
        assert s'.handles[h] in s'.handles;
        assert forall k | k in NewKeys(cap, s.lru, items) :: InFlight(s', k);
      case RedisSet(h, fails) => RedisSetKeepsBacked(cap, s, h, fails);
      case LateSet(k) =>
        assert forall k | InFlight(s, k) :: InFlight(s', k);
    }
  }

  lemma {:induction false} RunIsBacked<K>(cap: nat, clones: nat, calls: seq<Call<K>>)
    ensures Backed(Run(cap, clones, calls))
  {
    if calls != [] {
      var s := Run(cap, clones, calls[..|calls| - 1]);
      RunIsBacked(cap, clones, calls[..|calls| - 1]);
      RunIsSound(cap, clones, calls[..|calls| - 1]);
      if !Run(cap, clones, calls).setFailed {
        ApplyKeepsBacked(cap, s, calls[|calls| - 1]);
      }
    }
  }

  // ---------------------------------------------------------------- main results

  // Over all interleavings of clones, with Redis failing at will, nothing is reported cached
  // that was never stored, and with a working GET nothing is reported uncached that was
  // already in Redis.
  lemma AnswersAreSound<K>(cap: nat, clones: nat, calls: seq<Call<K>>, a: Answer<K>)
    requires a in Run(cap, clones, calls).answers
    ensures forall k | k in a.items && k !in a.result :: k in a.storedAtEnd
    ensures !a.getFailed ==> forall k | k in a.items && k in a.before :: k !in a.result
  {
    RunIsSound(cap, clones, calls);
  }

  // While no SET has failed, every stored id is in Redis or in a SET under way.
  lemma StoredIsBacked<K>(cap: nat, clones: nat, calls: seq<Call<K>>, k: K)
    requires var s := Run(cap, clones, calls); !s.setFailed && (k in s.stored || k in Keys(s.lru))
    ensures var s := Run(cap, clones, calls); k in s.redis || InFlight(s, k)
  {
    RunIsBacked(cap, clones, calls);
  }

  // A filter call that no other call interrupts, with a working GET.
  function FilterOnce<K(==)>(cap: nat, s: Shared<K>, h: nat, items: seq<K>): Shared<K> {
    Apply(cap, Apply(cap, Apply(cap, s, BeginFilter(h, items)), RedisGet(h, false)), PutBack(h))
  }

  ghost predicate Answers<K>(cap: nat, s: Shared<K>, h: nat, items: seq<K>, result: seq<K>) {
    var s' := FilterOnce(cap, s, h, items);
    |s'.answers| == |s.answers| + 1 && s'.answers[|s.answers|].result == result
  }

  // The ids that the GET of a filter call finds.
  lemma HitMembers<K>(ks: seq<K>, lru: set<K>, redis: set<K>)
    ensures forall k :: k in Present(Missing(ks, lru), redis) <==> k in ks && k !in lru && k in redis
  {
    var misses := Missing(ks, lru);
    WithoutMembers(ks, Same, lru);
    WithoutMembers(misses, Same, SetOf(misses) - redis);
    forall k: K
      ensures k in Present(misses, redis) <==> k in misses && k in redis
      ensures k in misses <==> k in ks && k !in lru
    {
      assert Same(k) == k;
    }
  }

  lemma FilterOnceLru<K>(cap: nat, s: Shared<K>, h: nat, items: seq<K>)
    requires h < |s.handles| && s.handles[h].Idle?
    ensures FilterOnce(cap, s, h, items).lru
            == PutAll(cap, TouchAll(s.lru, items), Present(Missing(items, Keys(s.lru)), s.redis))
  {
    var misses := Missing(items, Keys(s.lru));
    var s1 := Apply(cap, s, BeginFilter(h, items));
    if misses != [] {
      assert s1.handles[h] == Getting(items, misses, s.redis);
      var s2 := Apply(cap, s1, RedisGet(h, false));
      assert s2.handles[h].PuttingBack? && s2.handles[h].hits == Present(misses, s.redis);
    }
  }

  lemma TiersAreKept<K>(cap: nat, lru: Entries<K, ()>, redis: set<K>, ks: seq<K>, hits: seq<K>, k: K)
    requires Shaped(cap, lru) && |SetOf(ks)| <= cap && k in ks
    requires hits == Present(Missing(ks, Keys(lru)), redis)
    ensures k in Keys(PutAll(cap, TouchAll(lru, ks), hits)) <==> k in Keys(lru) || k in redis
  {
    HitMembers(ks, Keys(lru), redis);
    forall o | o in hits
      ensures o in ks
    {
    }
    FoundIsKept(cap, lru, ks, hits, k);
  }

  // With room for its ids, everything that a filter call made alone found in either tier is
  // in the LRU after it, where a next call finds it without Redis.
  lemma FoundIsRemembered<K>(cap: nat, s: Shared<K>, h: nat, items: seq<K>, k: K)
    requires h < |s.handles| && s.handles[h].Idle? && Shaped(cap, s.lru) && |SetOf(items)| <= cap && k in items
    ensures k in Keys(FilterOnce(cap, s, h, items).lru) <==> k in Keys(s.lru) || k in s.redis
  {
    FilterOnceLru(cap, s, h, items);
    TiersAreKept(cap, s.lru, s.redis, items, Present(Missing(items, Keys(s.lru)), s.redis), k);
  }

  // It answers what is in neither tier.
  lemma FilterAlone<K>(cap: nat, s: Shared<K>, h: nat, items: seq<K>)
    requires h < |s.handles| && s.handles[h].Idle?
    ensures Answers(cap, s, h, items, Missing(items, Keys(s.lru) + s.redis))
  {
    WithoutTwice(items, Same, Keys(s.lru), s.redis);
    var misses := Missing(items, Keys(s.lru));
    var s1 := Apply(cap, s, BeginFilter(h, items));
    if misses != [] {
      assert s1.handles[h] == Getting(items, misses, s.redis) && s1.answers == s.answers;
      var s2 := Apply(cap, s1, RedisGet(h, false));
      assert s2.handles[h].PuttingBack? && s2.handles[h].misses == Missing(misses, s.redis) && s2.answers == s.answers;
    }
  }

  // With a failing GET it answers what is not in the LRU.
  lemma FilterAloneFailing<K>(cap: nat, s: Shared<K>, h: nat, items: seq<K>)
    requires h < |s.handles| && s.handles[h].Idle?
    ensures var s' := Apply(cap, Apply(cap, s, BeginFilter(h, items)), RedisGet(h, true));
            |s'.answers| == |s.answers| + 1 && s'.answers[|s.answers|].result == Missing(items, Keys(s.lru))
  {
    var s1 := Apply(cap, s, BeginFilter(h, items));
    if Missing(items, Keys(s.lru)) != [] {
      assert s1.handles[h] == Getting(items, Missing(items, Keys(s.lru)), s.redis) && s1.answers == s.answers;
    }
  }

  // A store that no other call interrupts: what was new is set, and the caller is answered
  // with success when there was something new and the SET worked.
  lemma StoreAlone<K>(cap: nat, s: Shared<K>, h: nat, items: seq<K>, fails: bool)
    requires h < |s.handles| && s.handles[h].Idle? && items != []
    ensures var s' := Apply(cap, Apply(cap, s, BeginStore(h, items)), RedisSet(h, fails));
            var new_ := NewKeys(cap, s.lru, items);
            && s'.lru == PutAll(cap, s.lru, items)
            && s'.redis == s.redis + (if fails then {} else new_)
            && s'.acked == s.acked + (if fails || new_ == {} then {} else SetOf(items))
            && (s'.setFailed <==> s.setFailed || (fails && new_ != {}))
  {
    var s1 := Apply(cap, s, BeginStore(h, items));
    assert s1.handles[h] == Setting(items, NewKeys(cap, s.lru, items));
  }

  // Hence, when no SET has failed and none is under way, a filter call made alone answers
  // exactly the items never stored, for every capacity and every eviction history.
  lemma QuiescentFilterIsExact<K>(cap: nat, clones: nat, calls: seq<Call<K>>, h: nat, items: seq<K>)
    requires var s := Run(cap, clones, calls);
             !s.setFailed && h < |s.handles| && forall o | o in s.handles :: o.Idle?
    ensures var s := Run(cap, clones, calls); Answers(cap, s, h, items, Missing(items, s.stored))
  {
    var s := Run(cap, clones, calls);
    RunIsBacked(cap, clones, calls);
    RunIsSound(cap, clones, calls);
    assert forall k | k in s.stored :: k in s.redis || InFlight(s, k);
    assert Keys(s.lru) + s.redis == s.stored;
    FilterAlone(cap, s, h, items);
  }

  // ---------------------------------------------------------------- what can be missed

  lemma Extend<K>(cap: nat, clones: nat, calls: seq<Call<K>>, more: seq<Call<K>>, c: Call<K>)
    ensures Run(cap, clones, calls + (more + [c])) == Apply(cap, Run(cap, clones, calls + more), c)
  {
    var all := calls + (more + [c]);
    assert all[..|all| - 1] == calls + more;
  }

  lemma ApplyGrows<K>(cap: nat, s: Shared<K>, c: Call<K>)
    ensures var s' := Apply(cap, s, c);
            s.redis <= s'.redis && (s.setFailed ==> s'.setFailed) && |s'.handles| == |s.handles|
  {
  }

  // Redis only grows, and a failed SET is not forgotten.
  lemma {:induction false} RedisGrows<K>(cap: nat, clones: nat, calls: seq<Call<K>>, more: seq<Call<K>>)
    ensures var s, s' := Run(cap, clones, calls), Run(cap, clones, calls + more);
            s.redis <= s'.redis && (s.setFailed ==> s'.setFailed) && |s'.handles| == |s.handles|
    decreases |more|
  {
    if more == [] {
      assert calls + more == calls;
    } else {
      var front, last := more[..|more| - 1], more[|more| - 1];
      SplitLast(more);
      RedisGrows(cap, clones, calls, front);
      ApplyGrows(cap, Run(cap, clones, calls + front), last);
      Extend(cap, clones, calls, front, last);
    }
  }

  // How many entries the LRU holds at most: a cache of capacity 0 still takes one.
  function Room(cap: nat): nat {
    if cap == 0 then 1 else cap
  }

  lemma {:induction false} RemoveOne<K, V>(entries: Entries<K, V>, k: K, n: nat)
    requires n <= |entries| && forall i | 0 <= i < n :: entries[i].0 != k
    ensures |Remove(entries, k)| == |entries| - (if Find(entries, k).Some? then 1 else 0)
    ensures n <= |Remove(entries, k)| && Remove(entries, k)[..n] == entries[..n]
    decreases |entries|
  {
    if entries != [] && entries[0].0 != k {
      RemoveOne(entries[1..], k, if n == 0 then 0 else n - 1);
    }
  }

  lemma InsertedFits<K>(cap: nat, lru: Entries<K, ()>, k: K)
    requires |lru| <= Room(cap)
    ensures |Inserted(cap, lru, k, ())| <= Room(cap)
  {
    RemoveOne(lru, k, 0);
  }

  lemma {:induction false} CallsFit<K>(cap: nat, lru: Entries<K, ()>, ks: seq<K>)
    requires |lru| <= Room(cap)
    ensures |TouchAll(lru, ks)| <= Room(cap) && |PutAll(cap, lru, ks)| <= Room(cap)
    decreases |ks|
  {
    if ks != [] {
      var front, last := ks[..|ks| - 1], ks[|ks| - 1];
      CallsFit(cap, lru, front);
      RemoveOne(TouchAll(lru, front), last, 0);
      InsertedFits(cap, PutAll(cap, lru, front), last);
    }
  }

  lemma {:induction false} RunFits<K>(cap: nat, clones: nat, calls: seq<Call<K>>)
    ensures |Run(cap, clones, calls).lru| <= Room(cap)
    decreases |calls|
  {
    if calls != [] {
      var front, last := calls[..|calls| - 1], calls[|calls| - 1];
      RunFits(cap, clones, front);
      var s := Run(cap, clones, front);
      match last
      case BeginFilter(_, items) => CallsFit(cap, s.lru, items);
      case PutBack(h) =>
        if h < |s.handles| && s.handles[h].PuttingBack? {
          CallsFit(cap, s.lru, s.handles[h].hits);
        }
      case BeginStore(_, items) => CallsFit(cap, s.lru, items);
      case _ =>
    }
  }

  // Every reachable LRU has each key once, so the above applies to it.
  lemma {:induction false} RunIsShaped<K>(cap: nat, clones: nat, calls: seq<Call<K>>)
    requires 1 <= cap
    ensures Shaped(cap, Run(cap, clones, calls).lru)
    decreases |calls|
  {
    if calls != [] {
      var front, last := calls[..|calls| - 1], calls[|calls| - 1];
      RunIsShaped(cap, clones, front);
      var s := Run(cap, clones, front);
      match last
      case BeginFilter(_, items) => StaysShaped(cap, s.lru, items);
      case PutBack(h) =>
        if h < |s.handles| && s.handles[h].PuttingBack? {
          StaysShaped(cap, s.lru, s.handles[h].hits);
        }
      case BeginStore(_, items) => StaysShaped(cap, s.lru, items);
      case _ =>
    }
  }

  lemma {:induction false} StaysShaped<K>(cap: nat, lru: Entries<K, ()>, ks: seq<K>)
    requires Shaped(cap, lru)
    ensures Shaped(cap, TouchAll(lru, ks)) && Shaped(cap, PutAll(cap, lru, ks))
    decreases |ks|
  {
    if ks != [] {
      var front, last := ks[..|ks| - 1], ks[|ks| - 1];
      StaysShaped(cap, lru, front);
      var use: Use<K, ()> := GetOf(last);
      UsedKeepsShape(cap, TouchAll(lru, front), use);
      UsedKeepsShape(cap, PutAll(cap, lru, front), PutOf(last, ()));
    }
  }

  // The most recent entries are those of `used`, the last one first.
  predicate Recent<K(==)>(lru: Entries<K, ()>, used: seq<K>) {
    |used| <= |lru| && forall i | 0 <= i < |used| :: lru[i].0 == used[|used| - 1 - i]
  }

  lemma InsertedRecent<K>(cap: nat, lru: Entries<K, ()>, used: seq<K>, k: K)
    requires Recent(lru, used) && k !in used && |used| < Room(cap)
    ensures Recent(Inserted(cap, lru, k, ()), used + [k])
  {
    var next := Inserted(cap, lru, k, ());
    RemoveOne(lru, k, |used|);
    assert next[0].0 == k;
    forall i | 0 < i <= |used|
      ensures i < |next| && next[i].0 == lru[i - 1].0
    {
      if Find(lru, k).Some? {
        assert Remove(lru, k)[..|used|][i - 1] == lru[..|used|][i - 1];
      }
    }
  }

  lemma RecentFills<K>(cap: nat, lru: Entries<K, ()>, used: seq<K>, k: K)
    requires Recent(lru, used) && |lru| <= |used| && k !in used
    ensures k !in Keys(lru)
  {
  }

  lemma PutOne<K>(cap: nat, lru: Entries<K, ()>, k: K)
    ensures PutAll(cap, lru, [k]) == Inserted(cap, lru, k, ())
    ensures NewKeys(cap, lru, [k]) == if Find(lru, k).None? then {k} else {}
  {
    assert [k][..0] == [];
  }

  // An idle clone stores one id, and Redis answers at once.
  lemma StoreOne<K>(cap: nat, clones: nat, calls: seq<Call<K>>, more: seq<Call<K>>, h: nat, k: K) returns (next: seq<Call<K>>)
    requires var s := Run(cap, clones, calls + more); h < |s.handles| && s.handles[h].Idle?
    ensures var s, s' := Run(cap, clones, calls + more), Run(cap, clones, calls + next);
            && s'.handles == s.handles && s'.lru == Inserted(cap, s.lru, k, ())
            && s'.redis <= s.redis + {k} && s'.setFailed == s.setFailed
  {
    var s := Run(cap, clones, calls + more);
    PutOne(cap, s.lru, k);
    Extend(cap, clones, calls, more, BeginStore(h, [k]));
    next := more + [BeginStore(h, [k])];
    Extend(cap, clones, calls, next, RedisSet(h, false));
    next := next + [RedisSet(h, false)];
    assert s.handles[h := Setting([k], NewKeys(cap, s.lru, [k]))][h := Idle] == s.handles;
  }

  // It stores others until the LRU is full of them.
  lemma {:induction false} StoreSupply<K>(cap: nat, clones: nat, calls: seq<Call<K>>, h: nat, k: K, supply: seq<K>)
    returns (more: seq<Call<K>>)
    requires var s := Run(cap, clones, calls); h < |s.handles| && s.handles[h].Idle? && k !in s.redis
    requires Distinct(supply) && k !in supply && |supply| <= Room(cap)
    ensures var s, s' := Run(cap, clones, calls), Run(cap, clones, calls + more);
            s'.handles == s.handles && k !in s'.redis && s'.setFailed == s.setFailed && Recent(s'.lru, supply)
    decreases |supply|
  {
    if supply == [] {
      more := [];
      assert calls + [] == calls;
    } else {
      var front, last := supply[..|supply| - 1], supply[|supply| - 1];
      assert supply == front + [last] && last !in front;
      more := StoreSupply(cap, clones, calls, h, k, front);
      InsertedRecent(cap, Run(cap, clones, calls + more).lru, front, last);
      more := StoreOne(cap, clones, calls, more, h, last);
    }
  }

  // In some continuation in which no SET with something to set fails, a filter call made
  // alone by the idle clone `h` returns `k`.
  ghost predicate CanBeMissed<K(!new)>(cap: nat, clones: nat, calls: seq<Call<K>>, h: nat, k: K) {
    exists more: seq<Call<K>> :: Misses(cap, Run(cap, clones, calls + more), h, k)
  }

  ghost predicate Misses<K>(cap: nat, s: Shared<K>, h: nat, k: K) {
    !s.setFailed && h < |s.handles| && s.handles[h].Idle? && Answers(cap, s, h, [k], [k])
  }

  lemma MissingOne<K>(k: K, known: set<K>)
    ensures Missing([k], known) == if k in known then [] else [k]
  {
    assert [k][..0] == [];
    assert Without([k], Same, known) == Without([k][..0], Same, known) + (if Same(k) in known then [] else [[k][0]]);
  }

  // An id can be reported missing exactly while Redis does not hold it, whatever was stored
  // or acknowledged and whatever the LRU holds; `supply` is as many other ids as it holds.
  lemma MissedIffNotInRedis<K(!new)>(cap: nat, clones: nat, calls: seq<Call<K>>, h: nat, k: K, supply: seq<K>)
    requires var s := Run(cap, clones, calls); !s.setFailed && h < |s.handles| && s.handles[h].Idle?
    requires Distinct(supply) && k !in supply && |supply| == Room(cap)
    ensures CanBeMissed(cap, clones, calls, h, k) <==> k !in Run(cap, clones, calls).redis
  {
    if more: seq<Call<K>> :| Misses(cap, Run(cap, clones, calls + more), h, k) {
      var s := Run(cap, clones, calls + more);
      RedisGrows(cap, clones, calls, more);
      FilterAlone(cap, s, h, [k]);
      MissingOne(k, Keys(s.lru) + s.redis);
    }
    if k !in Run(cap, clones, calls).redis {
      var more := StoreSupply(cap, clones, calls, h, k, supply);
      var s := Run(cap, clones, calls + more);
      RunFits(cap, clones, calls + more);
      RecentFills(cap, s.lru, supply, k);
      FilterAlone(cap, s, h, [k]);
      MissingOne(k, Keys(s.lru) + s.redis);
      assert Misses(cap, s, h, k);
    }
  }

  // Two clones: while clone 0's SET of `a` is under way, clone 1 stores `a` and `c`; its SET
  // holds only `c`, as `a` is in the LRU, and succeeds.
  lemma StoreUnderWay<K>(cap: nat, a: K, c: K) returns (calls: seq<Call<K>>)
    requires a != c
    ensures var s := Run(cap, 2, calls);
            |s.handles| == 2 && s.handles[1].Idle? && !s.setFailed && a in s.acked && a !in s.redis
  {
    PutOne(cap, [], a);
    assert [a][0] == a && SetOf([a]) == {a};
    calls := [BeginStore(0, [a])];
    assert calls[..0] == [];
    var s1: Shared<K> := Start(2);
    assert s1.handles[0 := Setting([a], {a})] == [Setting([a], {a}), Idle];
    assert Run(cap, 2, calls) == Shared([(a, ())], {}, {}, {a}, {}, [Setting([a], {a}), Idle], [], false);
    SecondStore(cap, Run(cap, 2, calls), a, c);
    var all := calls + [BeginStore(1, [a, c]), RedisSet(1, false)];
    assert all[..2] == calls + [BeginStore(1, [a, c])] && all[..2][..1] == calls;
    calls := all;
  }

  lemma SecondStore<K>(cap: nat, s: Shared<K>, a: K, c: K)
    requires a != c && s == Shared([(a, ())], {}, {}, {a}, {}, [Setting([a], {a}), Idle], [], false)
    ensures var s' := Apply(cap, Apply(cap, s, BeginStore(1, [a, c])), RedisSet(1, false));
            |s'.handles| == 2 && s'.handles[1].Idle? && !s'.setFailed && a in s'.acked && a !in s'.redis
  {
    PutTwo(cap, a, c);
    assert Apply(cap, s, BeginStore(1, [a, c])).handles[1] == Setting([a, c], {c});
    assert [a, c][0] == a && a in SetOf([a, c]);
  }

  lemma PutTwo<K>(cap: nat, a: K, c: K)
    requires a != c
    ensures NewKeys(cap, [(a, ())], [a, c]) == {c}
  {
    var lru := [(a, ())];
    assert [a, c][..1] == [a];
    PutOne(cap, lru, a);
    assert lru[1..] == [];
    assert Inserted(cap, lru, a, ()) == lru && Find(lru, c).None?;
  }

  // So a store that was answered with success does not make its id known to later filter
  // calls, not even to those of the same clone.
  lemma AcknowledgedStoreCanBeMissed<K(!new)>(cap: nat, a: K, c: K, supply: seq<K>) returns (calls: seq<Call<K>>)
    requires a != c && Distinct(supply) && a !in supply && |supply| == Room(cap)
    ensures a in Run(cap, 2, calls).acked && CanBeMissed(cap, 2, calls, 1, a)
  {
    calls := StoreUnderWay(cap, a, c);
    MissedIffNotInRedis(cap, 2, calls, 1, a, supply);
  }
}
