/** A least-recently-used map, as a list of entries with the most recent first. */
module Lru {
  import opened Wrappers

  type Entries<K, V> = seq<(K, V)>

  function Keys<K, V>(entries: Entries<K, V>): set<K> {
    set i | 0 <= i < |entries| :: entries[i].0
  }

  function Find<K(==), V>(entries: Entries<K, V>, k: K): Option<V> {
    if entries == [] then None
    else if entries[0].0 == k then Some(entries[0].1)
    else Find(entries[1..], k)
  }

  function Remove<K(==), V>(entries: Entries<K, V>, k: K): Entries<K, V> {
    if entries == [] then []
    else if entries[0].0 == k then entries[1..]
    else [entries[0]] + Remove(entries[1..], k)
  }

  function Touched<K(==), V>(entries: Entries<K, V>, k: K): Entries<K, V> {
    match Find(entries, k)
    case None => entries
    case Some(v) => [(k, v)] + Remove(entries, k)
  }

  // Insert or replace; a full cache first drops its least recent entry.
  function Inserted<K(==), V>(cap: nat, entries: Entries<K, V>, k: K, v: V): Entries<K, V> {
    if Find(entries, k).Some? then [(k, v)] + Remove(entries, k)
    else if |entries| >= cap && entries != [] then [(k, v)] + entries[..|entries| - 1]
    else [(k, v)] + entries
  }

  lemma {:induction false} FindIsMembership<K, V>(entries: Entries<K, V>, k: K)
    ensures Find(entries, k).Some? <==> k in Keys(entries)
    ensures Find(entries, k).Some? ==> (k, Find(entries, k).value) in entries
  {
    if entries != [] {
      FindIsMembership(entries[1..], k);
      assert entries == [entries[0]] + entries[1..];
    }
  }

  lemma {:induction false} RemoveKeepsOthers<K, V>(entries: Entries<K, V>, k: K)
    ensures forall e :: e in Remove(entries, k) ==> e in entries
    ensures forall e :: e in entries && e.0 != k ==> e in Remove(entries, k)
  {
    if entries != [] {
      RemoveKeepsOthers(entries[1..], k);
      assert entries == [entries[0]] + entries[1..];
    }
  }

  lemma TouchedKeepsEntries<K, V>(entries: Entries<K, V>, k: K)
    ensures Keys(Touched(entries, k)) == Keys(entries)
    ensures forall e | e in Touched(entries, k) :: e in entries
  {
    FindIsMembership(entries, k);
    RemoveKeepsOthers(entries, k);
    forall o | o in Keys(entries)
      ensures o in Keys(Touched(entries, k))
    {
      var i :| 0 <= i < |entries| && entries[i].0 == o;
      var e := entries[i];
      if Find(entries, k).Some? && o != k {
        assert e in Remove(entries, k);
      }
      if o == k {
        assert Touched(entries, k)[0].0 == k;
      } else {
        assert e in Touched(entries, k);
      }
    }
  }

  // Inserting adds the new entry and may only lose others.
  lemma InsertedEntries<K, V>(cap: nat, entries: Entries<K, V>, k: K, v: V)
    ensures (k, v) in Inserted(cap, entries, k, v) && k in Keys(Inserted(cap, entries, k, v))
    ensures forall e | e in Inserted(cap, entries, k, v) :: e == (k, v) || e in entries
    ensures Keys(Inserted(cap, entries, k, v)) <= Keys(entries) + {k}
  {
    RemoveKeepsOthers(entries, k);
    assert Inserted(cap, entries, k, v)[0] == (k, v);
  }

  // ---------------------------------------------------------------- recency

  datatype Use<K, V> = GetOf(key: K) | PutOf(key: K, value: V)

  function Used<K(==), V>(cap: nat, entries: Entries<K, V>, use: Use<K, V>): Entries<K, V> {
    match use
    case GetOf(k) => Touched(entries, k)
    case PutOf(k, v) => Inserted(cap, entries, k, v)
  }

  function UsedAll<K(==), V>(cap: nat, entries: Entries<K, V>, uses: seq<Use<K, V>>): Entries<K, V> {
    if uses == [] then entries else Used(cap, UsedAll(cap, entries, uses[..|uses| - 1]), uses[|uses| - 1])
  }

  // The keys put, or looked up and found, in the course of the uses.
  function UsedKeys<K(==), V>(cap: nat, entries: Entries<K, V>, uses: seq<Use<K, V>>): set<K> {
    if uses == [] then {} else
    var front, last := uses[..|uses| - 1], uses[|uses| - 1];
    UsedKeys(cap, entries, front)
    + (if last.PutOf? || last.key in Keys(UsedAll(cap, entries, front)) then {last.key} else {})
  }

  predicate DistinctKeys<K(==), V>(entries: Entries<K, V>) {
    forall i, j | 0 <= i < j < |entries| :: entries[i].0 != entries[j].0
  }

  // A key stands behind exactly the keys used after it, and whatever was used before it
  // comes last.
  ghost predicate Behind<K, V>(entries: Entries<K, V>, k: K, used: set<K>) {
    exists i :: 0 <= i < |entries| && entries[i].0 == k && Keys(entries[..i]) == used
  }

  lemma KeysOfParts<K, V>(a: Entries<K, V>, b: Entries<K, V>)
    ensures Keys(a + b) == Keys(a) + Keys(b)
  {
    forall k | k in Keys(a) + Keys(b)
      ensures k in Keys(a + b)
    {
      if k in Keys(a) {
        var i :| 0 <= i < |a| && a[i].0 == k;
        assert (a + b)[i].0 == k;
      } else {
        var i :| 0 <= i < |b| && b[i].0 == k;
        assert (a + b)[|a| + i].0 == k;
      }
    }
  }

  lemma {:induction false} CountKeys<K, V>(entries: Entries<K, V>)
    requires DistinctKeys(entries)
    ensures |Keys(entries)| == |entries|
  {
    if entries != [] {
      var n := |entries| - 1;
      CountKeys(entries[..n]);
      assert entries == entries[..n] + [entries[n]];
      KeysOfParts(entries[..n], [entries[n]]);
      assert Keys([entries[n]]) == {entries[n].0} by {
        assert [entries[n]][0].0 == entries[n].0;
      }
    }
  }

  // Where `k` was, the two parts of the list close up.
  lemma {:induction false} RemovedAt<K, V>(entries: Entries<K, V>, i: nat)
    requires DistinctKeys(entries) && i < |entries|
    ensures Remove(entries, entries[i].0) == entries[..i] + entries[i + 1..]
    ensures Find(entries, entries[i].0) == Some(entries[i].1)
  {
    if i > 0 {
      RemovedAt(entries[1..], i - 1);
      assert entries[..i] + entries[i + 1..] == [entries[0]] + (entries[1..][..i - 1] + entries[1..][i..]);
    }
  }

  // The entry at `j` comes to the front; those before it move back by one.
  predicate MovesFront<K(==), V>(entries: Entries<K, V>, after: Entries<K, V>, j: nat) {
    && j < |entries| == |after| && after[0].0 == entries[j].0
    && (forall m | 0 <= m < j :: after[m + 1].0 == entries[m].0)
    && (forall m | j < m < |entries| :: after[m].0 == entries[m].0)
  }

  // A new entry comes to the front, and the others move back by one, as far as there is room.
  predicate PushesFront<K(==), V>(cap: nat, entries: Entries<K, V>, after: Entries<K, V>, k: K) {
    && |after| == (if |entries| < cap then |entries| + 1 else cap) && |after| > 0 && after[0].0 == k
    && (forall m | 0 <= m < |after| - 1 :: m < |entries| && after[m + 1].0 == entries[m].0)
  }

  lemma FrontOf<K, V>(entries: Entries<K, V>, first: (K, V), j: nat)
    requires j < |entries| && entries[j].0 == first.0
    ensures MovesFront(entries, [first] + (entries[..j] + entries[j + 1..]), j)
  {
    var rest := entries[..j] + entries[j + 1..];
    assert forall m | 0 <= m < j :: rest[m] == entries[m];
    assert forall m | j <= m < |rest| :: rest[m] == entries[m + 1];
    assert forall m | 0 < m <= |rest| :: ([first] + rest)[m] == rest[m - 1];
  }

  lemma UsedHit<K, V>(cap: nat, entries: Entries<K, V>, use: Use<K, V>, j: nat)
    requires DistinctKeys(entries) && j < |entries| && entries[j].0 == use.key
    ensures MovesFront(entries, Used(cap, entries, use), j)
  {
    RemovedAt(entries, j);
    FrontOf(entries, (use.key, if use.PutOf? then use.value else entries[j].1), j);
  }

  lemma UsedMiss<K, V>(cap: nat, entries: Entries<K, V>, use: Use<K, V>)
    requires use.key !in Keys(entries) && 1 <= cap && |entries| <= cap
    ensures if use.GetOf? then Used(cap, entries, use) == entries
            else PushesFront(cap, entries, Used(cap, entries, use), use.key)
  {
    FindIsMembership(entries, use.key);
  }

  lemma MovesFrontDistinct<K, V>(entries: Entries<K, V>, after: Entries<K, V>, j: nat)
    requires DistinctKeys(entries) && MovesFront(entries, after, j)
    ensures DistinctKeys(after)
  {
    var from := (m: nat) => if m == 0 then j else if m <= j then m - 1 else m;
    assert forall m: nat | m < |after| :: after[m].0 == entries[from(m)].0;
    forall m: nat, n: nat | m < n < |after|
      ensures after[m].0 != after[n].0
    {
      assert from(m) != from(n);
    }
  }

  lemma PushesFrontDistinct<K, V>(cap: nat, entries: Entries<K, V>, after: Entries<K, V>, k: K)
    requires DistinctKeys(entries) && k !in Keys(entries) && PushesFront(cap, entries, after, k)
    ensures DistinctKeys(after)
  {
    forall m: nat, n: nat | m < n < |after|
      ensures after[m].0 != after[n].0
    {
      assert after[n].0 == entries[n - 1].0 && entries[n - 1].0 in Keys(entries);
      if m > 0 {
        assert after[m].0 == entries[m - 1].0;
      }
    }
  }

  lemma UsedKeepsShape<K, V>(cap: nat, entries: Entries<K, V>, use: Use<K, V>)
    requires DistinctKeys(entries) && 1 <= cap && |entries| <= cap
    ensures DistinctKeys(Used(cap, entries, use)) && |Used(cap, entries, use)| <= cap
  {
    if use.key in Keys(entries) {
      var j :| 0 <= j < |entries| && entries[j].0 == use.key;
      UsedHit(cap, entries, use, j);
      MovesFrontDistinct(entries, Used(cap, entries, use), j);
    } else {
      UsedMiss(cap, entries, use);
      if use.PutOf? {
        PushesFrontDistinct(cap, entries, Used(cap, entries, use), use.key);
      }
    }
  }

  // The keys in front of position `i`, by their positions.
  lemma KeysBefore<K, V>(entries: Entries<K, V>, i: nat, k: K)
    requires i <= |entries|
    ensures k in Keys(entries[..i]) <==> exists m :: 0 <= m < i && entries[m].0 == k
  {
    if m :| 0 <= m < i && entries[m].0 == k {
      assert entries[..i][m].0 == k;
    }
    if k in Keys(entries[..i]) {
      var m :| 0 <= m < i && entries[..i][m].0 == k;
      assert entries[m].0 == k;
    }
  }

  // An entry from behind position `i`, or from outside, comes to the front.
  lemma PushedBack<K, V>(entries: Entries<K, V>, after: Entries<K, V>, i: nat)
    requires i < |entries| && i + 1 < |after| && forall m | 0 <= m <= i :: after[m + 1].0 == entries[m].0
    ensures after[i + 1].0 == entries[i].0 && Keys(after[..i + 1]) == Keys(entries[..i]) + {after[0].0}
  {
    forall k
      ensures k in Keys(after[..i + 1]) <==> k in Keys(entries[..i]) + {after[0].0}
    {
      KeysBefore(after, i + 1, k);
      KeysBefore(entries, i, k);
      if m :| 0 <= m < i && entries[m].0 == k {
        assert after[m + 1].0 == k;
      }
      if m :| 0 <= m < i + 1 && after[m].0 == k {
        assert m > 0 ==> after[(m - 1) + 1].0 == entries[m - 1].0;
      }
    }
  }

  // An entry from in front of position `i` comes to the very front.
  lemma MovedWithin<K, V>(entries: Entries<K, V>, after: Entries<K, V>, i: nat, j: nat)
    requires j < i < |entries| && MovesFront(entries, after, j)
    ensures after[i].0 == entries[i].0 && Keys(after[..i]) == Keys(entries[..i])
  {
    forall k
      ensures k in Keys(after[..i]) <==> k in Keys(entries[..i])
    {
      KeysBefore(after, i, k);
      KeysBefore(entries, i, k);
      if m :| 0 <= m < i && entries[m].0 == k {
        assert k == after[if m == j then 0 else if m < j then m + 1 else m].0;
      }
      if m :| 0 <= m < i && after[m].0 == k {
        assert 0 < m <= j ==> after[(m - 1) + 1].0 == entries[m - 1].0;
        assert k == entries[if m == 0 then j else if m <= j then m - 1 else m].0;
      }
    }
  }

  lemma NotAllBefore<K, V>(entries: Entries<K, V>, i: nat, j: nat)
    requires DistinctKeys(entries) && i < j < |entries|
    ensures entries[j].0 !in Keys(entries[..i]) && |Keys(entries[..i])| + 1 < |entries|
  {
    KeysBefore(entries, i, entries[j].0);
    CountKeys(entries[..i]);
  }

  lemma HitInFront<K, V>(cap: nat, entries: Entries<K, V>, use: Use<K, V>, i: nat, j: nat)
    requires DistinctKeys(entries) && j < i < |entries| && entries[j].0 == use.key
    ensures Behind(Used(cap, entries, use), entries[i].0, Keys(entries[..i]) + {use.key})
    ensures |Keys(entries[..i]) + {use.key}| < |entries|
  {
    UsedHit(cap, entries, use, j);
    MovedWithin(entries, Used(cap, entries, use), i, j);
    KeysBefore(entries, i, entries[j].0);
    CountKeys(entries[..i]);
    assert Keys(entries[..i]) + {use.key} == Keys(entries[..i]);
  }

  lemma HitFurtherBack<K, V>(cap: nat, entries: Entries<K, V>, use: Use<K, V>, i: nat, j: nat)
    requires DistinctKeys(entries) && i < j < |entries| && entries[j].0 == use.key
    ensures Behind(Used(cap, entries, use), entries[i].0, Keys(entries[..i]) + {use.key})
    ensures |Keys(entries[..i]) + {use.key}| < |entries|
  {
    UsedHit(cap, entries, use, j);
    PushedBack(entries, Used(cap, entries, use), i);
    NotAllBefore(entries, i, j);
  }

  // The uses of other keys push a key back by one for each of them that was not already in
  // front of it.
  lemma BehindHit<K, V>(cap: nat, entries: Entries<K, V>, use: Use<K, V>, k: K, used: set<K>)
    requires DistinctKeys(entries) && |entries| <= cap && use.key != k && use.key in Keys(entries)
    requires Behind(entries, k, used)
    ensures Behind(Used(cap, entries, use), k, used + {use.key}) && |used + {use.key}| < cap
  {
    var i :| 0 <= i < |entries| && entries[i].0 == k && Keys(entries[..i]) == used;
    var j :| 0 <= j < |entries| && entries[j].0 == use.key;
    if j < i {
      HitInFront(cap, entries, use, i, j);
    } else {
      HitFurtherBack(cap, entries, use, i, j);
    }
  }

  lemma MissPushesBack<K, V>(cap: nat, entries: Entries<K, V>, use: Use<K, V>, i: nat)
    requires DistinctKeys(entries) && |entries| <= cap && i < |entries| && i < cap - 1
    requires use.PutOf? && use.key !in Keys(entries)
    ensures Behind(Used(cap, entries, use), entries[i].0, Keys(entries[..i]) + {use.key})
    ensures |Keys(entries[..i]) + {use.key}| == i + 1
  {
    UsedMiss(cap, entries, use);
    PushedBack(entries, Used(cap, entries, use), i);
    KeysBefore(entries, i, use.key);
    CountKeys(entries[..i]);
  }

  lemma MissPushesOut<K, V>(cap: nat, entries: Entries<K, V>, use: Use<K, V>)
    requires DistinctKeys(entries) && |entries| == cap >= 1 && use.PutOf? && use.key !in Keys(entries)
    ensures entries[cap - 1].0 !in Keys(Used(cap, entries, use))
    ensures |Keys(entries[..cap - 1]) + {use.key}| == cap
  {
    UsedMiss(cap, entries, use);
    KeysBefore(entries, cap - 1, use.key);
    CountKeys(entries[..cap - 1]);
    var after := Used(cap, entries, use);
    forall m | 0 <= m < |after|
      ensures after[m].0 != entries[cap - 1].0
    {
      assert m > 0 ==> after[(m - 1) + 1].0 == entries[m - 1].0;
    }
  }

  lemma MissAt<K, V>(cap: nat, entries: Entries<K, V>, use: Use<K, V>, i: nat)
    requires DistinctKeys(entries) && 1 <= cap && |entries| <= cap && i < |entries|
    requires use.PutOf? && use.key !in Keys(entries)
    ensures var now := Keys(entries[..i]) + {use.key};
            if |now| < cap then Behind(Used(cap, entries, use), entries[i].0, now)
            else entries[i].0 !in Keys(Used(cap, entries, use))
  {
    if i < cap - 1 {
      MissPushesBack(cap, entries, use, i);
    } else {
      MissPushesOut(cap, entries, use);
    }
  }

  lemma BehindMiss<K, V>(cap: nat, entries: Entries<K, V>, use: Use<K, V>, k: K, used: set<K>)
    requires DistinctKeys(entries) && 1 <= cap && |entries| <= cap && use.PutOf? && use.key !in Keys(entries)
    requires Behind(entries, k, used)
    ensures var now := used + {use.key};
            if |now| < cap then Behind(Used(cap, entries, use), k, now) else k !in Keys(Used(cap, entries, use))
  {
    var i :| 0 <= i < |entries| && entries[i].0 == k && Keys(entries[..i]) == used;
    MissAt(cap, entries, use, i);
  }

  lemma BehindStep<K, V>(cap: nat, entries: Entries<K, V>, use: Use<K, V>, k: K, used: set<K>)
    requires DistinctKeys(entries) && 1 <= cap && |entries| <= cap && use.key != k && Behind(entries, k, used) && |used| < cap
    ensures var now := if use.PutOf? || use.key in Keys(entries) then used + {use.key} else used;
            if |now| < cap then Behind(Used(cap, entries, use), k, now) else k !in Keys(Used(cap, entries, use))
  {
    if use.key in Keys(entries) {
      BehindHit(cap, entries, use, k, used);
    } else if use.PutOf? {
      BehindMiss(cap, entries, use, k, used);
    } else {
      UsedMiss(cap, entries, use);
    }
  }

  // Least recently used: a key that was just used stays as long as fewer than `cap` other
  // keys are used after it, and no longer.
  lemma {:induction false} RecencyDecides<K, V>(cap: nat, entries: Entries<K, V>, uses: seq<Use<K, V>>, k: K)
    requires DistinctKeys(entries) && 1 <= cap && |entries| <= cap && entries != [] && entries[0].0 == k
    requires forall u | u in uses :: u.key != k
    ensures k in Keys(UsedAll(cap, entries, uses)) <==> |UsedKeys(cap, entries, uses)| < cap
    ensures DistinctKeys(UsedAll(cap, entries, uses)) && |UsedAll(cap, entries, uses)| <= cap
    ensures |UsedKeys(cap, entries, uses)| < cap ==> Behind(UsedAll(cap, entries, uses), k, UsedKeys(cap, entries, uses))
  {
    if uses == [] {
      assert Keys(entries[..0]) == {};
      assert Behind(entries, k, {});
    } else {
      var front, last := uses[..|uses| - 1], uses[|uses| - 1];
      RecencyDecides(cap, entries, front, k);
      assert last in uses;
      var before, used := UsedAll(cap, entries, front), UsedKeys(cap, entries, front);
      UsedKeepsShape(cap, before, last);
      if |used| < cap {
        BehindStep(cap, before, last, k, used);
      } else {
        StaysOut(cap, before, last, k);
        assert used <= UsedKeys(cap, entries, uses);
        Subset(used, UsedKeys(cap, entries, uses));
      }
    }
  }

  // `k` is in the cache, with only keys of `room` in front of it.
  ghost predicate KeptIn<K, V>(entries: Entries<K, V>, k: K, room: set<K>) {
    k in room && exists used | used <= room - {k} :: Behind(entries, k, used)
  }

  // The uses of no more keys than fit do not evict each other.
  lemma KeptStep<K, V>(cap: nat, entries: Entries<K, V>, use: Use<K, V>, k: K, room: set<K>)
    requires DistinctKeys(entries) && 1 <= cap && |entries| <= cap && |room| <= cap && use.key in room
    requires (use.key == k && (use.PutOf? || k in Keys(entries))) || KeptIn(entries, k, room)
    ensures KeptIn(Used(cap, entries, use), k, room)
  {
    var after := Used(cap, entries, use);
    if use.key == k {
      if k in Keys(entries) {
        var j :| 0 <= j < |entries| && entries[j].0 == k;
        UsedHit(cap, entries, use, j);
      } else {
        assert KeptIn(entries, k, room) ==> k in Keys(entries);
        UsedMiss(cap, entries, use);
      }
      assert Keys(after[..0]) == {};
      assert Behind(after, k, {});
    } else {
      var used :| used <= room - {k} && Behind(entries, k, used);
      Smaller(used, room - {k}, room, k);
      BehindStep(cap, entries, use, k, used);
      Smaller(used + {use.key}, room - {k}, room, k);
    }
  }

  lemma Smaller<K>(a: set<K>, b: set<K>, all: set<K>, k: K)
    requires a <= b && b == all - {k} && k in all
    ensures |a| < |all|
  {
    Subset(a, b);
  }

  lemma Subset<K>(a: set<K>, b: set<K>)
    requires a <= b
    ensures |a| <= |b|
  {
    assert b == a + (b - a);
  }

  lemma StaysOut<K, V>(cap: nat, entries: Entries<K, V>, use: Use<K, V>, k: K)
    requires k !in Keys(entries) && use.key != k
    ensures k !in Keys(Used(cap, entries, use))
  {
    TouchedKeepsEntries(entries, use.key);
    if use.PutOf? {
      InsertedEntries(cap, entries, use.key, use.value);
    }
  }

  class LruCache<K(==), V> {
    const cap: nat
    var entries: Entries<K, V>

    constructor (cap: nat)
      ensures this.cap == cap && entries == []
    {
      this.cap := cap;
      entries := [];
    }

    method Get(k: K) returns (v: Option<V>)
      modifies this
      ensures v == Find(old(entries), k) && entries == Touched(old(entries), k)
    {
      v := Find(entries, k);
      if v.Some? {
        entries := [(k, v.value)] + Remove(entries, k);
      }
    }

    method Put(k: K, v: V) returns (previous: Option<V>)
      modifies this
      ensures previous == Find(old(entries), k) && entries == Inserted(cap, old(entries), k, v)
    {
      previous := Find(entries, k);
      if previous.Some? {
        entries := Remove(entries, k);
      } else if |entries| >= cap && entries != [] {
        entries := entries[..|entries| - 1];
      }
      entries := [(k, v)] + entries;
    }
  }
}
