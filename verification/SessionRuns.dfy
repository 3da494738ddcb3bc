/** Properties of every run of the session table. */
module SessionRuns {
  import opened Wrappers
  import opened Sessions

  // ---------------------------------------------------------------- invariant

  predicate RowOk(k: Key, s: Session) {
    && KeyOf(s) == k
    && k.createTime % 100 == 0 && 100 <= k.createTime < s.endTime
    && !s.isEndCanon
  }

  predicate GuessedIsEarliest(table: Table) {
    forall k, o | k in table && o in table && k.pseudoKey == o.pseudoKey && !table[k].isCreateCanon ::
      k.createTime <= o.createTime
  }

  predicate IdsDistinct(table: Table) {
    forall k, o | k in table && o in table && table[k].sessionId == table[o].sessionId :: k == o
  }

  predicate Inv(table: Table) {
    && (forall k | k in table :: RowOk(k, table[k]))
    && GuessedIsEarliest(table)
    && IdsDistinct(table)
  }

  predicate InRange(e: Event) {
    100 <= e.unid.timestamp < LAST_HUNDRED
  }

  predicate UnusedId(table: Table, id: Id) {
    forall k | k in table :: table[k].sessionId != id
  }

  // The UUID generator never repeats itself.
  predicate FreshIds(table: Table, events: seq<Event>) {
    && (forall i | 0 <= i < |events| :: UnusedId(table, events[i].uuid))
    && (forall i, j | 0 <= i < j < |events| :: events[i].uuid != events[j].uuid)
  }

  predicate ValidRun(table: Table, events: seq<Event>) {
    && FreshIds(table, events)
    && forall i | 0 <= i < |events| :: InRange(events[i])
  }

  function Run(table: Table, events: seq<Event>): Table
    decreases |events|
  {
    if events == [] then table else Run(Handle(table, events[0]).table, events[1..])
  }

  // ---------------------------------------------------------------- one step

  // The row that an event creates: its own id, and canonical when a creation event did it.
  predicate IsNewRow(s: Session, e: Event) {
    && s.sessionId == e.uuid && s.pseudoKey == e.unid.pseudoKey
    && s.createTime == ShaveInt(e.unid.timestamp, 1) && s.endTime == s.createTime + 101
    && s.isCreateCanon == e.unid.isCreation && !s.isEndCanon && s.version == 0
  }

  // What one event can do to a table: nothing, create a row under an unused key and id, or
  // move the guessed row of its key to an earlier, unused time.
  ghost predicate Created(table: Table, next: Table, e: Event) {
    var k := Key(e.unid.pseudoKey, ShaveInt(e.unid.timestamp, 1));
    && k !in table
    && k in next && next == table[k := next[k]] && IsNewRow(next[k], e)
    && (!e.unid.isCreation ==> forall o | o in table && o.pseudoKey == k.pseudoKey :: k.createTime < o.createTime)
    && (forall o | o in table && o.pseudoKey == k.pseudoKey && !table[o].isCreateCanon :: o.createTime < k.createTime)
  }

  ghost predicate Moved(table: Table, next: Table, e: Event, from: Key) {
    var t := ShaveInt(e.unid.timestamp, 1);
    && from in table && from.pseudoKey == e.unid.pseudoKey && !table[from].isCreateCanon
    && t < from.createTime
    && Key(from.pseudoKey, t) !in table
    && var to := Key(from.pseudoKey, t);
    && to in next && next == (table - {from})[to := next[to]]
    && IsMovedRow(table[from], next[to], t, e.unid.isCreation)
    && (!e.unid.isCreation ==> forall o | o in table && o.pseudoKey == from.pseudoKey :: t < o.createTime)
  }

  ghost predicate Changed(table: Table, next: Table, e: Event) {
    next == table || Created(table, next, e) || exists from :: Moved(table, next, e, from)
  }

  // The answer of a handler that writes: the id, unless the write is reported as failed.
  predicate Answers(a: Answer, fault: WriteFault, id: Id) {
    a.result == if fault == NoWriteFault then Ok(id) else Err(WriteFailed)
  }

  ghost predicate CreatesRow(table: Table, a: Answer, e: Event) {
    && Answers(a, e.faults.write, e.uuid)
    && if e.faults.write == LostWrite then a.table == table else Created(table, a.table, e)
  }

  ghost predicate MovesRow(table: Table, a: Answer, e: Event, from: Key) {
    && from in table && Answers(a, e.faults.write, table[from].sessionId)
    && if e.faults.write == LostWrite then a.table == table else Moved(table, a.table, e, from)
  }

  predicate IsGuess(table: Table, pseudoKey: string, k: Key) {
    k in table && k.pseudoKey == pseudoKey && !table[k].isCreateCanon
  }

  // How a creation event is answered: by the row at its own time, if there is one;
  // otherwise by the guessed row of its key that lies later, which moves; otherwise by a new
  // row.
  ghost predicate CreationAnswered(table: Table, a: Answer, e: Event) {
    var k := Key(e.unid.pseudoKey, ShaveInt(e.unid.timestamp, 1));
    if e.faults.firstQuery then a == Answer(table, Err(QueryFailed))
    else if k in table then a == Answer(table, Ok(table[k].sessionId))
    else
      && (forall g | IsGuess(table, k.pseudoKey, g) && k.createTime < g.createTime :: MovesRow(table, a, e, g))
      && ((forall g | IsGuess(table, k.pseudoKey, g) :: g.createTime < k.createTime) ==>
            if e.faults.secondQuery then a == Answer(table, Err(QueryFailed)) else CreatesRow(table, a, e))
  }

  // `k` is the last row of its key that is not later than `t`.
  predicate Precedes(table: Table, pseudoKey: string, t: U64, k: Key) {
    && k in table && k.pseudoKey == pseudoKey && k.createTime <= t
    && forall o | o in table && o.pseudoKey == pseudoKey :: o.createTime <= k.createTime || t < o.createTime
  }

  predicate AllAfter(table: Table, pseudoKey: string, t: U64) {
    forall o | o in table && o.pseudoKey == pseudoKey :: t < o.createTime
  }

  // How a last-seen event is answered: by its predecessor, however long ago that session's
  // end time was; otherwise by the guessed row of its key, which moves back; otherwise by a
  // new guess, if the caller allows one.
  ghost predicate LastSeenAnswered(table: Table, a: Answer, e: Event) {
    var p, t := e.unid.pseudoKey, ShaveInt(e.unid.timestamp, 1);
    if e.faults.firstQuery then a == Answer(table, Err(QueryFailed))
    else
      && (forall k | Precedes(table, p, t, k) :: a == Answer(table, Ok(table[k].sessionId)))
      && (AllAfter(table, p, t) ==>
            if e.faults.secondQuery then a == Answer(table, Err(QueryFailed))
            else
              && (forall g | IsGuess(table, p, g) :: MovesRow(table, a, e, g))
              && ((forall g | g in table :: !IsGuess(table, p, g)) ==>
                    if e.shouldDefault then CreatesRow(table, a, e) else a == Answer(table, Err(NotDefaulting))))
  }

  // Moving a guessed row to an earlier, unused time.
  lemma MoveRowMoves(table: Table, e: Event, g: Key)
    requires Inv(table) && InRange(e) && IsGuess(table, e.unid.pseudoKey, g)
    requires var t := ShaveInt(e.unid.timestamp, 1);
             && t < g.createTime && Key(g.pseudoKey, t) !in table
             && (!e.unid.isCreation ==> AllAfter(table, g.pseudoKey, t))
    ensures MovesRow(table, MoveRow(table, table[g], ShaveInt(e.unid.timestamp, 1), e.unid.isCreation, e.faults.write), e, g)
  {
    assert RowOk(g, table[g]);
  }

  // Creating a row under an unused key, later than every guess of it.
  lemma CreateRowCreates(table: Table, e: Event)
    requires InRange(e)
    requires var t := ShaveInt(e.unid.timestamp, 1);
             && Key(e.unid.pseudoKey, t) !in table
             && (!e.unid.isCreation ==> AllAfter(table, e.unid.pseudoKey, t))
             && forall g | IsGuess(table, e.unid.pseudoKey, g) :: g.createTime < t
    ensures CreatesRow(table, CreateRow(table, NewSession(Shaved(e.unid), e.unid.isCreation, e.uuid), e.faults.write), e)
  {
    NewSessionIsNewRow(e);
  }

  lemma CreationFindsRow(table: Table, e: Event)
    requires Inv(table) && InRange(e) && e.unid.isCreation && !e.faults.firstQuery
    requires Key(e.unid.pseudoKey, ShaveInt(e.unid.timestamp, 1)) in table
    ensures CreationAnswered(table, Handle(table, e), e)
  {
    var unid := Shaved(e.unid);
    var k := Key(unid.pseudoKey, unid.timestamp);
    assert RowOk(k, table[k]);
    FirstIsNearest(table, unid);
    SkewedCmpOnShavedTimes(unid.timestamp, k.createTime);
  }

  lemma CreationFindsLater(table: Table, e: Event)
    requires Inv(table) && InRange(e) && e.unid.isCreation && !e.faults.firstQuery
    requires Key(e.unid.pseudoKey, ShaveInt(e.unid.timestamp, 1)) !in table
    ensures CreationAnswered(table, Handle(table, e), e)
  {
    var unid, a := Shaved(e.unid), Handle(table, e);
    FirstIsNearest(table, unid);
    var first := FirstSessionAfter(table, unid);
    if first.Some? {
      SkewedCmpOnShavedTimes(unid.timestamp, first.value.createTime);
    }
    if first.Some? && !first.value.isCreateCanon {
      MoveRowMoves(table, e, KeyOf(first.value));
      assert forall g | IsGuess(table, unid.pseudoKey, g) && unid.timestamp < g.createTime :: g == KeyOf(first.value);
    } else {
      CreationWithoutGuess(table, e, first);
      if !e.faults.secondQuery {
        CreateRowCreates(table, e);
      }
    }
  }

  // When the next row is not a guess, no later row is.
  lemma CreationWithoutGuess(table: Table, e: Event, first: Option<Session>)
    requires Inv(table) && InRange(e)
    requires Key(e.unid.pseudoKey, ShaveInt(e.unid.timestamp, 1)) !in table
    requires first == FirstSessionAfter(table, Shaved(e.unid)) && (first.Some? ==> first.value.isCreateCanon)
    ensures forall g | IsGuess(table, e.unid.pseudoKey, g) :: g.createTime < ShaveInt(e.unid.timestamp, 1)
  {
    var unid := Shaved(e.unid);
    FirstIsNearest(table, unid);
    forall g | IsGuess(table, unid.pseudoKey, g)
      ensures g.createTime < unid.timestamp
    {
      if unid.timestamp <= g.createTime {
        assert false;
      }
    }
  }

  // Every creation event is answered as `CreationAnswered` says, with any faults.
  lemma CreationAttribution(table: Table, e: Event)
    requires Inv(table) && InRange(e) && e.unid.isCreation
    ensures CreationAnswered(table, Handle(table, e), e)
  {
    if !e.faults.firstQuery {
      if Key(e.unid.pseudoKey, ShaveInt(e.unid.timestamp, 1)) in table {
        CreationFindsRow(table, e);
      } else {
        CreationFindsLater(table, e);
      }
    }
  }

  // A last-seen event with nothing before it.
  lemma LaterSession(table: Table, e: Event)
    requires Inv(table) && InRange(e) && !e.unid.isCreation && !e.faults.secondQuery
    requires AllAfter(table, e.unid.pseudoKey, ShaveInt(e.unid.timestamp, 1))
    ensures var a := ExtendLaterSession(table, Shaved(e.unid), e.shouldDefault, e.faults, e.uuid);
            && (forall g | IsGuess(table, e.unid.pseudoKey, g) :: MovesRow(table, a, e, g))
            && ((forall g | g in table :: !IsGuess(table, e.unid.pseudoKey, g)) ==>
                  if e.shouldDefault then CreatesRow(table, a, e) else a == Answer(table, Err(NotDefaulting)))
  {
    var unid := Shaved(e.unid);
    FirstIsNearest(table, unid);
    var first := FirstSessionAfter(table, unid);
    if first.Some? && !first.value.isCreateCanon {
      MoveRowMoves(table, e, KeyOf(first.value));
      assert forall g | IsGuess(table, unid.pseudoKey, g) :: g == KeyOf(first.value);
    } else {
      assert Key(unid.pseudoKey, unid.timestamp) !in table;
      CreationWithoutGuess(table, e, first);
      CreateRowCreates(table, e);
      assert forall g | IsGuess(table, unid.pseudoKey, g) :: g in table && unid.timestamp < g.createTime;
    }
  }

  // Every last-seen event is answered as `LastSeenAnswered` says, with any faults.
  lemma LastSeenAttribution(table: Table, e: Event)
    requires Inv(table) && InRange(e) && !e.unid.isCreation
    ensures LastSeenAnswered(table, Handle(table, e), e)
  {
    var unid := Shaved(e.unid);
    LastIsNearest(table, unid);
    var last := LastSessionBefore(table, unid);
    if last.Some? {
      var l := KeyOf(last.value);
      assert RowOk(l, last.value) && !AllAfter(table, unid.pseudoKey, unid.timestamp);
      assert forall k | Precedes(table, unid.pseudoKey, unid.timestamp, k) :: k == l;
    } else if !e.faults.firstQuery {
      assert forall k | k in table :: !Precedes(table, unid.pseudoKey, unid.timestamp, k);
      if !e.faults.secondQuery {
        LaterSession(table, e);
      }
    }
  }

  lemma PredecessorOrNone(table: Table, pseudoKey: string, t: U64)
    requires forall k | k in table :: KeyOf(table[k]) == k
    ensures AllAfter(table, pseudoKey, t) || exists k :: Precedes(table, pseudoKey, t, k)
  {
    var unid := UnidSession(pseudoKey, t, false);
    LastIsNearest(table, unid);
    if LastSessionBefore(table, unid).Some? {
      assert Precedes(table, pseudoKey, t, KeyOf(LastSessionBefore(table, unid).value));
    }
  }

  // Nothing here ever makes an end canonical.  For a row whose end is, the end counts: a
  // last-seen event after it, by ten or more, belongs to the session no longer.
  lemma ClosedSessionEnds(table: Table, e: Event, k: Key)
    requires forall o | o in table :: KeyOf(table[o]) == o
    requires InRange(e) && !e.unid.isCreation && e.faults == NO_FAULTS
    requires Precedes(table, e.unid.pseudoKey, ShaveInt(e.unid.timestamp, 1), k) && table[k].isEndCanon
    ensures var t, a := ShaveInt(e.unid.timestamp, 1), Handle(table, e);
            && (t < table[k].endTime + 10 ==> a == Answer(table, Ok(table[k].sessionId)))
            && (table[k].endTime + 10 <= t && (forall o | o in table && o.pseudoKey == k.pseudoKey :: o.createTime < t) ==>
                  if e.shouldDefault then a.result == Ok(e.uuid) && a.table.Keys == table.Keys + {Key(k.pseudoKey, t)}
                  else a == Answer(table, Err(NotDefaulting)))
  {
    var unid := Shaved(e.unid);
    LastIsNearest(table, unid);
    FirstIsNearest(table, unid);
    assert LastSessionBefore(table, unid) == Some(table[k]);
    assert WrappingSub(unid.timestamp, 10) == unid.timestamp - 10 && WrappingAdd(unid.timestamp, 10) == unid.timestamp + 10;
  }

  lemma CreationStep(table: Table, e: Event)
    requires Inv(table) && InRange(e) && e.unid.isCreation
    ensures Changed(table, Handle(table, e).table, e)
  {
    CreationAttribution(table, e);
    var k := Key(e.unid.pseudoKey, ShaveInt(e.unid.timestamp, 1));
    if k !in table {
      if g :| IsGuess(table, k.pseudoKey, g) && k.createTime < g.createTime {
        assert e.faults.firstQuery || MovesRow(table, Handle(table, e), e, g);
      } else {
        assert forall g | IsGuess(table, k.pseudoKey, g) :: g.createTime != k.createTime;
      }
    }
  }

  lemma LastSeenStep(table: Table, e: Event)
    requires Inv(table) && InRange(e) && !e.unid.isCreation
    ensures Changed(table, Handle(table, e).table, e)
  {
    LastSeenAttribution(table, e);
    var p, t := e.unid.pseudoKey, ShaveInt(e.unid.timestamp, 1);
    PredecessorOrNone(table, p, t);
    if AllAfter(table, p, t) {
      if g :| IsGuess(table, p, g) {
        assert e.faults.firstQuery || e.faults.secondQuery || MovesRow(table, Handle(table, e), e, g);
      } else {
        assert forall g | g in table :: !IsGuess(table, p, g);
      }
    }
  }

  lemma StepChanges(table: Table, e: Event)
    requires Inv(table) && InRange(e)
    ensures Changed(table, Handle(table, e).table, e)
  {
    if e.unid.isCreation {
      CreationStep(table, e);
    } else {
      LastSeenStep(table, e);
    }
  }

  lemma NewSessionIsNewRow(e: Event)
    requires InRange(e)
    ensures IsNewRow(NewSession(Shaved(e.unid), e.unid.isCreation, e.uuid), e)
  {
    var t := ShaveInt(e.unid.timestamp, 1);
    assert t % 100 == 0 && 100 <= t && t + 101 < TWO_64;
  }

  lemma NewRowOk(s: Session, e: Event)
    requires InRange(e) && IsNewRow(s, e)
    ensures RowOk(Key(e.unid.pseudoKey, ShaveInt(e.unid.timestamp, 1)), s)
  {
  }

  lemma CreatedKeepsInv(table: Table, next: Table, e: Event)
    requires Inv(table) && InRange(e) && UnusedId(table, e.uuid) && Created(table, next, e)
    ensures Inv(next)
  {
    var k := Key(e.unid.pseudoKey, ShaveInt(e.unid.timestamp, 1));
    NewRowOk(next[k], e);
    forall o | o in next
      ensures RowOk(o, next[o])
    {
      if o != k {
        assert o in table && next[o] == table[o];
      }
    }
    assert next[k].sessionId == e.uuid;
    assert IdsDistinct(next);
  }

  lemma MovedRowOk(table: Table, e: Event, from: Key, row: Session)
    requires Inv(table) && InRange(e) && from in table && ShaveInt(e.unid.timestamp, 1) < from.createTime
    requires IsMovedRow(table[from], row, ShaveInt(e.unid.timestamp, 1), e.unid.isCreation)
    ensures RowOk(Key(from.pseudoKey, ShaveInt(e.unid.timestamp, 1)), row)
  {
    assert RowOk(from, table[from]);
  }

  // Rows after a move: the moved one, and the other old ones.
  lemma MovedRows(table: Table, next: Table, e: Event, from: Key)
    requires Moved(table, next, e, from)
    ensures var k := Key(from.pseudoKey, ShaveInt(e.unid.timestamp, 1));
            && k in next && k !in table
            && IsMovedRow(table[from], next[k], k.createTime, e.unid.isCreation)
            && forall o | o in next && o != k :: o in table && o != from && next[o] == table[o]
  {
  }

  lemma MovedKeepsInv(table: Table, next: Table, e: Event, from: Key)
    requires Inv(table) && InRange(e) && Moved(table, next, e, from)
    ensures Inv(next)
  {
    MovedRowOk(table, e, from, next[Key(from.pseudoKey, ShaveInt(e.unid.timestamp, 1))]);
    MovedRows(table, next, e, from);
    assert GuessedIsEarliest(next);
    assert IdsDistinct(next);
  }

  lemma ChangeKeepsInv(table: Table, next: Table, e: Event)
    requires Inv(table) && InRange(e) && UnusedId(table, e.uuid) && Changed(table, next, e)
    ensures Inv(next)
  {
    if next != table {
      if Created(table, next, e) {
        CreatedKeepsInv(table, next, e);
      } else {
        var from :| Moved(table, next, e, from);
        MovedKeepsInv(table, next, e, from);
      }
    }
  }

  // ---------------------------------------------------------------- whole runs

  lemma ChangeKeepsFreshness(table: Table, next: Table, e: Event, rest: seq<Event>)
    requires FreshIds(table, [e] + rest) && Changed(table, next, e)
    ensures FreshIds(next, rest)
  {
    forall i | 0 <= i < |rest|
      ensures UnusedId(next, rest[i].uuid)
    {
      assert ([e] + rest)[0] == e && rest[i] == ([e] + rest)[i + 1];
      if next != table && !Created(table, next, e) {
        var from :| Moved(table, next, e, from);
      }
    }
    forall i, j | 0 <= i < j < |rest|
      ensures rest[i].uuid != rest[j].uuid
    {
      assert rest[i] == ([e] + rest)[i + 1] && rest[j] == ([e] + rest)[j + 1];
    }
  }

  lemma StepKeepsRunValid(table: Table, events: seq<Event>)
    requires Inv(table) && ValidRun(table, events) && events != []
    ensures var next := Handle(table, events[0]).table;
            Changed(table, next, events[0]) && Inv(next) && ValidRun(next, events[1..])
  {
    var e, next := events[0], Handle(table, events[0]).table;
    StepChanges(table, e);
    ChangeKeepsInv(table, next, e);
    assert [e] + events[1..] == events;
    ChangeKeepsFreshness(table, next, e, events[1..]);
  }

  lemma {:induction false} RunKeepsInv(table: Table, events: seq<Event>)
    requires Inv(table) && ValidRun(table, events)
    ensures Inv(Run(table, events))
    decreases |events|
  {
    if events != [] {
      StepKeepsRunValid(table, events);
      RunKeepsInv(Handle(table, events[0]).table, events[1..]);
    }
  }

  // From the empty table, every run of creation and last-seen events, whatever database
  // calls fail, leaves each key with at most one guessed session, its earliest.
  lemma ReachableTables(events: seq<Event>)
    requires ValidRun(map[], events)
    ensures var table := Run(map[], events);
            && (forall k | k in table :: RowOk(k, table[k]))
            && (forall k, o | k in table && o in table && k.pseudoKey == o.pseudoKey && !table[k].isCreateCanon ::
                  k.createTime <= o.createTime && (!table[o].isCreateCanon ==> o == k))
            && IdsDistinct(table)
  {
    RunKeepsInv(map[], events);
  }

  // ---------------------------------------------------------------- sessions survive

  ghost predicate Stores(table: Table, id: Id, k: Key) {
    k in table && table[k].sessionId == id
  }

  ghost predicate MovesIn(table: Table, next: Table, id: Id) {
    exists k :: Stores(table, id, k) && !Stores(next, id, k)
  }

  // How many events of a run changed the row in which `id` is stored.
  ghost function Moves(table: Table, events: seq<Event>, id: Id): nat
    decreases |events|
  {
    if events == [] then 0 else
    var next := Handle(table, events[0]).table;
    (if MovesIn(table, next, id) then 1 else 0) + Moves(next, events[1..], id)
  }

  lemma StepKeepsSession(table: Table, e: Event, k: Key) returns (k': Key)
    requires Inv(table) && InRange(e) && UnusedId(table, e.uuid) && k in table
    ensures var next := Handle(table, e).table; var id := table[k].sessionId;
            && Stores(next, id, k')
            && k'.pseudoKey == k.pseudoKey && k'.createTime <= k.createTime
            && next[k'].version == table[k].version + (if MovesIn(table, next, id) then 1 else 0)
            && next[k'].endTime == table[k].endTime
            && (table[k].isCreateCanon ==> k' == k && next[k] == table[k])
  {
    var next, id := Handle(table, e).table, table[k].sessionId;
    StepChanges(table, e);
    k' := k;
    if next == table || Created(table, next, e) {
      assert Stores(next, id, k);
      assert forall o | Stores(table, id, o) :: o == k;
    } else {
      var from :| Moved(table, next, e, from);
      if from == k {
        k' := Key(k.pseudoKey, ShaveInt(e.unid.timestamp, 1));
        assert Stores(table, id, k) && !Stores(next, id, k);
      } else {
        assert forall o | Stores(table, id, o) :: o == k;
      }
    }
  }

  // A stored session is never overwritten or lost: it stays in exactly one row of its key,
  // its creation time never increases, its version counts its moves, and once canonical its
  // row never changes.
  lemma {:induction false} SessionSurvives(table: Table, events: seq<Event>, k: Key) returns (k': Key)
    requires Inv(table) && ValidRun(table, events) && k in table
    ensures var end := Run(table, events); var id := table[k].sessionId;
            && Stores(end, id, k') && (forall o | Stores(end, id, o) :: o == k')
            && k'.pseudoKey == k.pseudoKey && k'.createTime <= k.createTime
            && end[k'].version == table[k].version + Moves(table, events, id)
            && end[k'].endTime == table[k].endTime
            && (table[k].isCreateCanon ==> k' == k && end[k] == table[k])
    decreases |events|
  {
    RunKeepsInv(table, events);
    if events == [] {
      k' := k;
    } else {
      StepKeepsRunValid(table, events);
      var mid := StepKeepsSession(table, events[0], k);
      k' := SessionSurvives(Handle(table, events[0]).table, events[1..], mid);
    }
  }

  lemma CreationAnswerIsStored(table: Table, e: Event)
    requires Inv(table) && InRange(e) && e.unid.isCreation && Handle(table, e).result.Ok?
    ensures var a := Handle(table, e);
            Stores(a.table, a.result.value, Key(e.unid.pseudoKey, ShaveInt(e.unid.timestamp, 1)))
  {
    var a, k := Handle(table, e), Key(e.unid.pseudoKey, ShaveInt(e.unid.timestamp, 1));
    CreationAttribution(table, e);
    if k !in table {
      if g :| IsGuess(table, k.pseudoKey, g) && k.createTime < g.createTime {
        assert MovesRow(table, a, e, g);
      } else {
        assert forall g | IsGuess(table, k.pseudoKey, g) :: g.createTime != k.createTime;
      }
    }
  }

  lemma LastSeenAnswerIsStored(table: Table, e: Event) returns (k: Key)
    requires Inv(table) && InRange(e) && !e.unid.isCreation && Handle(table, e).result.Ok?
    ensures var a := Handle(table, e);
            && Stores(a.table, a.result.value, k) && k.pseudoKey == e.unid.pseudoKey
            && k.createTime <= ShaveInt(e.unid.timestamp, 1)
  {
    var a, p, t := Handle(table, e), e.unid.pseudoKey, ShaveInt(e.unid.timestamp, 1);
    LastSeenAttribution(table, e);
    PredecessorOrNone(table, p, t);
    if o :| Precedes(table, p, t, o) {
      k := o;
    } else {
      k := Key(p, t);
      if g :| IsGuess(table, p, g) {
        assert MovesRow(table, a, e, g);
      } else {
        assert forall g | g in table :: !IsGuess(table, p, g);
      }
    }
  }

  // Every id a handler returns is stored under its key when the handler returns.
  lemma AnswerIsStored(table: Table, e: Event) returns (k: Key)
    requires Inv(table) && InRange(e) && Handle(table, e).result.Ok?
    ensures var a := Handle(table, e);
            && Stores(a.table, a.result.value, k) && k.pseudoKey == e.unid.pseudoKey
            && (e.unid.isCreation ==> k.createTime == ShaveInt(e.unid.timestamp, 1))
            && k.createTime <= ShaveInt(e.unid.timestamp, 1)
  {
    if e.unid.isCreation {
      CreationAnswerIsStored(table, e);
      k := Key(e.unid.pseudoKey, ShaveInt(e.unid.timestamp, 1));
    } else {
      k := LastSeenAnswerIsStored(table, e);
    }
  }

  // The two together: an id handed out at any point of a run from the empty table is in
  // exactly one row of its key at the end of the run.
  lemma ReturnedIdsAreForever(before: seq<Event>, e: Event, after: seq<Event>)
    requires ValidRun(map[], before + [e] + after)
    requires Handle(Run(map[], before), e).result.Ok?
    ensures var end := Run(map[], before + [e] + after);
            var id := Handle(Run(map[], before), e).result.value;
            exists k :: Stores(end, id, k) && k.pseudoKey == e.unid.pseudoKey
                        && k.createTime <= ShaveInt(e.unid.timestamp, 1)
                        && forall o | Stores(end, id, o) :: o == k
  {
    var all := before + [e] + after;
    assert all == before + ([e] + after);
    RunSplits(map[], before, [e] + after);
    var mid := Run(map[], before);
    var next := Handle(mid, e).table;
    StepKeepsRunValid(mid, [e] + after);
    assert ([e] + after)[1..] == after;
    var k := AnswerIsStored(mid, e);
    var k' := SessionSurvives(next, after, k);
  }

  lemma {:induction false} RunSplits(table: Table, a: seq<Event>, b: seq<Event>)
    requires Inv(table) && ValidRun(table, a + b)
    ensures Run(table, a + b) == Run(Run(table, a), b)
    ensures Inv(Run(table, a)) && ValidRun(Run(table, a), b)
    decreases |a|
  {
    if a == [] {
      assert a + b == b;
    } else {
      assert (a + b)[0] == a[0] && (a + b)[1..] == a[1..] + b;
      StepKeepsRunValid(table, a + b);
      RunSplits(Handle(table, a[0]).table, a[1..], b);
    }
  }

  // ---------------------------------------------------------------- guesses and creations

  ghost predicate OnlyGuesses(table: Table, pseudoKey: string) {
    forall k | k in table && k.pseudoKey == pseudoKey :: !table[k].isCreateCanon
  }

  predicate NeverCreated(events: seq<Event>, pseudoKey: string) {
    forall i | 0 <= i < |events| && events[i].unid.pseudoKey == pseudoKey :: !events[i].unid.isCreation
  }

  lemma StepKeepsGuesses(table: Table, e: Event, pseudoKey: string)
    requires Inv(table) && InRange(e) && OnlyGuesses(table, pseudoKey)
    requires e.unid.pseudoKey == pseudoKey ==> !e.unid.isCreation
    ensures OnlyGuesses(Handle(table, e).table, pseudoKey)
  {
    StepChanges(table, e);
    var next := Handle(table, e).table;
    if next != table && !Created(table, next, e) {
      var from :| Moved(table, next, e, from);
      MovedRows(table, next, e, from);
    }
  }

  // The rows of the key are one guess, with this id.
  ghost predicate OneGuess(table: Table, pseudoKey: string, id: Id) {
    && OnlyGuesses(table, pseudoKey)
    && exists k :: Stores(table, id, k) && k.pseudoKey == pseudoKey
  }

  lemma StepKeepsOneGuess(table: Table, e: Event, pseudoKey: string, id: Id)
    requires Inv(table) && InRange(e) && UnusedId(table, e.uuid) && OneGuess(table, pseudoKey, id)
    requires e.unid.pseudoKey == pseudoKey ==> !e.unid.isCreation
    ensures OneGuess(Handle(table, e).table, pseudoKey, id)
  {
    var k :| Stores(table, id, k) && k.pseudoKey == pseudoKey;
    StepKeepsGuesses(table, e, pseudoKey);
    var k' := StepKeepsSession(table, e, k);
  }

  // An answered event leaves its id in the one guess of its key.
  lemma AnswerIsOneGuess(table: Table, e: Event)
    requires Inv(table) && InRange(e) && OnlyGuesses(table, e.unid.pseudoKey) && !e.unid.isCreation
    requires Handle(table, e).result.Ok?
    ensures OneGuess(Handle(table, e).table, e.unid.pseudoKey, Handle(table, e).result.value)
  {
    StepKeepsGuesses(table, e, e.unid.pseudoKey);
    var k := AnswerIsStored(table, e);
  }

  lemma OneGuessIsOne(table: Table, pseudoKey: string, a: Id, b: Id)
    requires Inv(table) && OneGuess(table, pseudoKey, a) && OneGuess(table, pseudoKey, b)
    ensures a == b
  {
    var k :| Stores(table, a, k) && k.pseudoKey == pseudoKey;
    var o :| Stores(table, b, o) && o.pseudoKey == pseudoKey;
    assert k.createTime <= o.createTime <= k.createTime;
  }

  lemma AnswerIsTheGuess(table: Table, e: Event, id: Id)
    requires Inv(table) && InRange(e) && UnusedId(table, e.uuid) && OneGuess(table, e.unid.pseudoKey, id)
    requires !e.unid.isCreation && Handle(table, e).result.Ok?
    ensures Handle(table, e).result == Ok(id)
  {
    StepKeepsOneGuess(table, e, e.unid.pseudoKey, id);
    AnswerIsOneGuess(table, e);
    StepChanges(table, e);
    ChangeKeepsInv(table, Handle(table, e).table, e);
    OneGuessIsOne(Handle(table, e).table, e.unid.pseudoKey, id, Handle(table, e).result.value);
  }

  lemma {:induction false} RunKeepsGuesses(table: Table, events: seq<Event>, pseudoKey: string)
    requires Inv(table) && ValidRun(table, events) && OnlyGuesses(table, pseudoKey) && NeverCreated(events, pseudoKey)
    ensures OnlyGuesses(Run(table, events), pseudoKey)
    ensures forall id | OneGuess(table, pseudoKey, id) :: OneGuess(Run(table, events), pseudoKey, id)
    decreases |events|
  {
    if events != [] {
      StepKeepsRunValid(table, events);
      StepKeepsGuesses(table, events[0], pseudoKey);
      var next := Handle(table, events[0]).table;
      RunKeepsGuesses(next, events[1..], pseudoKey);
      forall id | OneGuess(table, pseudoKey, id)
        ensures OneGuess(Run(table, events), pseudoKey, id)
      {
        StepKeepsOneGuess(table, events[0], pseudoKey, id);
      }
    }
  }

  // The table that the `i`-th event of a run from the empty table finds.
  function TableAt(events: seq<Event>, i: nat): Table
    requires i <= |events|
  {
    Run(map[], events[..i])
  }

  function AnswerAt(events: seq<Event>, i: nat): Result<Id, SessionError>
    requires i < |events|
  {
    Handle(TableAt(events, i), events[i]).result
  }

  lemma TableAtOk(events: seq<Event>, i: nat)
    requires ValidRun(map[], events) && i <= |events|
    ensures Inv(TableAt(events, i)) && ValidRun(TableAt(events, i), events[i..])
  {
    assert events == events[..i] + events[i..];
    RunSplits(map[], events[..i], events[i..]);
  }

  lemma TableFromTo(events: seq<Event>, i: nat, j: nat)
    requires ValidRun(map[], events) && i <= j <= |events|
    ensures TableAt(events, j) == Run(TableAt(events, i), events[i..j])
    ensures ValidRun(TableAt(events, i), events[i..j])
  {
    TableAtOk(events, i);
    assert events[..j] == events[..i] + events[i..j];
    assert forall n | 0 <= n < j - i :: events[i..j][n] == events[i..][n];
    assert forall n | 0 <= n < j :: events[..j][n] == events[n];
    RunSplits(map[], events[..i], events[i..j]);
  }

  lemma NextTable(events: seq<Event>, i: nat)
    requires i < |events|
    ensures TableAt(events, i + 1) == Handle(TableAt(events, i), events[i]).table
    decreases |events|
  {
    RunSnoc(map[], events[..i], events[i]);
    assert events[..i + 1] == events[..i] + [events[i]];
  }

  lemma {:induction false} RunSnoc(table: Table, events: seq<Event>, e: Event)
    ensures Run(table, events + [e]) == Handle(Run(table, events), e).table
    decreases |events|
  {
    if events == [] {
      assert events + [e] == [e] && [e][1..] == [];
    } else {
      assert (events + [e])[1..] == events[1..] + [e];
      RunSnoc(Handle(table, events[0]).table, events[1..], e);
    }
  }

  lemma NeverCreatedPart(events: seq<Event>, pseudoKey: string, i: nat, j: nat)
    requires NeverCreated(events, pseudoKey) && i <= j <= |events|
    ensures NeverCreated(events[i..j], pseudoKey)
  {
  }

  // With no creation so far, the key has only guesses.
  lemma GuessesAt(events: seq<Event>, pseudoKey: string, i: nat)
    requires ValidRun(map[], events) && NeverCreated(events, pseudoKey) && i <= |events|
    ensures OnlyGuesses(TableAt(events, i), pseudoKey)
  {
    TableFromTo(events, 0, i);
    assert events[0..i] == events[..i] && events[..0] == [];
    NeverCreatedPart(events, pseudoKey, 0, i);
    RunKeepsGuesses(map[], events[..i], pseudoKey);
  }

  lemma GuessAfter(events: seq<Event>, pseudoKey: string, i: nat)
    requires ValidRun(map[], events) && NeverCreated(events, pseudoKey) && i < |events|
    requires events[i].unid.pseudoKey == pseudoKey && AnswerAt(events, i).Ok?
    ensures OneGuess(TableAt(events, i + 1), pseudoKey, AnswerAt(events, i).value)
  {
    GuessesAt(events, pseudoKey, i);
    TableAtOk(events, i);
    AnswerIsOneGuess(TableAt(events, i), events[i]);
    NextTable(events, i);
  }

  // As long as no creation event of a key comes, every last-seen event of the key that is
  // answered at all is answered with one and the same id, whatever calls fail in between:
  // the guess moves, and stays a guess.
  lemma OneIdWithoutCreation(events: seq<Event>, pseudoKey: string, i: nat, j: nat)
    requires ValidRun(map[], events) && NeverCreated(events, pseudoKey) && i < j < |events|
    requires events[i].unid.pseudoKey == pseudoKey == events[j].unid.pseudoKey
    requires AnswerAt(events, i).Ok? && AnswerAt(events, j).Ok?
    ensures AnswerAt(events, i) == AnswerAt(events, j)
  {
    var id := AnswerAt(events, i).value;
    GuessAfter(events, pseudoKey, i);
    TableAtOk(events, i + 1);
    TableFromTo(events, i + 1, j);
    NeverCreatedPart(events, pseudoKey, i + 1, j);
    RunKeepsGuesses(TableAt(events, i + 1), events[i + 1..j], pseudoKey);
    assert OneGuess(TableAt(events, j), pseudoKey, id);
    TableAtOk(events, j);
    assert events[j..][0] == events[j];
    AnswerIsTheGuess(TableAt(events, j), events[j], id);
  }

  lemma FrontIsValid(table: Table, front: seq<Event>, last: Event)
    requires ValidRun(table, front + [last])
    ensures ValidRun(table, front)
  {
    assert forall i | 0 <= i < |front| :: (front + [last])[i] == front[i];
  }

  // The event is a creation event and puts the session `id` in a row that did not hold it.
  ghost predicate CreationPuts(table: Table, e: Event, id: Id) {
    e.unid.isCreation && exists k :: Stores(Handle(table, e).table, id, k) && !Stores(table, id, k)
  }

  // A row that an event leaves in place.
  lemma OldRowCanon(table: Table, e: Event, k: Key)
    requires Inv(table) && Inv(Handle(table, e).table)
    requires k in table && k in Handle(table, e).table && Handle(table, e).table[k] == table[k]
    ensures var id := table[k].sessionId;
            && !CreationPuts(table, e, id)
            && (table[k].isCreateCanon <==> exists o :: Stores(table, id, o) && table[o].isCreateCanon)
  {
    var id := table[k].sessionId;
    assert Stores(table, id, k);
    assert forall o | Stores(Handle(table, e).table, id, o) :: o == k;
  }

  lemma StepCanon(table: Table, e: Event, k: Key)
    requires Inv(table) && InRange(e) && UnusedId(table, e.uuid) && k in Handle(table, e).table
    ensures var next := Handle(table, e).table; var id := next[k].sessionId;
            next[k].isCreateCanon <==> CreationPuts(table, e, id) || exists o :: Stores(table, id, o) && table[o].isCreateCanon
  {
    var next := Handle(table, e).table;
    StepChanges(table, e);
    ChangeKeepsInv(table, next, e);
    if next != table && k == Key(e.unid.pseudoKey, ShaveInt(e.unid.timestamp, 1)) {
      NewRowCanon(table, e, k);
      assert Stores(next, next[k].sessionId, k);
    } else {
      assert k in table && next[k] == table[k];
      OldRowCanon(table, e, k);
    }
  }

  // The row that an event puts at its own time is canonical exactly for a creation event.
  lemma NewRowCanon(table: Table, e: Event, k: Key)
    requires Inv(table) && InRange(e) && UnusedId(table, e.uuid) && Handle(table, e).table != table
    requires k == Key(e.unid.pseudoKey, ShaveInt(e.unid.timestamp, 1)) && k in Handle(table, e).table
    ensures var next := Handle(table, e).table; var id := next[k].sessionId;
            && k !in table && next[k].isCreateCanon == e.unid.isCreation
            && forall o | Stores(table, id, o) :: !table[o].isCreateCanon
  {
    var next := Handle(table, e).table;
    StepChanges(table, e);
    if !Created(table, next, e) {
      var from :| Moved(table, next, e, from);
      assert forall o | Stores(table, next[k].sessionId, o) :: o == from;
    }
  }

  // A row is canonical at the end of a run exactly when some creation event of the run
  // created it or moved it.
  lemma {:induction false} CanonicalIffCreation(events: seq<Event>, k: Key)
    requires ValidRun(map[], events) && k in Run(map[], events)
    ensures var end := Run(map[], events);
            end[k].isCreateCanon <==>
              exists i :: 0 <= i < |events| && CreationPuts(Run(map[], events[..i]), events[i], end[k].sessionId)
    decreases |events|
  {
    if events != [] {
      var n := |events| - 1;
      var front, last := events[..n], events[n];
      assert events == front + [last];
      RunSplits(map[], front, [last]);
      FrontIsValid(map[], front, last);
      var table, id := Run(map[], front), Run(map[], events)[k].sessionId;
      StepCanon(table, last, k);
      assert forall i | 0 <= i < n :: events[..i] == front[..i] && events[i] == front[i];
      forall o | Stores(table, id, o)
        ensures table[o].isCreateCanon <==>
                exists i :: 0 <= i < n && CreationPuts(Run(map[], events[..i]), events[i], id)
      {
        CanonicalIffCreation(front, o);
      }
      if forall o :: !Stores(table, id, o) {
        NeverStored(front, id);
      }
    }
  }

  // An id that no row holds at the end of a run was never put in a row.
  lemma {:induction false} NeverStored(events: seq<Event>, id: Id)
    requires ValidRun(map[], events) && forall k :: !Stores(Run(map[], events), id, k)
    ensures forall i | 0 <= i < |events| :: !CreationPuts(Run(map[], events[..i]), events[i], id)
    decreases |events|
  {
    if events != [] {
      var n := |events| - 1;
      var front, last := events[..n], events[n];
      assert events == front + [last];
      RunSplits(map[], front, [last]);
      FrontIsValid(map[], front, last);
      StillNotStored(Run(map[], front), last, id);
      NeverStored(front, id);
      assert forall i | 0 <= i < n :: events[..i] == front[..i] && events[i] == front[i];
    }
  }

  lemma StillNotStored(table: Table, e: Event, id: Id)
    requires Inv(table) && InRange(e) && UnusedId(table, e.uuid)
    requires forall k :: !Stores(Handle(table, e).table, id, k)
    ensures forall k :: !Stores(table, id, k)
  {
    if k :| Stores(table, id, k) {
      var k' := StepKeepsSession(table, e, k);
      assert false;
    }
  }

  // ---------------------------------------------------------------- answers

  // Neither the bail for a timestamp past the session found nor a self-conflicting
  // transaction is ever reached, and without database faults a creation event is answered.
  lemma ImpossibleErrors(table: Table, e: Event)
    requires Inv(table) && InRange(e)
    ensures var r := Handle(table, e).result;
            && r != Err(TimestampPastSession) && r != Err(TransactionRejected)
            && (e.faults == NO_FAULTS && (e.unid.isCreation || e.shouldDefault) ==> r.Ok?)
  {
    if e.unid.isCreation {
      ImpossibleCreationErrors(table, e);
    } else {
      ImpossibleLastSeenErrors(table, e);
    }
  }

  lemma ImpossibleCreationErrors(table: Table, e: Event)
    requires Inv(table) && InRange(e) && e.unid.isCreation
    ensures var r := Handle(table, e).result;
            && r != Err(TimestampPastSession) && r != Err(TransactionRejected)
            && (e.faults == NO_FAULTS ==> r.Ok?)
  {
    var a, k := Handle(table, e), Key(e.unid.pseudoKey, ShaveInt(e.unid.timestamp, 1));
    CreationAttribution(table, e);
    if k !in table {
      if g :| IsGuess(table, k.pseudoKey, g) && k.createTime < g.createTime {
        assert e.faults.firstQuery || MovesRow(table, a, e, g);
      } else {
        assert forall g | IsGuess(table, k.pseudoKey, g) :: g.createTime != k.createTime;
      }
    }
  }

  lemma ImpossibleLastSeenErrors(table: Table, e: Event)
    requires Inv(table) && InRange(e) && !e.unid.isCreation
    ensures var r := Handle(table, e).result;
            && r != Err(TimestampPastSession) && r != Err(TransactionRejected)
            && (e.faults == NO_FAULTS && e.shouldDefault ==> r.Ok?)
  {
    var a, p, t := Handle(table, e), e.unid.pseudoKey, ShaveInt(e.unid.timestamp, 1);
    LastSeenAttribution(table, e);
    PredecessorOrNone(table, p, t);
    if AllAfter(table, p, t) {
      if g :| IsGuess(table, p, g) {
        assert e.faults.firstQuery || e.faults.secondQuery || MovesRow(table, a, e, g);
      } else {
        assert forall g | g in table :: !IsGuess(table, p, g);
      }
    }
  }

  predicate CreationAt(e: Event, k: Key) {
    e.unid.isCreation && e.unid.pseudoKey == k.pseudoKey && ShaveInt(e.unid.timestamp, 1) == k.createTime
  }

  // A creation event that finds a canonical row at its own time changes nothing, unless
  // that time is 0: there the tolerance test wraps and the row is overwritten.
  lemma CreationAtCanonicalRow(table: Table, e: Event, k: Key)
    requires k in table && KeyOf(table[k]) == k && table[k].isCreateCanon && CreationAt(e, k)
    requires e.faults == NO_FAULTS && UnusedId(table, e.uuid)
    ensures Handle(table, e) == Answer(table, Ok(table[k].sessionId)) <==> k.createTime != 0
    ensures k.createTime == 0 ==> Handle(table, e) == Answer(table[k := NewSession(Shaved(e.unid), true, e.uuid)], Ok(e.uuid))
  {
    var unid := Shaved(e.unid);
    assert IsFirstAfter(table, unid.pseudoKey, unid.timestamp, k);
    SkewedCmpOnShavedTimes(unid.timestamp, k.createTime);
  }

  // Every later creation event at `k` is answered with `id`, however the run continues.
  ghost predicate AnswerIsPermanent(table: Table, k: Key, id: Id) {
    forall events: seq<Event>, e: Event |
      ValidRun(table, events + [e]) && CreationAt(e, k) && e.faults == NO_FAULTS ::
      Handle(Run(table, events), e).result == Ok(id)
  }

  lemma CanonicalIsPermanent(table: Table, k: Key, events: seq<Event>, e: Event)
    requires Inv(table) && k in table && table[k].isCreateCanon
    requires ValidRun(table, events + [e]) && CreationAt(e, k) && e.faults == NO_FAULTS
    ensures Handle(Run(table, events), e) == Answer(Run(table, events), Ok(table[k].sessionId))
  {
    RunSplits(table, events, [e]);
    assert ([e])[0] == e;
    assert ValidRun(table, events) by {
      assert forall i | 0 <= i < |events| :: events[i] == (events + [e])[i];
    }
    var k' := SessionSurvives(table, events, k);
    CreationAtCanonicalRow(Run(table, events), e, k);
  }

  // At the earliest possible time a guessed row cannot move either.
  lemma {:induction false} GuessAtHundredStays(table: Table, k: Key, events: seq<Event>)
    requires Inv(table) && k in table && !table[k].isCreateCanon && k.createTime == 100
    requires ValidRun(table, events)
    ensures k in Run(table, events) && Run(table, events)[k] == table[k]
    decreases |events|
  {
    if events != [] {
      StepKeepsRunValid(table, events);
      var next := Handle(table, events[0]).table;
      if next != table && !Created(table, next, events[0]) {
        var from :| Moved(table, next, events[0], from);
        assert from != k;
      }
      GuessAtHundredStays(next, k, events[1..]);
    }
  }

  lemma GuessAtHundredIsPermanent(table: Table, k: Key, events: seq<Event>, e: Event)
    requires Inv(table) && k in table && !table[k].isCreateCanon && k.createTime == 100
    requires ValidRun(table, events + [e]) && CreationAt(e, k) && e.faults == NO_FAULTS
    ensures Handle(Run(table, events), e).result == Ok(table[k].sessionId)
  {
    RunSplits(table, events, [e]);
    assert ValidRun(table, events) by {
      assert forall i | 0 <= i < |events| :: events[i] == (events + [e])[i];
    }
    GuessAtHundredStays(table, k, events);
    var unid := Shaved(e.unid);
    assert IsFirstAfter(Run(table, events), unid.pseudoKey, unid.timestamp, k);
    SkewedCmpOnShavedTimes(unid.timestamp, k.createTime);
  }

  // Once its guessed row has moved away, a time gets a new id.
  lemma CreationAfterMove(table: Table, next: Table, seen: Event, again: Event, k: Key)
    requires Inv(table) && InRange(seen) && Moved(table, next, seen, k) && !seen.unid.isCreation
    requires CreationAt(again, k) && InRange(again) && again.faults == NO_FAULTS
    ensures Handle(next, again).result == Ok(again.uuid)
  {
    MovedKeepsInv(table, next, seen, k);
    var unid := Shaved(again.unid);
    FirstIsNearest(next, unid);
    var first := FirstSessionAfter(next, unid);
    if first.Some? {
      var f := KeyOf(first.value);
      assert f in table && f != k && table[f].isCreateCanon;
      SkewedCmpOnShavedTimes(unid.timestamp, f.createTime);
    }
  }

  lemma SeenMovesGuess(table: Table, k: Key, seen: Event)
    requires Inv(table) && k in table && !table[k].isCreateCanon && 100 < k.createTime < LAST_HUNDRED
    requires seen == Event(UnidSession(k.pseudoKey, 100, false), true, NO_FAULTS, seen.uuid) && UnusedId(table, seen.uuid)
    ensures Moved(table, Handle(table, seen).table, seen, k)
    ensures ShaveInt(100, 1) == 100 && ShaveInt(k.createTime, 1) == k.createTime
  {
    assert ShaveInt(100, 1) == 100;
    assert RowOk(k, table[k]) && ShaveInt(k.createTime, 1) == k.createTime;
    GuessIsFirst(table, k);
    LastSeenAttribution(table, seen);
    assert MovesRow(table, Handle(table, seen), seen, k);
  }

  lemma GuessIsFirst(table: Table, k: Key)
    requires Inv(table) && IsGuess(table, k.pseudoKey, k) && 100 < k.createTime
    ensures AllAfter(table, k.pseudoKey, 100)
  {
  }

  // One event that another answer follows shows that an answer is not permanent.
  lemma TwoEvents(table: Table, k: Key, seen: Event, again: Event, id: Id)
    requires ValidRun(table, [seen, again]) && CreationAt(again, k) && again.faults == NO_FAULTS
    requires Handle(Handle(table, seen).table, again).result != Ok(id)
    ensures !AnswerIsPermanent(table, k, id)
  {
    assert [seen] + [again] == [seen, again];
    assert [seen][1..] == [];
    assert Run(table, [seen]) == Handle(table, seen).table;
    assert Handle(Run(table, [seen]), again).result != Ok(id);
  }

  lemma TwoFreshEvents(table: Table, a: Event, b: Event)
    requires InRange(a) && InRange(b) && a.uuid != b.uuid && UnusedId(table, a.uuid) && UnusedId(table, b.uuid)
    ensures ValidRun(table, [a, b])
  {
  }

  // Above time 100, one last-seen event before a guessed row takes the row away, and the
  // next creation event at the old time is given a new id.
  lemma GuessIsNotPermanent(table: Table, k: Key, u1: Id, u2: Id)
    requires Inv(table) && k in table && !table[k].isCreateCanon && 100 < k.createTime < LAST_HUNDRED
    requires UnusedId(table, u1) && UnusedId(table, u2) && u1 != u2
    ensures !AnswerIsPermanent(table, k, table[k].sessionId)
  {
    var seen := Event(UnidSession(k.pseudoKey, 100, false), true, NO_FAULTS, u1);
    var again := Event(UnidSession(k.pseudoKey, k.createTime, true), true, NO_FAULTS, u2);
    SeenMovesGuess(table, k, seen);
    CreationAfterMove(table, Handle(table, seen).table, seen, again, k);
    TwoFreshEvents(table, seen, again);
    TwoEvents(table, k, seen, again, table[k].sessionId);
  }

  // A creation event's answer is the answer to every later creation event at the same time
  // exactly when it did not leave the row guessed (an event that hits a guessed row
  // at its exact time does leave it guessed), or the row is at the earliest time.
  lemma CreationAnswerPermanentIff(table: Table, e: Event, u1: Id, u2: Id)
    requires Inv(table) && InRange(e) && UnusedId(table, e.uuid)
    requires e.unid.isCreation && Handle(table, e).result.Ok?
    requires u1 != u2 && UnusedId(Handle(table, e).table, u1) && UnusedId(Handle(table, e).table, u2)
    ensures var a := Handle(table, e);
            var k := Key(e.unid.pseudoKey, ShaveInt(e.unid.timestamp, 1));
            && k in a.table
            && (a.table[k].isCreateCanon <==> !(k in table && !table[k].isCreateCanon))
            && (AnswerIsPermanent(a.table, k, a.result.value) <==> a.table[k].isCreateCanon || k.createTime == 100)
  {
    var a := Handle(table, e);
    var k := AnswerIsStored(table, e);
    StepChanges(table, e);
    ChangeKeepsInv(table, a.table, e);
    var unid := Shaved(e.unid);
    FirstIsNearest(table, unid);
    var first := FirstSessionAfter(table, unid);
    if first.Some? {
      assert IsFirstAfter(table, unid.pseudoKey, unid.timestamp, KeyOf(first.value));
      SkewedCmpOnShavedTimes(unid.timestamp, first.value.createTime);
    }
    if a.table[k].isCreateCanon {
      forall events: seq<Event>, e2: Event |
        ValidRun(a.table, events + [e2]) && CreationAt(e2, k) && e2.faults == NO_FAULTS
        ensures Handle(Run(a.table, events), e2).result == Ok(a.result.value)
      {
        CanonicalIsPermanent(a.table, k, events, e2);
      }
    } else if k.createTime == 100 {
      forall events: seq<Event>, e2: Event |
        ValidRun(a.table, events + [e2]) && CreationAt(e2, k) && e2.faults == NO_FAULTS
        ensures Handle(Run(a.table, events), e2).result == Ok(a.result.value)
      {
        GuessAtHundredIsPermanent(a.table, k, events, e2);
      }
    } else {
      GuessIsNotPermanent(a.table, k, u1, u2);
    }
  }
}
