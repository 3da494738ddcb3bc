/**
 Session attribution: the table that turns "created at t" and "seen at t" events into
 stable session ids.

 `SessionDb` is the imperative component.  Each of its handlers is specified by a function
 from the old table to the new table and the answer; the lemmas are about whole runs of
 those functions.  Every database call may fail, and a failed write may or may not have
 been applied.
 */
module Sessions {
  import opened Wrappers

  const TWO_64: int := 0x1_0000_0000_0000_0000

  type U64 = x: int | 0 <= x < TWO_64

  // The largest shaved timestamp whose default end time (101 later) does not wrap is the
  // last multiple of 100 below this bound.
  const LAST_HUNDRED: int := TWO_64 - 16

  type Id = string

  datatype UnidSession = UnidSession(pseudoKey: string, timestamp: U64, isCreation: bool)

  datatype Session = Session(
    sessionId: Id,
    pseudoKey: string,
    createTime: U64,
    endTime: U64,
    isCreateCanon: bool,
    isEndCanon: bool,
    version: nat)

  // Partition key and sort key of the session table.
  datatype Key = Key(pseudoKey: string, createTime: U64)

  type Table = map<Key, Session>

  datatype SessionError =
    | QueryFailed
    | WriteFailed
    | TransactionRejected   // both items of a transaction name the same row
    | TimestampPastSession  // the bail of handle_creation_event
    | NotDefaulting         // the bail of handle_last_seen

  datatype WriteFault = NoWriteFault | LostWrite | AppliedButReportedFailed

  datatype Faults = Faults(firstQuery: bool, secondQuery: bool, write: WriteFault)

  const NO_FAULTS := Faults(false, false, NoWriteFault)

  // One call of handle_unid_session, with the choices of its environment: database faults
  // and the id that the UUID generator would hand out.
  datatype Event = Event(unid: UnidSession, shouldDefault: bool, faults: Faults, uuid: Id)

  datatype Answer = Answer(table: Table, result: Result<Id, SessionError>)

  // ---------------------------------------------------------------- u64 arithmetic

  function WrappingAdd(a: U64, b: U64): U64 {
    (a + b) % TWO_64
  }

  function WrappingSub(a: U64, b: U64): U64 {
    (a - b) % TWO_64
  }

  function Pow10(n: nat): nat {
    if n == 0 then 1 else 10 * Pow10(n - 1)
  }

  function ShaveInt(input: U64, digits: nat): (r: U64)
    ensures digits == 1 ==> r % 100 == 0 && r <= input < r + 100
  {
    var d := Pow10(digits + 1);
    Pow10Positive(digits + 1);
    assert digits == 1 ==> d == 100 by { assert Pow10(2) == 10 * Pow10(1); }
    assert 0 <= input % d;
    ModAtMost(input, d);
    input - input % d
  }

  lemma Pow10Positive(n: nat)
    ensures Pow10(n) > 0
  {
  }

  lemma ModAtMost(a: nat, d: nat)
    requires d > 0
    ensures a % d <= a
  {
    if a < d {
    } else {
      assert a % d < d;
    }
  }

  predicate SkewedCmp(ts1: U64, ts2: U64) {
    WrappingSub(ts1, 10) < ts2 && WrappingAdd(ts1, 10) > ts2
  }

  // On shaved times the tolerance of ten means equality, except that time 0 matches
  // nothing, because the subtraction wraps.
  lemma SkewedCmpOnShavedTimes(a: U64, b: U64)
    requires a % 100 == 0 && b % 100 == 0
    ensures SkewedCmp(a, b) <==> a == b && a != 0
  {
    if a == 0 {
      assert WrappingSub(a, 10) == TWO_64 - 10;
    } else {
      assert a >= 100;
      assert WrappingSub(a, 10) == a - 10;
      assert a + 10 < TWO_64;
      assert WrappingAdd(a, 10) == a + 10;
      if a - 10 < b < a + 10 {
        assert a / 100 == b / 100;
      }
    }
  }

  // ---------------------------------------------------------------- queries

  predicate IsFirstAfter(table: Table, pseudoKey: string, t: U64, k: Key) {
    && k in table && k.pseudoKey == pseudoKey && t <= k.createTime
    && forall o | o in table && o.pseudoKey == pseudoKey && t <= o.createTime :: k.createTime <= o.createTime
  }

  predicate IsLastBefore(table: Table, pseudoKey: string, t: U64, k: Key) {
    && k in table && k.pseudoKey == pseudoKey && k.createTime <= t
    && forall o | o in table && o.pseudoKey == pseudoKey && o.createTime <= t :: o.createTime <= k.createTime
  }

  function FirstSessionAfter(table: Table, unid: UnidSession): Option<Session> {
    if exists k | k in table :: IsFirstAfter(table, unid.pseudoKey, unid.timestamp, k) then
      var k :| k in table && IsFirstAfter(table, unid.pseudoKey, unid.timestamp, k);
      Some(table[k])
    else
      None
  }

  function LastSessionBefore(table: Table, unid: UnidSession): Option<Session> {
    if exists k | k in table :: IsLastBefore(table, unid.pseudoKey, unid.timestamp, k) then
      var k :| k in table && IsLastBefore(table, unid.pseudoKey, unid.timestamp, k);
      Some(table[k])
    else
      None
  }

  // A nonempty finite set of keys has one with the smallest and one with the largest time.
  lemma ExtremeKeys(keys: set<Key>) returns (least: Key, greatest: Key)
    requires keys != {}
    ensures least in keys && forall o | o in keys :: least.createTime <= o.createTime
    ensures greatest in keys && forall o | o in keys :: o.createTime <= greatest.createTime
  {
    var k :| k in keys;
    if keys == {k} {
      least, greatest := k, k;
    } else {
      least, greatest := ExtremeKeys(keys - {k});
      if k.createTime < least.createTime {
        least := k;
      }
      if greatest.createTime < k.createTime {
        greatest := k;
      }
    }
  }

  // A query answers None only when no row qualifies; otherwise it answers the nearest row.
  lemma FirstIsNearest(table: Table, unid: UnidSession)
    requires forall k | k in table :: KeyOf(table[k]) == k
    ensures match FirstSessionAfter(table, unid)
            case None => forall o | o in table && o.pseudoKey == unid.pseudoKey :: o.createTime < unid.timestamp
            case Some(s) =>
              && KeyOf(s) in table && table[KeyOf(s)] == s && s.pseudoKey == unid.pseudoKey && unid.timestamp <= s.createTime
              && forall o | o in table && o.pseudoKey == unid.pseudoKey && unid.timestamp <= o.createTime :: s.createTime <= o.createTime
  {
    var after := set o | o in table && o.pseudoKey == unid.pseudoKey && unid.timestamp <= o.createTime;
    if after != {} {
      var k, _ := ExtremeKeys(after);
      assert IsFirstAfter(table, unid.pseudoKey, unid.timestamp, k);
    } else {
      assert forall o | o in table && o.pseudoKey == unid.pseudoKey && unid.timestamp <= o.createTime :: o in after;
    }
  }

  lemma LastIsNearest(table: Table, unid: UnidSession)
    requires forall k | k in table :: KeyOf(table[k]) == k
    ensures match LastSessionBefore(table, unid)
            case None => forall o | o in table && o.pseudoKey == unid.pseudoKey :: unid.timestamp < o.createTime
            case Some(s) =>
              && KeyOf(s) in table && table[KeyOf(s)] == s && s.pseudoKey == unid.pseudoKey && s.createTime <= unid.timestamp
              && forall o | o in table && o.pseudoKey == unid.pseudoKey && o.createTime <= unid.timestamp :: o.createTime <= s.createTime
  {
    var before := set o | o in table && o.pseudoKey == unid.pseudoKey && o.createTime <= unid.timestamp;
    if before != {} {
      var _, k := ExtremeKeys(before);
      assert IsLastBefore(table, unid.pseudoKey, unid.timestamp, k);
    } else {
      assert forall o | o in table && o.pseudoKey == unid.pseudoKey && o.createTime <= unid.timestamp :: o in before;
    }
  }

  // ---------------------------------------------------------------- writes

  function KeyOf(s: Session): Key {
    Key(s.pseudoKey, s.createTime)
  }

  // The answer of a handler that ends with a write and then returns `id`.
  function Written(before: Table, after: Table, fault: WriteFault, id: Id): Answer {
    match fault
    case NoWriteFault => Answer(after, Ok(id))
    case LostWrite => Answer(before, Err(WriteFailed))
    case AppliedButReportedFailed => Answer(after, Err(WriteFailed))
  }

  function MovedRow(session: Session, newTime: U64, isCanon: bool): Session {
    session.(createTime := newTime, isCreateCanon := isCanon, version := session.version + 1)
  }

  // `moved` is the row of `session` at a new creation time: the id, the key and the end stay,
  // the version counts the move, and the flag says who moved it.
  predicate IsMovedRow(session: Session, moved: Session, newTime: U64, isCanon: bool) {
    && moved.sessionId == session.sessionId && moved.pseudoKey == session.pseudoKey
    && moved.createTime == newTime && moved.endTime == session.endTime
    && moved.isCreateCanon == isCanon && moved.isEndCanon == session.isEndCanon
    && moved.version == session.version + 1
  }

  // Delete the row and recreate it at its new sort key, in one transaction.
  function MoveRow(table: Table, session: Session, newTime: U64, isCanon: bool, fault: WriteFault): Answer {
    var moved := MovedRow(session, newTime, isCanon);
    if KeyOf(moved) == KeyOf(session) then
      Answer(table, Err(TransactionRejected))
    else
      Written(table, (table - {KeyOf(session)})[KeyOf(moved) := moved], fault, session.sessionId)
  }

  function CreateRow(table: Table, session: Session, fault: WriteFault): Answer {
    Written(table, table[KeyOf(session) := session], fault, session.sessionId)
  }

  function NewSession(unid: UnidSession, isCanon: bool, uuid: Id): Session {
    Session(uuid, unid.pseudoKey, unid.timestamp, WrappingAdd(unid.timestamp, 101), isCanon, false, 0)
  }

  // ---------------------------------------------------------------- handlers

  function CreateCanonical(table: Table, unid: UnidSession, faults: Faults, uuid: Id): Answer {
    if faults.secondQuery then
      Answer(table, Err(QueryFailed))
    else
      CreateRow(table, NewSession(unid, true, uuid), faults.write)
  }

  function CreationEvent(table: Table, unid: UnidSession, faults: Faults, uuid: Id): Answer {
    if faults.firstQuery then
      Answer(table, Err(QueryFailed))
    else
      match FirstSessionAfter(table, unid)
      case None => CreateCanonical(table, unid, faults, uuid)
      case Some(session) =>
        if !session.isCreateCanon && session.createTime != unid.timestamp then
          MoveRow(table, session, unid.timestamp, true, faults.write)
        else if SkewedCmp(unid.timestamp, session.createTime) then
          Answer(table, Ok(session.sessionId))
        else if unid.timestamp > session.createTime then
          Answer(table, Err(TimestampPastSession))
        else
          CreateCanonical(table, unid, faults, uuid)
  }

  function DefaultSession(table: Table, unid: UnidSession, shouldDefault: bool, faults: Faults, uuid: Id): Answer {
    if shouldDefault then
      CreateRow(table, NewSession(unid, false, uuid), faults.write)
    else
      Answer(table, Err(NotDefaulting))
  }

  function ExtendLaterSession(table: Table, unid: UnidSession, shouldDefault: bool, faults: Faults, uuid: Id): Answer {
    if faults.secondQuery then
      Answer(table, Err(QueryFailed))
    else
      match FirstSessionAfter(table, unid)
      case None => DefaultSession(table, unid, shouldDefault, faults, uuid)
      case Some(session) =>
        if !session.isCreateCanon then
          MoveRow(table, session, unid.timestamp, false, faults.write)
        else
          DefaultSession(table, unid, shouldDefault, faults, uuid)
  }

  function LastSeen(table: Table, unid: UnidSession, shouldDefault: bool, faults: Faults, uuid: Id): Answer {
    if faults.firstQuery then
      Answer(table, Err(QueryFailed))
    else
      match LastSessionBefore(table, unid)
      case None => ExtendLaterSession(table, unid, shouldDefault, faults, uuid)
      case Some(session) =>
        if unid.timestamp < session.endTime || SkewedCmp(unid.timestamp, session.endTime) then
          Answer(table, Ok(session.sessionId))
        else if !session.isEndCanon then
          Answer(table, Ok(session.sessionId))
        else
          ExtendLaterSession(table, unid, shouldDefault, faults, uuid)
  }

  function Shaved(unid: UnidSession): UnidSession {
    unid.(timestamp := ShaveInt(unid.timestamp, 1))
  }

  function Handle(table: Table, e: Event): Answer {
    var unid := Shaved(e.unid);
    if unid.isCreation then
      CreationEvent(table, unid, e.faults, e.uuid)
    else
      LastSeen(table, unid, e.shouldDefault, e.faults, e.uuid)
  }

  class SessionDb {
    var table: Table

    constructor ()
      ensures table == map[]
    {
      table := map[];
    }

    method FindFirstSessionAfter(unid: UnidSession, fails: bool) returns (r: Result<Option<Session>, SessionError>)
      ensures fails ==> r == Err(QueryFailed)
      ensures !fails ==> r == Ok(FirstSessionAfter(table, unid))
    {
      r := if fails then Err(QueryFailed) else Ok(FirstSessionAfter(table, unid));
    }

    method FindLastSessionBefore(unid: UnidSession, fails: bool) returns (r: Result<Option<Session>, SessionError>)
      ensures fails ==> r == Err(QueryFailed)
      ensures !fails ==> r == Ok(LastSessionBefore(table, unid))
    {
      r := if fails then Err(QueryFailed) else Ok(LastSessionBefore(table, unid));
    }

    method UpdateSessionCreateTime(session: Session, newTime: U64, isCanon: bool, fault: WriteFault)
      returns (r: Result<Id, SessionError>)
      modifies this
      ensures Answer(table, r) == MoveRow(old(table), session, newTime, isCanon, fault)
      ensures r == if session.createTime == newTime then Err(TransactionRejected)
                   else if fault == NoWriteFault then Ok(session.sessionId) else Err(WriteFailed)
      ensures session.createTime == newTime || fault == LostWrite ==> table == old(table)
      ensures session.createTime != newTime && fault != LostWrite ==>
                var k := Key(session.pseudoKey, newTime);
                && k in table && table == (old(table) - {Key(session.pseudoKey, session.createTime)})[k := table[k]]
                && IsMovedRow(session, table[k], newTime, isCanon)
    {
      var newSession := session.(createTime := newTime);
      newSession := newSession.(isCreateCanon := isCanon);
      newSession := newSession.(version := newSession.version + 1);
      if session.createTime == newTime {
        return Err(TransactionRejected);
      }
      if fault != LostWrite {
        table := table - {KeyOf(session)};
        table := table[KeyOf(newSession) := newSession];
      }
      r := if fault == NoWriteFault then Ok(session.sessionId) else Err(WriteFailed);
    }

    method CreateSession(session: Session, fault: WriteFault) returns (r: Result<Id, SessionError>)
      modifies this
      ensures Answer(table, r) == CreateRow(old(table), session, fault)
    {
      if fault != LostWrite {
        table := table[KeyOf(session) := session];
      }
      r := if fault == NoWriteFault then Ok(session.sessionId) else Err(WriteFailed);
    }

    method HandleCreationEvent(unid: UnidSession, faults: Faults, uuid: Id) returns (r: Result<Id, SessionError>)
      modifies this
      ensures Answer(table, r) == CreationEvent(old(table), unid, faults, uuid)
    {
      var after := FindFirstSessionAfter(unid, faults.firstQuery);
      if after.Err? {
        return Err(after.error);
      }
      if after.value.Some? {
        var session := after.value.value;
        if !session.isCreateCanon && session.createTime != unid.timestamp {
          r := UpdateSessionCreateTime(session, unid.timestamp, true, faults.write);
          return;
        }
        if SkewedCmp(unid.timestamp, session.createTime) {
          return Ok(session.sessionId);
        }
        if unid.timestamp > session.createTime {
          return Err(TimestampPastSession);
        }
      }
      // An overlapping earlier session is only logged.
      var before := FindLastSessionBefore(unid, faults.secondQuery);
      if before.Err? {
        return Err(before.error);
      }
      r := CreateSession(NewSession(unid, true, uuid), faults.write);
    }

    method HandleLastSeen(unid: UnidSession, shouldDefault: bool, faults: Faults, uuid: Id)
      returns (r: Result<Id, SessionError>)
      modifies this
      ensures Answer(table, r) == LastSeen(old(table), unid, shouldDefault, faults, uuid)
    {
      var before := FindLastSessionBefore(unid, faults.firstQuery);
      if before.Err? {
        return Err(before.error);
      }
      if before.value.Some? {
        var session := before.value.value;
        if unid.timestamp < session.endTime || SkewedCmp(unid.timestamp, session.endTime) {
          return Ok(session.sessionId);
        }
        if !session.isEndCanon {
          return Ok(session.sessionId);
        }
      }
      var after := FindFirstSessionAfter(unid, faults.secondQuery);
      if after.Err? {
        return Err(after.error);
      }
      if after.value.Some? && !after.value.value.isCreateCanon {
        r := UpdateSessionCreateTime(after.value.value, unid.timestamp, false, faults.write);
        return;
      }
      if !shouldDefault {
        return Err(NotDefaulting);
      }
      r := CreateSession(NewSession(unid, false, uuid), faults.write);
    }

    method HandleUnidSession(e: Event) returns (r: Result<Id, SessionError>)
      modifies this
      ensures Answer(table, r) == Handle(old(table), e)
    {
      var unid := e.unid.(timestamp := ShaveInt(e.unid.timestamp, 1));
      if unid.isCreation {
        r := HandleCreationEvent(unid, e.faults, e.uuid);
      } else {
        r := HandleLastSeen(unid, e.shouldDefault, e.faults, e.uuid);
      }
    }
  }
}
