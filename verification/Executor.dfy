/**
 The message executor: ten workers take batches from a queue; one panic or the batch timeout
 drops all ten, but the delete and send tasks they spawned go on running.

 The executor is a state machine.  An `Action` carries every choice of its environment
 (which message, which call fails, which worker runs next), so a sequence of actions is one
 interleaving, and a theorem over all sequences is a theorem over all of them.
 */
module Executor {
  import opened Sequences

  const TRIES: nat := 5    // attempts of send_message and delete_message
  const WORKERS: nat := 10

  type Bytes = seq<char>

  // A completed identity is already a 64-bit hash, as eight bytes.
  type Identity = b: Bytes | |b| == 8 witness "00000000"

  // SQS message ids are longer than eight bytes.  `payloadEmpty` tells whether retrieval
  // finds a payload.
  datatype Message = Message(id: Bytes, body: string, payloadEmpty: bool)

  // The executor looks up a String but stores a Vec<u8>, and these hash differently.
  datatype Cacheable = Text(text: Bytes) | Raw(bytes: Bytes)

  type Hash = Cacheable -> int

  datatype EventStatus = Success | Partial | Failure

  // ---------------------------------------------------------------- spawned tasks

  datatype Attempt = Succeeds | Fails(persistent: bool, applied: bool)

  datatype Outcome = Running | Succeeded | GaveUp

  datatype Task =
    | DeleteTask(msg: Message, tries: nat, outcome: Outcome)
    | SendTask(msg: Message, tries: nat, outcome: Outcome)

  // One attempt of a retry loop.
  function Attempted(task: Task, attempt: Attempt): Task {
    if task.outcome != Running then task else
    match attempt
    case Succeeds => task.(outcome := Succeeded)
    case Fails(persistent, _) =>
      if persistent || task.tries + 1 >= TRIES then task.(tries := task.tries + 1, outcome := GaveUp)
      else task.(tries := task.tries + 1)
  }

  predicate Takes(task: Task, attempt: Attempt) {
    task.outcome == Running && (attempt.Succeeds? || attempt.applied)
  }

  // ---------------------------------------------------------------- workers

  datatype Pc =
    | CheckCache
    | Retrieve
    | HandleEvent
    | EmitTotal(completed: seq<(Identity, EventStatus)>)
    | StoreId(completed: seq<(Identity, EventStatus)>)
    | CacheTotal(completed: seq<(Identity, EventStatus)>)
    | DeleteMessage
    | EmitPartial(persistent: bool, completed: seq<(Identity, EventStatus)>)
    | CachePartial(persistent: bool, completed: seq<(Identity, EventStatus)>)
    | SendToDeadLetter
    | AwaitSend(task: nat)
    | AwaitDelete(task: nat)
    | Done

  datatype Handled = Total | PartialError(persistent: bool) | Error(persistent: bool)

  // What a worker has found out about its message.
  datatype Seen =
    | Nothing
    | Duplicate
    | NoEvents
    | Unretrieved(persistent: bool)
    | Result(handled: Handled, completed: seq<(Identity, EventStatus)>)

  datatype Worker = Worker(msg: Message, pc: Pc, seen: Seen)

  datatype Payload = Events | NoPayload | RetrieveError(persistent: bool)

  // What the environment decides for one step of a worker.
  datatype Choice = Choice(
    cacheAnswers: bool,      // whether a cache hit is found (a cache may always miss)
    payload: Payload,
    handled: Handled,
    completed: seq<(Identity, EventStatus)>,
    emitFails: bool,         // a failed emission panics
    emitApplied: bool)       // although the output may have been written

  datatype State = State(
    ever: set<Message>,        // every message ever queued
    queue: set<Message>,
    deadLetters: set<Message>, // messages whose body was sent to the dead-letter queue
    emitted: set<Bytes>,       // ids of messages whose total output was emitted
    partials: set<Bytes>,      // ids of messages of which a partial output was emitted
    stored: set<Cacheable>,    // everything ever passed to the cache
    rejected: set<Message>,    // messages that failed with a persistent error
    workers: seq<Worker>,
    tasks: seq<Task>)

  datatype Action =
    | Enqueue(msg: Message)
    | Receive(batch: seq<Message>)
    | Step(worker: nat, choice: Choice)
    | Abort                         // a panic in any worker, or the batch timeout
    | Joined                        // all workers of the batch have returned
    | Try(task: nat, attempt: Attempt)

  const INIT := State({}, {}, {}, {}, {}, {}, {}, [], [])

  predicate CacheHit(hash: Hash, s: State, id: Bytes) {
    exists c | c in s.stored :: hash(c) == hash(Text(id))
  }

  function Kept(completed: seq<(Identity, EventStatus)>): seq<Identity> {
    if completed == [] then []
    else (if completed[0].1 == Partial then [] else [completed[0].0]) + Kept(completed[1..])
  }

  function StoredIdentities(completed: seq<(Identity, EventStatus)>): set<Cacheable> {
    set i | i in Kept(completed) :: Raw(i)
  }

  function Goto(s: State, w: nat, pc: Pc): State
    requires w < |s.workers|
  {
    s.(workers := s.workers[w := s.workers[w].(pc := pc)])
  }

  function Saw(s: State, w: nat, seen: Seen): State
    requires w < |s.workers|
  {
    s.(workers := s.workers[w := s.workers[w].(seen := seen)])
  }

  function SpawnDelete(s: State, w: nat): State
    requires w < |s.workers|
  {
    Goto(s, w, AwaitDelete(|s.tasks|)).(tasks := s.tasks + [DeleteTask(s.workers[w].msg, 0, Running)])
  }

  function Reject(s: State, w: nat, persistent: bool): State
    requires w < |s.workers|
  {
    if persistent then Goto(s, w, SendToDeadLetter).(rejected := s.rejected + {s.workers[w].msg})
    else Goto(s, w, Done)
  }

  function WorkerStep(hash: Hash, s: State, w: nat, c: Choice): State
    requires w < |s.workers|
  {
    var m := s.workers[w].msg;
    match s.workers[w].pc
    case CheckCache =>
      if c.cacheAnswers && CacheHit(hash, s, m.id) then SpawnDelete(Saw(s, w, Duplicate), w) else Goto(s, w, Retrieve)
    case Retrieve =>
      (match c.payload
       case Events => Goto(s, w, HandleEvent)
       case NoPayload => if m.payloadEmpty then Goto(SpawnDelete(Saw(s, w, NoEvents), w), w, Done) else s
       case RetrieveError(persistent) => Reject(Saw(s, w, Unretrieved(persistent)), w, persistent))
    case HandleEvent =>
      var s' := Saw(s, w, Result(c.handled, c.completed));
      (match c.handled
       case Total => Goto(s', w, EmitTotal(c.completed))
       case PartialError(persistent) => Goto(s', w, EmitPartial(persistent, c.completed))
       case Error(persistent) => Reject(s', w, persistent))
    case EmitTotal(completed) =>
      var s' := if c.emitFails && !c.emitApplied then s else s.(emitted := s.emitted + {m.id});
      if c.emitFails then s'.(workers := []) else Goto(s', w, StoreId(completed))
    case StoreId(completed) =>
      Goto(s.(stored := s.stored + {Raw(m.id)}), w, CacheTotal(completed))
    case CacheTotal(completed) =>
      Goto(s.(stored := s.stored + StoredIdentities(completed)), w, DeleteMessage)
    case DeleteMessage => SpawnDelete(s, w)
    case EmitPartial(persistent, completed) =>
      var s' := if c.emitFails && !c.emitApplied then s else s.(partials := s.partials + {m.id});
      if c.emitFails then s'.(workers := []) else Goto(s', w, CachePartial(persistent, completed))
    case CachePartial(persistent, completed) =>
      Reject(s.(stored := s.stored + StoredIdentities(completed)), w, persistent)
    case SendToDeadLetter =>
      Goto(s, w, AwaitSend(|s.tasks|)).(tasks := s.tasks + [SendTask(m, 0, Running)])
    case AwaitSend(t) =>
      if t >= |s.tasks| || s.tasks[t].outcome == Running then s
      else if s.tasks[t].outcome == Succeeded then SpawnDelete(s, w)
      else Goto(s, w, Done)
    case AwaitDelete(t) =>
      if t >= |s.tasks| || s.tasks[t].outcome == Running then s else Goto(s, w, Done)
    case Done => s
  }

  function TaskStep(s: State, t: nat, attempt: Attempt): State
    requires t < |s.tasks|
  {
    var task := s.tasks[t];
    var s' := s.(tasks := s.tasks[t := Attempted(task, attempt)]);
    if !Takes(task, attempt) then s'
    else if task.DeleteTask? then s'.(queue := s.queue - {task.msg})
    else s'.(deadLetters := s.deadLetters + {task.msg})
  }

  function FirstTen(batch: seq<Message>): seq<Message> {
    if |batch| <= WORKERS then batch else batch[..WORKERS]
  }

  // An action that is not enabled changes nothing.
  function Apply(hash: Hash, s: State, a: Action): State {
    match a
    case Enqueue(m) =>
      if |m.id| > 8 && (forall o | o in s.ever :: o.id != m.id) then
        s.(ever := s.ever + {m}, queue := s.queue + {m})
      else s
    case Receive(batch) =>
      if s.workers == [] && (forall m | m in batch :: m in s.queue) then
        s.(workers := seq(|FirstTen(batch)|, i requires 0 <= i < |FirstTen(batch)| => Worker(FirstTen(batch)[i], CheckCache, Nothing)))
      else s
    case Step(w, c) => if w < |s.workers| then WorkerStep(hash, s, w, c) else s
    case Abort => s.(workers := [])
    case Joined => if forall w | w in s.workers :: w.pc == Done then s.(workers := []) else s
    case Try(t, attempt) => if t < |s.tasks| then TaskStep(s, t, attempt) else s
  }

  function Run(hash: Hash, s: State, actions: seq<Action>): State {
    if actions == [] then s else Apply(hash, Run(hash, s, actions[..|actions| - 1]), actions[|actions| - 1])
  }

  // ---------------------------------------------------------------- invariant

  // A message that need not stay in the queue.
  predicate Resolved(s: State, m: Message) {
    m.id in s.emitted || m in s.deadLetters || m.payloadEmpty
  }

  predicate WorkerOk(s: State, w: Worker) {
    && w.msg in s.ever
    && match w.pc
       case StoreId(_) => w.msg.id in s.emitted
       case CacheTotal(_) => w.msg.id in s.emitted
       case DeleteMessage => w.msg.id in s.emitted
       case SendToDeadLetter => w.msg in s.rejected
       case AwaitSend(t) => t < |s.tasks| && s.tasks[t].SendTask? && s.tasks[t].msg == w.msg
       case _ => true
  }

  predicate TaskOk(s: State, t: Task) {
    && t.msg in s.ever
    && match t
       case DeleteTask(m, _, _) => Resolved(s, m)
       case SendTask(m, _, outcome) => m in s.rejected && (outcome == Succeeded ==> m in s.deadLetters)
  }

  predicate StoredOk(s: State, c: Cacheable) {
    c.Raw? && (|c.bytes| == 8 || c.bytes in s.emitted)
  }

  predicate Inv(s: State) {
    && s.queue <= s.ever
    && (forall m | m in s.ever :: |m.id| > 8 && (m in s.queue || Resolved(s, m)))
    && (forall w | w in s.workers :: WorkerOk(s, w))
    && (forall t | t in s.tasks :: TaskOk(s, t))
    && (forall c | c in s.stored :: StoredOk(s, c))
    && s.deadLetters <= s.rejected
    && |s.workers| <= WORKERS
  }

  // No message of the run was looked up under the hash of something else that was stored.
  predicate NoCollision(hash: Hash, s: State) {
    forall m | m in s.ever :: forall c | c in s.stored && hash(c) == hash(Text(m.id)) :: c == Raw(m.id)
  }

  // ---------------------------------------------------------------- steps keep the invariant

  // State parts that only grow.
  predicate Grows(s: State, s': State) {
    && s.ever <= s'.ever && s.emitted <= s'.emitted && s.deadLetters <= s'.deadLetters
    && s.stored <= s'.stored && s.rejected <= s'.rejected
    && |s.tasks| <= |s'.tasks|
    && forall i | 0 <= i < |s.tasks| ::
         s'.tasks[i].msg == s.tasks[i].msg && (s'.tasks[i].SendTask? <==> s.tasks[i].SendTask?)
  }

  lemma GrowthKeepsParts(s: State, s': State)
    requires Inv(s) && Grows(s, s')
    ensures forall m | Resolved(s, m) :: Resolved(s', m)
    ensures forall w | WorkerOk(s, w) :: WorkerOk(s', w)
    ensures forall c | StoredOk(s, c) :: StoredOk(s', c)
    ensures forall t | TaskOk(s, t) :: TaskOk(s', t)
  {
  }

  lemma HitMeansEmitted(hash: Hash, s: State, m: Message)
    requires NoCollision(hash, s) && Inv(s) && m in s.ever && CacheHit(hash, s, m.id)
    ensures m.id in s.emitted
  {
    var c :| c in s.stored && hash(c) == hash(Text(m.id));
    assert StoredOk(s, c);
  }

  lemma SawKeepsInv(s: State, w: nat, seen: Seen)
    requires Inv(s) && w < |s.workers|
    ensures Inv(Saw(s, w, seen))
  {
    var s' := Saw(s, w, seen);
    GrowthKeepsParts(s, s');
    forall o | o in s'.workers
      ensures WorkerOk(s', o)
    {
      var i :| 0 <= i < |s'.workers| && s'.workers[i] == o;
      assert WorkerOk(s, s.workers[i]);
    }
  }

  lemma GotoKeepsInv(s: State, w: nat, pc: Pc)
    requires Inv(s) && w < |s.workers| && WorkerOk(s, Worker(s.workers[w].msg, pc, s.workers[w].seen))
    ensures Inv(Goto(s, w, pc))
  {
    var s' := Goto(s, w, pc);
    GrowthKeepsParts(s, s');
    forall o | o in s'.workers
      ensures WorkerOk(s', o)
    {
      var i :| 0 <= i < |s'.workers| && s'.workers[i] == o;
      assert i != w ==> s.workers[i] == o && WorkerOk(s, o);
    }
  }

  lemma AddTaskKeepsInv(s: State, t: Task)
    requires Inv(s) && TaskOk(s, t)
    ensures Inv(s.(tasks := s.tasks + [t]))
  {
    GrowthKeepsParts(s, s.(tasks := s.tasks + [t]));
  }

  lemma SpawnDeleteKeepsInv(s: State, w: nat)
    requires Inv(s) && w < |s.workers| && Resolved(s, s.workers[w].msg)
    ensures Inv(SpawnDelete(s, w))
  {
    assert WorkerOk(s, s.workers[w]);
    GotoKeepsInv(s, w, AwaitDelete(|s.tasks|));
    AddTaskKeepsInv(Goto(s, w, AwaitDelete(|s.tasks|)), DeleteTask(s.workers[w].msg, 0, Running));
  }

  lemma RejectKeepsInv(s: State, w: nat, persistent: bool)
    requires Inv(s) && w < |s.workers|
    ensures Inv(Reject(s, w, persistent))
  {
    assert WorkerOk(s, s.workers[w]);
    if persistent {
      var s1 := s.(rejected := s.rejected + {s.workers[w].msg});
      GrowthKeepsParts(s, s1);
      GotoKeepsInv(s1, w, SendToDeadLetter);
    } else {
      GotoKeepsInv(s, w, Done);
    }
  }

  lemma StoreKeepsInv(s: State, cs: set<Cacheable>)
    requires Inv(s) && forall c | c in cs :: StoredOk(s, c)
    ensures Inv(s.(stored := s.stored + cs))
  {
    GrowthKeepsParts(s, s.(stored := s.stored + cs));
  }

  lemma EmitKeepsInv(s: State, total: set<Bytes>, partials: set<Bytes>)
    requires Inv(s)
    ensures Inv(s.(emitted := s.emitted + total)) && Inv(s.(partials := partials))
    ensures Inv(s.(workers := []))
  {
    GrowthKeepsParts(s, s.(emitted := s.emitted + total));
    GrowthKeepsParts(s, s.(partials := partials));
    GrowthKeepsParts(s, s.(workers := []));
  }

  lemma EmitStepKeepsInv(hash: Hash, s: State, w: nat, c: Choice)
    requires Inv(s) && w < |s.workers| && (s.workers[w].pc.EmitTotal? || s.workers[w].pc.EmitPartial?)
    ensures Inv(WorkerStep(hash, s, w, c))
  {
    var m := s.workers[w].msg;
    assert WorkerOk(s, s.workers[w]);
    EmitKeepsInv(s, {m.id}, s.partials + {m.id});
    var s' := if c.emitFails && !c.emitApplied then s
              else if s.workers[w].pc.EmitTotal? then s.(emitted := s.emitted + {m.id})
              else s.(partials := s.partials + {m.id});
    EmitKeepsInv(s', {}, {});
    if !c.emitFails {
      match s.workers[w].pc
      case EmitTotal(completed) => GotoKeepsInv(s', w, StoreId(completed));
      case EmitPartial(persistent, completed) => GotoKeepsInv(s', w, CachePartial(persistent, completed));
      case _ =>
    }
  }

  lemma StoreStepKeepsInv(hash: Hash, s: State, w: nat, c: Choice)
    requires Inv(s) && w < |s.workers|
    requires s.workers[w].pc.StoreId? || s.workers[w].pc.CacheTotal? || s.workers[w].pc.CachePartial?
    ensures Inv(WorkerStep(hash, s, w, c))
  {
    var m := s.workers[w].msg;
    assert WorkerOk(s, s.workers[w]);
    match s.workers[w].pc
    case StoreId(completed) =>
      StoreKeepsInv(s, {Raw(m.id)});
      GotoKeepsInv(s.(stored := s.stored + {Raw(m.id)}), w, CacheTotal(completed));
    case CacheTotal(completed) =>
      StoreKeepsInv(s, StoredIdentities(completed));
      GotoKeepsInv(s.(stored := s.stored + StoredIdentities(completed)), w, DeleteMessage);
    case CachePartial(persistent, completed) =>
      StoreKeepsInv(s, StoredIdentities(completed));
      RejectKeepsInv(s.(stored := s.stored + StoredIdentities(completed)), w, persistent);
    case _ =>
  }

  lemma DecideKeepsInv(hash: Hash, s: State, w: nat, c: Choice)
    requires NoCollision(hash, s) && Inv(s) && w < |s.workers|
    requires s.workers[w].pc.CheckCache? || s.workers[w].pc.Retrieve? || s.workers[w].pc.HandleEvent?
    ensures Inv(WorkerStep(hash, s, w, c))
  {
    var m := s.workers[w].msg;
    assert WorkerOk(s, s.workers[w]);
    match s.workers[w].pc
    case CheckCache =>
      if c.cacheAnswers && CacheHit(hash, s, m.id) {
        HitMeansEmitted(hash, s, m);
        SawKeepsInv(s, w, Duplicate);
        SpawnDeleteKeepsInv(Saw(s, w, Duplicate), w);
      } else {
        GotoKeepsInv(s, w, Retrieve);
      }
    case Retrieve =>
      if c.payload.Events? {
        GotoKeepsInv(s, w, HandleEvent);
      } else if c.payload.RetrieveError? {
        SawKeepsInv(s, w, Unretrieved(c.payload.persistent));
        RejectKeepsInv(Saw(s, w, Unretrieved(c.payload.persistent)), w, c.payload.persistent);
      } else if m.payloadEmpty {
        var s' := Saw(s, w, NoEvents);
        SawKeepsInv(s, w, NoEvents);
        SpawnDeleteKeepsInv(s', w);
        GotoKeepsInv(SpawnDelete(s', w), w, Done);
      }
    case HandleEvent =>
      var s' := Saw(s, w, Result(c.handled, c.completed));
      SawKeepsInv(s, w, Result(c.handled, c.completed));
      if c.handled.Total? {
        GotoKeepsInv(s', w, EmitTotal(c.completed));
      } else if c.handled.PartialError? {
        GotoKeepsInv(s', w, EmitPartial(c.handled.persistent, c.completed));
      } else {
        RejectKeepsInv(s', w, c.handled.persistent);
      }
    case _ =>
  }

  lemma WorkerStepKeepsInv(hash: Hash, s: State, w: nat, c: Choice)
    requires NoCollision(hash, s) && Inv(s) && w < |s.workers|
    ensures Inv(WorkerStep(hash, s, w, c))
  {
    var m := s.workers[w].msg;
    assert WorkerOk(s, s.workers[w]);
    match s.workers[w].pc
    case CheckCache => DecideKeepsInv(hash, s, w, c);
    case Retrieve => DecideKeepsInv(hash, s, w, c);
    case HandleEvent => DecideKeepsInv(hash, s, w, c);
    case EmitTotal(_) => EmitStepKeepsInv(hash, s, w, c);
    case EmitPartial(_, _) => EmitStepKeepsInv(hash, s, w, c);
    case StoreId(_) => StoreStepKeepsInv(hash, s, w, c);
    case CacheTotal(_) => StoreStepKeepsInv(hash, s, w, c);
    case CachePartial(_, _) => StoreStepKeepsInv(hash, s, w, c);
    case DeleteMessage => SpawnDeleteKeepsInv(s, w);
    case SendToDeadLetter =>
      var t := SendTask(m, 0, Running);
      AddTaskKeepsInv(s, t);
      GotoKeepsInv(s.(tasks := s.tasks + [t]), w, AwaitSend(|s.tasks|));
    case AwaitSend(t) =>
      assert TaskOk(s, s.tasks[t]);
      if s.tasks[t].outcome == Succeeded {
        SpawnDeleteKeepsInv(s, w);
      } else if s.tasks[t].outcome == GaveUp {
        GotoKeepsInv(s, w, Done);
      }
    case AwaitDelete(t) => GotoKeepsInv(s, w, Done);
    case Done =>
  }

  lemma TaskStepKeepsInv(s: State, t: nat, attempt: Attempt)
    requires Inv(s) && t < |s.tasks|
    ensures Inv(TaskStep(s, t, attempt))
  {
    var s' := TaskStep(s, t, attempt);
    var task := s.tasks[t];
    assert TaskOk(s, task);
    assert Grows(s, s');
    GrowthKeepsParts(s, s');
    forall o | o in s'.tasks
      ensures TaskOk(s', o)
    {
      var i :| 0 <= i < |s'.tasks| && s'.tasks[i] == o;
      assert i != t ==> s.tasks[i] == o && TaskOk(s, o);
    }
  }

  lemma ApplyKeepsInv(hash: Hash, s: State, a: Action)
    requires NoCollision(hash, s) && Inv(s)
    ensures Inv(Apply(hash, s, a))
  {
    match a
    case Step(w, c) =>
      if w < |s.workers| {
        WorkerStepKeepsInv(hash, s, w, c);
      }
    case Try(t, attempt) =>
      if t < |s.tasks| {
        TaskStepKeepsInv(s, t, attempt);
      }
    case Enqueue(m) =>
      GrowthKeepsParts(s, Apply(hash, s, a));
    case Receive(batch) =>
      GrowthKeepsParts(s, Apply(hash, s, a));
    case _ =>
      GrowthKeepsParts(s, Apply(hash, s, a));
  }

  // What was ever queued or stored stays on record, so a run without collisions has none in
  // any of its parts.
  lemma ApplyRecords(hash: Hash, s: State, a: Action)
    ensures var s' := Apply(hash, s, a); s.ever <= s'.ever && s.stored <= s'.stored
  {
  }

  lemma {:induction false} RunKeepsInv(hash: Hash, actions: seq<Action>)
    requires NoCollision(hash, Run(hash, INIT, actions))
    ensures Inv(Run(hash, INIT, actions))
  {
    if actions != [] {
      var front, last := actions[..|actions| - 1], actions[|actions| - 1];
      ApplyRecords(hash, Run(hash, INIT, front), last);
      RunKeepsInv(hash, front);
      ApplyKeepsInv(hash, Run(hash, INIT, front), last);
    }
  }

  // ---------------------------------------------------------------- main results

  // Neither queued any more nor dealt with.
  predicate Lost(s: State, m: Message) {
    m in s.ever && m !in s.queue && !Resolved(s, m)
  }

  // No interleaving loses a message: whatever was queued is still queued, or its total
  // output was emitted, or it is a dead letter, or it had no payload.
  lemma NoMessageIsLost(hash: Hash, actions: seq<Action>, m: Message)
    requires NoCollision(hash, Run(hash, INIT, actions)) && m in Run(hash, INIT, actions).ever
    ensures var s := Run(hash, INIT, actions);
            m in s.queue || m.id in s.emitted || m in s.deadLetters || m.payloadEmpty
  {
    RunKeepsInv(hash, actions);
  }

  // An id is stored as processed only after its total output was emitted, and a message is a
  // dead letter only after it failed for good.
  lemma EffectsFollowCauses(hash: Hash, actions: seq<Action>)
    requires NoCollision(hash, Run(hash, INIT, actions))
    ensures var s := Run(hash, INIT, actions);
            && (forall m | m in s.ever && Raw(m.id) in s.stored :: m.id in s.emitted)
            && s.deadLetters <= s.rejected
            && (forall m | m in s.ever && CacheHit(hash, s, m.id) :: m.id in s.emitted)
  {
    RunKeepsInv(hash, actions);
    var s := Run(hash, INIT, actions);
    forall m | m in s.ever && CacheHit(hash, s, m.id)
      ensures m.id in s.emitted
    {
      HitMeansEmitted(hash, s, m);
    }
  }

  // Nothing but an attempt of a spawned deletion that takes effect removes a message from
  // the queue, and nothing but such an attempt of sending makes a dead letter.
  lemma OnlyTasksRemove(hash: Hash, s: State, a: Action, m: Message)
    ensures var s' := Apply(hash, s, a);
            (m in s.queue && m !in s'.queue) || (m !in s.deadLetters && m in s'.deadLetters) ==>
              && a.Try? && a.task < |s.tasks| && s.tasks[a.task].msg == m && s.tasks[a.task].outcome == Running
              && (a.attempt.Succeeds? || a.attempt.applied)
              && (s.tasks[a.task].DeleteTask? <==> m !in s'.queue && m in s.queue)
  {
    if a.Step? && a.worker < |s.workers| {
      WorkerStepKeepsMessages(hash, s, a.worker, a.choice);
      StepSendsNothing(hash, s, a.worker, a.choice);
    }
  }

  lemma StepSendsNothing(hash: Hash, s: State, w: nat, c: Choice)
    requires w < |s.workers|
    ensures WorkerStep(hash, s, w, c).deadLetters == s.deadLetters
  {
  }

  // Receiving starts at most ten workers, one for each message in order.
  lemma ReceiveStarts(hash: Hash, s: State, batch: seq<Message>)
    requires s.workers == [] && forall m | m in batch :: m in s.queue
    ensures var s' := Apply(hash, s, Receive(batch));
            && |s'.workers| == (if |batch| <= 10 then |batch| else 10)
            && forall i | 0 <= i < |s'.workers| :: s'.workers[i] == Worker(batch[i], CheckCache, Nothing)
  {
  }

  // ---------------------------------------------------------------- colliding identities

  // What is stored is always raw bytes, and every byte string of at least eight bytes can
  // come to be stored.
  predicate Storable(b: Bytes) {
    |b| >= 8
  }

  predicate RawOnly(s: State) {
    && (forall c | c in s.stored :: c.Raw? && Storable(c.bytes))
    && (forall w | w in s.workers :: w.msg in s.ever)
    && s.queue <= s.ever && (forall m | m in s.ever :: |m.id| > 8)
  }

  lemma WorkerStepKeepsMessages(hash: Hash, s: State, w: nat, c: Choice)
    requires w < |s.workers|
    ensures var s' := WorkerStep(hash, s, w, c);
            s'.queue == s.queue && s'.ever == s.ever && |s'.workers| <= |s.workers|
            && forall i | 0 <= i < |s'.workers| :: s'.workers[i].msg == s.workers[i].msg
  {
  }

  lemma WorkerStepKeepsRaw(hash: Hash, s: State, w: nat, c: Choice)
    requires RawOnly(s) && w < |s.workers|
    ensures RawOnly(WorkerStep(hash, s, w, c))
  {
    var s' := WorkerStep(hash, s, w, c);
    WorkerStepKeepsMessages(hash, s, w, c);
    assert s.workers[w] in s.workers;
    match s.workers[w].pc
    case StoreId(_) => assert s'.stored == s.stored + {Raw(s.workers[w].msg.id)};
    case CacheTotal(completed) => assert s'.stored == s.stored + StoredIdentities(completed);
    case CachePartial(_, completed) => assert s'.stored == s.stored + StoredIdentities(completed);
    case _ => assert s'.stored == s.stored;
  }

  lemma ApplyKeepsRaw(hash: Hash, s: State, a: Action)
    requires RawOnly(s)
    ensures RawOnly(Apply(hash, s, a))
  {
    if a.Step? && a.worker < |s.workers| {
      WorkerStepKeepsRaw(hash, s, a.worker, a.choice);
    }
  }

  lemma {:induction false} StoredIsRaw(hash: Hash, actions: seq<Action>)
    ensures RawOnly(Run(hash, INIT, actions))
  {
    if actions != [] {
      StoredIsRaw(hash, actions[..|actions| - 1]);
      ApplyKeepsRaw(hash, Run(hash, INIT, actions[..|actions| - 1]), actions[|actions| - 1]);
    }
  }

  lemma Extend(hash: Hash, actions: seq<Action>, a: Action) returns (more: seq<Action>)
    ensures more == actions + [a] && actions <= more && Run(hash, INIT, more) == Apply(hash, Run(hash, INIT, actions), a)
  {
    more := actions + [a];
    assert more[..|more| - 1] == actions;
  }

  // The state of a run in which only `m` was queued and received, and nothing was deleted.
  predicate Scripted(s: State, m: Message) {
    && s.ever == {m} && s.queue == {m} && s.tasks == []
    && s.deadLetters == {} && s.emitted <= {m.id}
  }

  // The way of a worker whose calls all succeed, up to the storing of its results.
  function NextPc(pc: Pc, completed: seq<(Identity, EventStatus)>): Pc {
    match pc
    case CheckCache => Retrieve
    case Retrieve => HandleEvent
    case HandleEvent => EmitTotal(completed)
    case EmitTotal(done) => StoreId(done)
    case StoreId(done) => CacheTotal(done)
    case _ => DeleteMessage
  }

  predicate At(s: State, m: Message, pc: Pc) {
    |s.workers| == 1 && s.workers[0].msg == m && s.workers[0].pc == pc
  }

  // What one worker alone leaves as it was.
  predicate Alone(s: State, s': State, m: Message) {
    && s'.ever == s.ever && s'.queue == s.queue && s'.tasks == s.tasks && s'.deadLetters == s.deadLetters
    && s.emitted <= s'.emitted <= s.emitted + {m.id} && s.stored <= s'.stored
  }

  lemma Advance(hash: Hash, actions: seq<Action>, m: Message, pc: Pc, c: Choice) returns (more: seq<Action>)
    requires !c.cacheAnswers && !c.emitFails && c.payload == Events && c.handled == Total
    requires pc.CheckCache? || pc.Retrieve? || pc.HandleEvent? || pc.EmitTotal? || pc.StoreId? || pc.CacheTotal?
    requires At(Run(hash, INIT, actions), m, pc)
    ensures actions <= more
    ensures var s, s' := Run(hash, INIT, actions), Run(hash, INIT, more);
            && At(s', m, NextPc(pc, c.completed)) && Alone(s, s', m)
            && (pc.EmitTotal? ==> m.id in s'.emitted)
            && (pc.StoreId? ==> Raw(m.id) in s'.stored)
            && (pc.CacheTotal? ==> StoredIdentities(pc.completed) <= s'.stored)
  {
    more := Extend(hash, actions, Step(0, c));
  }

  lemma Begin(hash: Hash, m: Message) returns (actions: seq<Action>)
    requires |m.id| > 8
    ensures At(Run(hash, INIT, actions), m, CheckCache) && Scripted(Run(hash, INIT, actions), m)
  {
    actions := Extend(hash, [], Enqueue(m));
    assert Run(hash, INIT, actions) == INIT.(ever := {m}, queue := {m});
    actions := Extend(hash, actions, Receive([m]));
    assert FirstTen([m]) == [m];
  }

  // The way of one worker from the cache lookup to the end of storing.
  lemma Process(hash: Hash, actions: seq<Action>, m: Message, completed: seq<(Identity, EventStatus)>)
    returns (more: seq<Action>)
    requires At(Run(hash, INIT, actions), m, CheckCache)
    ensures actions <= more
    ensures var s, s' := Run(hash, INIT, actions), Run(hash, INIT, more);
            && At(s', m, DeleteMessage) && Alone(s, s', m)
            && m.id in s'.emitted && Raw(m.id) in s'.stored && StoredIdentities(completed) <= s'.stored
  {
    var c := Choice(false, Events, Total, completed, false, false);
    more := Advance(hash, actions, m, CheckCache, c);
    more := Advance(hash, more, m, Retrieve, c);
    more := Advance(hash, more, m, HandleEvent, c);
    more := Advance(hash, more, m, EmitTotal(completed), c);
    more := Advance(hash, more, m, StoreId(completed), c);
    more := Advance(hash, more, m, CacheTotal(completed), c);
  }

  // No run gets stuck: whatever has happened, a message that is still queued can be
  // received, emitted, stored and deleted in the next round.
  lemma QueuedCanBeProcessed(hash: Hash, actions: seq<Action>, m: Message) returns (more: seq<Action>)
    requires m in Run(hash, INIT, actions).queue
    ensures actions <= more
    ensures var s, s' := Run(hash, INIT, actions), Run(hash, INIT, more);
            && m.id in s'.emitted && Raw(m.id) in s'.stored && s'.queue == s.queue - {m}
  {
    more := Extend(hash, actions, Abort);
    more := Extend(hash, more, Receive([m]));
    assert At(Run(hash, INIT, more), m, CheckCache);
    more := Process(hash, more, m, []);
    var n := |Run(hash, INIT, more).tasks|;
    more := Extend(hash, more, Step(0, Choice(false, Events, Total, [], false, false)));
    assert Run(hash, INIT, more).tasks[n] == DeleteTask(m, 0, Running);
    more := Extend(hash, more, Try(n, Succeeds));
  }

  // Storing one byte string: as a message id, or as the completed identity of a message,
  // whose id can be made different from any other.
  lemma StoreAny(hash: Hash, b: Bytes, other: Bytes) returns (actions: seq<Action>, m: Message)
    requires Storable(b)
    ensures !m.payloadEmpty && (if |b| == 8 then m.id != other else m.id == b)
    ensures var s := Run(hash, INIT, actions); Raw(b) in s.stored && Scripted(s, m)
  {
    var completed: seq<(Identity, EventStatus)> := if |b| == 8 then [(b, Success)] else [];
    assert (b + "0")[|b|] == '0' && (b + "1")[|b|] == '1';
    m := Message(if |b| > 8 then b else if b + "0" == other then b + "1" else b + "0", "", false);
    actions := Begin(hash, m);
    actions := Process(hash, actions, m, completed);
    if |b| == 8 {
      assert Kept(completed) == [b];
      assert Raw(b) in StoredIdentities(completed);
    }
  }

  // After a timeout, a message is received: again, or for the first time.
  lemma ThenReceive(hash: Hash, actions: seq<Action>, first: Message, m: Message) returns (more: seq<Action>)
    requires Scripted(Run(hash, INIT, actions), first)
    requires |m.id| > 8 && (m == first || m.id != first.id)
    ensures var s, s' := Run(hash, INIT, actions), Run(hash, INIT, more);
            && s'.workers == [Worker(m, CheckCache, Nothing)] && s'.ever == s'.queue == {first, m} && s'.tasks == []
            && s'.stored == s.stored && s'.emitted == s.emitted && s'.deadLetters == {}
  {
    more := Extend(hash, actions, Abort);
    if m != first {
      more := Extend(hash, more, Enqueue(m));
    }
    more := Extend(hash, more, Receive([m]));
  }

  // A worker stands before the branch for messages that were already processed.
  predicate FindsDuplicate(hash: Hash, s: State, w: nat) {
    w < |s.workers| && s.workers[w].pc == CheckCache && CacheHit(hash, s, s.workers[w].msg.id)
  }

  predicate Collide(hash: Hash, id: Bytes, b: Bytes) {
    |id| > 8 && Storable(b) && hash(Text(id)) == hash(Raw(b))
  }

  // A collision can be made to meet: `b` is stored, then the message `id` is received.
  lemma CollisionMeets(hash: Hash, id: Bytes, b: Bytes) returns (actions: seq<Action>, first: Message, m: Message)
    requires Collide(hash, id, b)
    ensures m.id == id && !m.payloadEmpty && (b != id ==> first.id != id)
    ensures var s := Run(hash, INIT, actions);
            && FindsDuplicate(hash, s, 0) && s.workers == [Worker(m, CheckCache, Nothing)]
            && m in s.ever && s.tasks == [] && s.emitted <= {first.id} && s.deadLetters == {}
  {
    actions, first := StoreAny(hash, b, id);
    m := if first.id == id then first else Message(id, "", false);
    actions := ThenReceive(hash, actions, first, m);
  }

  // The lookup key and the stored key differ in kind, so a worker can come to the "already
  // processed" branch exactly when some message id, as text, happens to collide with some
  // storable bytes.
  lemma DeduplicationNeedsCollision(hash: Hash)
    ensures (exists actions: seq<Action>, w: nat :: FindsDuplicate(hash, Run(hash, INIT, actions), w))
            <==> exists id: Bytes, b: Bytes :: Collide(hash, id, b)
  {
    if actions: seq<Action>, w: nat :| FindsDuplicate(hash, Run(hash, INIT, actions), w) {
      var s := Run(hash, INIT, actions);
      StoredIsRaw(hash, actions);
      var c :| c in s.stored && hash(c) == hash(Text(s.workers[w].msg.id));
      assert s.workers[w] in s.workers;
      assert Collide(hash, s.workers[w].msg.id, c.bytes);
    }
    if id: Bytes, b: Bytes :| Collide(hash, id, b) {
      var actions, _, _ := CollisionMeets(hash, id, b);
      assert FindsDuplicate(hash, Run(hash, INIT, actions), 0);
    }
  }

  // The deletion of a message that was taken for a duplicate.
  lemma DuplicateIsDeleted(hash: Hash, actions: seq<Action>, m: Message) returns (more: seq<Action>)
    requires var s := Run(hash, INIT, actions);
             FindsDuplicate(hash, s, 0) && s.workers == [Worker(m, CheckCache, Nothing)] && s.tasks == []
    ensures var s, s' := Run(hash, INIT, actions), Run(hash, INIT, more);
            s'.queue == s.queue - {m} && s'.ever == s.ever && s'.emitted == s.emitted && s'.deadLetters == s.deadLetters
  {
    more := Extend(hash, actions, Step(0, Choice(true, Events, Total, [], false, false)));
    assert Run(hash, INIT, more).tasks == [DeleteTask(m, 0, Running)];
    more := Extend(hash, more, Try(0, Succeeds));
  }

  // Some run loses a message exactly when some message id, as text, collides with bytes
  // other than its own that can come to be stored.
  lemma LossNeedsCollision(hash: Hash)
    ensures (exists actions: seq<Action>, m: Message :: Lost(Run(hash, INIT, actions), m))
            <==> exists id: Bytes, b: Bytes :: Collide(hash, id, b) && b != id
  {
    if actions: seq<Action>, m: Message :| Lost(Run(hash, INIT, actions), m) {
      var s := Run(hash, INIT, actions);
      StoredIsRaw(hash, actions);
      if NoCollision(hash, s) {
        NoMessageIsLost(hash, actions, m);
        assert false;
      } else {
        var o, c :| o in s.ever && c in s.stored && hash(c) == hash(Text(o.id)) && c != Raw(o.id);
        assert Collide(hash, o.id, c.bytes) && c.bytes != o.id;
      }
    }
    if id: Bytes, b: Bytes :| Collide(hash, id, b) && b != id {
      var actions, first, m := CollisionMeets(hash, id, b);
      actions := DuplicateIsDeleted(hash, actions, m);
      assert Lost(Run(hash, INIT, actions), m);
    }
  }

  // ---------------------------------------------------------------- what becomes of a message

  // The message is not in the queue any more, unless its deletion was given up.
  predicate DeleteOver(s: State, m: Message) {
    m !in s.queue || exists t | t in s.tasks :: t.DeleteTask? && t.msg == m && t.outcome == GaveUp
  }

  predicate SendFailed(s: State, m: Message) {
    exists t | t in s.tasks :: t.SendTask? && t.msg == m && t.outcome == GaveUp
  }

  predicate FailedForGood(seen: Seen) {
    match seen
    case Unretrieved(persistent) => persistent
    case Result(PartialError(persistent), _) => persistent
    case Result(Error(persistent), _) => persistent
    case _ => false
  }

  // Every identity that the event handler finished is in the cache.
  predicate IdentitiesCached(s: State, completed: seq<(Identity, EventStatus)>) {
    forall i | 0 <= i < |completed| && completed[i].1 != Partial :: Raw(completed[i].0) in s.stored
  }

  // A loop that deletes the message was spawned; once it is over, so is the deletion.
  predicate DeleteSpawned(s: State, m: Message) {
    exists t | t in s.tasks :: t.DeleteTask? && t.msg == m && (t.outcome != Running ==> DeleteOver(s, m))
  }

  // What a worker brings about before it deletes its message.
  predicate Achieved(s: State, m: Message, seen: Seen) {
    match seen
    case Duplicate => true
    case NoEvents => m.payloadEmpty
    case Result(Total, completed) => m.id in s.emitted && Raw(m.id) in s.stored && IdentitiesCached(s, completed)
    case _ => FailedForGood(seen) && m in s.deadLetters
  }

  predicate PartialDone(s: State, m: Message, seen: Seen) {
    seen.Result? && seen.handled.PartialError? ==> m.id in s.partials && IdentitiesCached(s, seen.completed)
  }

  // What a finished worker has brought about.
  predicate Finishes(s: State, m: Message, seen: Seen) {
    && PartialDone(s, m, seen)
    && match seen
       case Nothing => false
       case NoEvents => m.payloadEmpty && DeleteSpawned(s, m)
       case Duplicate => DeleteOver(s, m)
       case Result(Total, _) => Achieved(s, m, seen) && DeleteOver(s, m)
       case _ => FailedForGood(seen) ==> (Achieved(s, m, seen) && DeleteOver(s, m)) || SendFailed(s, m)
  }

  predicate FateOk(s: State, w: Worker) {
    && w.msg in s.ever
    && match w.pc
       case CheckCache => w.seen == Nothing
       case Retrieve => w.seen == Nothing
       case HandleEvent => w.seen == Nothing
       case EmitTotal(completed) => w.seen == Result(Total, completed)
       case StoreId(completed) => w.seen == Result(Total, completed) && w.msg.id in s.emitted
       case CacheTotal(completed) => w.seen == Result(Total, completed) && w.msg.id in s.emitted && Raw(w.msg.id) in s.stored
       case DeleteMessage => w.seen.Result? && w.seen.handled == Total && Achieved(s, w.msg, w.seen)
       case EmitPartial(persistent, completed) => w.seen == Result(PartialError(persistent), completed)
       case CachePartial(persistent, completed) => w.seen == Result(PartialError(persistent), completed) && w.msg.id in s.partials
       case SendToDeadLetter => PartialDone(s, w.msg, w.seen) && FailedForGood(w.seen)
       case AwaitSend(t) =>
         && PartialDone(s, w.msg, w.seen) && FailedForGood(w.seen)
         && t < |s.tasks| && s.tasks[t].SendTask? && s.tasks[t].msg == w.msg
       case AwaitDelete(t) =>
         && w.seen != Nothing && w.seen != NoEvents && PartialDone(s, w.msg, w.seen) && Achieved(s, w.msg, w.seen)
         && t < |s.tasks| && s.tasks[t].DeleteTask? && s.tasks[t].msg == w.msg
       case Done => Finishes(s, w.msg, w.seen)
  }

  predicate TaskFateOk(s: State, t: Task) {
    && t.msg in s.ever
    && (t.outcome == Succeeded ==> if t.SendTask? then t.msg in s.deadLetters else t.msg !in s.queue)
  }

  predicate Fates(s: State) {
    && s.queue <= s.ever
    && (forall w | w in s.workers :: FateOk(s, w))
    && (forall t | t in s.tasks :: TaskFateOk(s, t))
  }

  // Effects stay, and so do the outcomes of tasks.
  predicate Lasts(s: State, s': State) {
    && s.ever <= s'.ever && s.emitted <= s'.emitted && s.partials <= s'.partials
    && s.stored <= s'.stored && s.deadLetters <= s'.deadLetters
    && (forall m | m in s.ever && m !in s.queue :: m !in s'.queue)
    && |s.tasks| <= |s'.tasks|
    && forall i | 0 <= i < |s.tasks| ::
         && s'.tasks[i].msg == s.tasks[i].msg && (s'.tasks[i].SendTask? <==> s.tasks[i].SendTask?)
         && (s.tasks[i].outcome != Running ==> s'.tasks[i] == s.tasks[i])
  }

  // The tasks of the later state, too, tell the truth.
  predicate TasksOk(s: State) {
    forall t | t in s.tasks :: TaskFateOk(s, t)
  }

  lemma LastingFate(s: State, s': State, w: Worker)
    requires Lasts(s, s') && TasksOk(s') && FateOk(s, w)
    ensures FateOk(s', w)
  {
    if w.pc == Done {
      LastingFinish(s, s', w.msg, w.seen);
    }
  }

  lemma LastingFinish(s: State, s': State, m: Message, seen: Seen)
    requires Lasts(s, s') && TasksOk(s') && m in s.ever && Finishes(s, m, seen)
    ensures Finishes(s', m, seen)
  {
    if SendFailed(s, m) {
      LastingSend(s, s', m);
    }
    if DeleteOver(s, m) {
      LastingDelete(s, s', m);
    }
    if DeleteSpawned(s, m) {
      LastingSpawn(s, s', m);
    }
  }

  // A spawned deletion stays in the list of tasks, and its end is the end of the deletion.
  lemma LastingSpawn(s: State, s': State, m: Message)
    requires Lasts(s, s') && TasksOk(s') && DeleteSpawned(s, m)
    ensures DeleteSpawned(s', m)
  {
    var t :| t in s.tasks && t.DeleteTask? && t.msg == m;
    var i :| 0 <= i < |s.tasks| && s.tasks[i] == t;
    assert s'.tasks[i] in s'.tasks && TaskFateOk(s', s'.tasks[i]);
    assert s'.tasks[i].DeleteTask? && s'.tasks[i].msg == m;
  }

  lemma LastingSend(s: State, s': State, m: Message)
    requires Lasts(s, s') && SendFailed(s, m)
    ensures SendFailed(s', m)
  {
    var t :| t in s.tasks && t.SendTask? && t.msg == m && t.outcome == GaveUp;
    var i :| 0 <= i < |s.tasks| && s.tasks[i] == t;
    assert s'.tasks[i] == t;
  }

  lemma LastingDelete(s: State, s': State, m: Message)
    requires Lasts(s, s') && DeleteOver(s, m) && m in s.ever
    ensures DeleteOver(s', m)
  {
    if m in s.queue {
      var t :| t in s.tasks && t.DeleteTask? && t.msg == m && t.outcome == GaveUp;
      var i :| 0 <= i < |s.tasks| && s.tasks[i] == t;
      assert s'.tasks[i] == t;
    }
  }

  // One worker and perhaps one new task change.
  lemma StepKeepsFates(s: State, s': State, w: nat, to: Worker)
    requires Fates(s) && Lasts(s, s') && w < |s.workers| && s'.workers == s.workers[w := to] && FateOk(s', to)
    requires s'.queue == s.queue && s'.ever == s.ever
    requires forall t | t in s'.tasks && t !in s.tasks :: TaskFateOk(s', t)
    ensures Fates(s')
  {
    forall o | o in s'.workers
      ensures FateOk(s', o)
    {
      var i :| 0 <= i < |s'.workers| && s'.workers[i] == o;
      if i != w {
        assert s.workers[i] == o && FateOk(s, o);
        LastingFate(s, s', o);
      }
    }
    forall t | t in s'.tasks
      ensures TaskFateOk(s', t)
    {
      if t in s.tasks {
        assert TaskFateOk(s, t);
      }
    }
  }
  lemma WorkerStepKeepsFates(hash: Hash, s: State, w: nat, c: Choice)
    requires Fates(s) && w < |s.workers|
    ensures Fates(WorkerStep(hash, s, w, c))
  {
    var s' := WorkerStep(hash, s, w, c);
    assert FateOk(s, s.workers[w]);
    if s'.workers == [] {
      assert forall t | t in s.tasks :: TaskFateOk(s, t);
    } else if s' != s {
      NextFate(hash, s, w, c);
      StepOnlyAdds(hash, s, w, c);
      StepChangesOne(hash, s, w, c);
      AddingLasts(s, s');
      StepKeepsFates(s, s', w, s'.workers[w]);
    }
  }

  // The queue and the old tasks are left alone.
  predicate OnlyAdds(s: State, s': State) {
    && s'.queue == s.queue && s'.ever == s.ever && s.tasks <= s'.tasks
    && s.emitted <= s'.emitted && s.partials <= s'.partials && s.stored <= s'.stored && s.deadLetters <= s'.deadLetters
  }

  lemma AddingLasts(s: State, s': State)
    requires OnlyAdds(s, s')
    ensures Lasts(s, s')
  {
  }

  lemma StepOnlyAdds(hash: Hash, s: State, w: nat, c: Choice)
    requires w < |s.workers|
    ensures OnlyAdds(s, WorkerStep(hash, s, w, c))
  {
  }

  lemma StepChangesOne(hash: Hash, s: State, w: nat, c: Choice)
    requires w < |s.workers| && WorkerStep(hash, s, w, c).workers != []
    ensures var s' := WorkerStep(hash, s, w, c);
            && |s'.workers| == |s.workers| && s'.workers == s.workers[w := s'.workers[w]]
            && forall t | t in s'.tasks && t !in s.tasks :: t.msg == s.workers[w].msg && t.outcome == Running
  {
  }

  lemma NextFate(hash: Hash, s: State, w: nat, c: Choice)
    requires Fates(s) && w < |s.workers|
    requires var s' := WorkerStep(hash, s, w, c); s' != s && s'.workers != []
    ensures var s' := WorkerStep(hash, s, w, c); |s'.workers| == |s.workers| && FateOk(s', s'.workers[w])
  {
    var pc := s.workers[w].pc;
    if pc.CheckCache? || pc.Retrieve? || pc.HandleEvent? {
      DecidedStep(hash, s, w, c);
    } else if pc.AwaitSend? || pc.AwaitDelete? {
      AwaitedStep(hash, s, w, c);
    } else {
      ActedStep(hash, s, w, c);
    }
  }

  lemma DecidedStep(hash: Hash, s: State, w: nat, c: Choice)
    requires Fates(s) && w < |s.workers|
    requires s.workers[w].pc.CheckCache? || s.workers[w].pc.Retrieve? || s.workers[w].pc.HandleEvent?
    requires WorkerStep(hash, s, w, c) != s
    ensures var s' := WorkerStep(hash, s, w, c); |s'.workers| == |s.workers| && FateOk(s', s'.workers[w])
  {
    var m, s' := s.workers[w].msg, WorkerStep(hash, s, w, c);
    assert FateOk(s, s.workers[w]);
    if s.workers[w].pc.Retrieve? && c.payload.NoPayload? {
      assert s'.tasks[|s.tasks|] == DeleteTask(m, 0, Running);
      assert DeleteSpawned(s', m);
    }
  }

  // Caching the identities of a result, without the partial ones.
  lemma CachesIdentities(s: State, completed: seq<(Identity, EventStatus)>)
    ensures IdentitiesCached(s.(stored := s.stored + StoredIdentities(completed)), completed)
  {
    forall i | 0 <= i < |completed| && completed[i].1 != Partial
      ensures Raw(completed[i].0) in StoredIdentities(completed)
    {
      KeptMembers(completed, completed[i].0);
    }
  }

  lemma ActedStep(hash: Hash, s: State, w: nat, c: Choice)
    requires Fates(s) && w < |s.workers|
    requires var pc := s.workers[w].pc;
             !pc.CheckCache? && !pc.Retrieve? && !pc.HandleEvent? && !pc.AwaitSend? && !pc.AwaitDelete?
    requires var s' := WorkerStep(hash, s, w, c); s' != s && s'.workers != []
    ensures var s' := WorkerStep(hash, s, w, c); |s'.workers| == |s.workers| && FateOk(s', s'.workers[w])
  {
    assert FateOk(s, s.workers[w]);
    match s.workers[w].pc
    case CacheTotal(completed) => CachesIdentities(s, completed);
    case CachePartial(_, completed) => CachesIdentities(s, completed);
    case _ =>
  }

  lemma AwaitedStep(hash: Hash, s: State, w: nat, c: Choice)
    requires Fates(s) && w < |s.workers|
    requires s.workers[w].pc.AwaitSend? || s.workers[w].pc.AwaitDelete?
    requires WorkerStep(hash, s, w, c) != s
    ensures var s' := WorkerStep(hash, s, w, c); |s'.workers| == |s.workers| && FateOk(s', s'.workers[w])
  {
    var m, s' := s.workers[w].msg, WorkerStep(hash, s, w, c);
    assert FateOk(s, s.workers[w]);
    var t := s.workers[w].pc.task;
    assert s.tasks[t] in s.tasks && TaskFateOk(s, s.tasks[t]);
    if s.tasks[t].outcome == GaveUp {
      assert s.tasks[t].SendTask? ==> SendFailed(s', m);
      assert s.tasks[t].DeleteTask? ==> DeleteOver(s', m);
    }
  }

  lemma ApplyKeepsFates(hash: Hash, s: State, a: Action)
    requires Fates(s)
    ensures Fates(Apply(hash, s, a))
  {
    var s' := Apply(hash, s, a);
    match a
    case Step(w, c) =>
      if w < |s.workers| {
        WorkerStepKeepsFates(hash, s, w, c);
      }
    case Try(t, attempt) =>
      if t < |s.tasks| {
        TaskStepKeepsFates(s, t, attempt);
      }
    case _ =>
      assert forall t | t in s.tasks :: TaskFateOk(s, t);
      forall w | w in s.workers
        ensures FateOk(s', w)
      {
        LastingFate(s, s', w);
      }
  }

  lemma TaskStepKeepsFates(s: State, t: nat, attempt: Attempt)
    requires Fates(s) && t < |s.tasks|
    ensures Fates(TaskStep(s, t, attempt))
  {
    var s' := TaskStep(s, t, attempt);
    forall o | o in s'.tasks
      ensures TaskFateOk(s', o)
    {
      var i :| 0 <= i < |s'.tasks| && s'.tasks[i] == o;
      assert TaskFateOk(s, s.tasks[i]);
    }
    forall w | w in s'.workers
      ensures FateOk(s', w)
    {
      LastingFate(s, s', w);
    }
  }

  lemma {:induction false} RunKeepsFates(hash: Hash, actions: seq<Action>)
    ensures Fates(Run(hash, INIT, actions))
  {
    if actions != [] {
      RunKeepsFates(hash, actions[..|actions| - 1]);
      ApplyKeepsFates(hash, Run(hash, INIT, actions[..|actions| - 1]), actions[|actions| - 1]);
    }
  }

  // However the other workers, the spawned tasks and redeliveries interleave, and whatever
  // attempts fail, a worker that has finished leaves its message as its verdict says: after
  // a total result the output is emitted, the id stored and the message deleted; after a
  // failure for good it is a dead letter and deleted, unless sending was given up; a
  // partial output is emitted in any case.
  lemma FinishedWorker(hash: Hash, actions: seq<Action>, w: nat)
    requires w < |Run(hash, INIT, actions).workers| && Run(hash, INIT, actions).workers[w].pc == Done
    ensures var s := Run(hash, INIT, actions); Finishes(s, s.workers[w].msg, s.workers[w].seen)
  {
    RunKeepsFates(hash, actions);
    var s := Run(hash, INIT, actions);
    assert FateOk(s, s.workers[w]);
  }

  lemma ApplyLasts(hash: Hash, s: State, a: Action)
    requires Fates(s)
    ensures Lasts(s, Apply(hash, s, a))
  {
    if a.Step? && a.worker < |s.workers| {
      StepOnlyAdds(hash, s, a.worker, a.choice);
      AddingLasts(s, Apply(hash, s, a));
    }
  }

  lemma FinishLasts(hash: Hash, actions: seq<Action>, a: Action, m: Message, seen: Seen)
    requires m in Run(hash, INIT, actions).ever && Finishes(Run(hash, INIT, actions), m, seen)
    ensures var s' := Apply(hash, Run(hash, INIT, actions), a); m in s'.ever && Finishes(s', m, seen)
  {
    var s := Run(hash, INIT, actions);
    RunKeepsFates(hash, actions);
    ApplyLasts(hash, s, a);
    ApplyKeepsFates(hash, s, a);
    LastingFinish(s, Apply(hash, s, a), m, seen);
  }

  // And so it stays in every continuation, after the batch is joined or dropped, too.
  lemma {:induction false} FinishedForever(hash: Hash, actions: seq<Action>, w: nat, more: seq<Action>)
    requires w < |Run(hash, INIT, actions).workers| && Run(hash, INIT, actions).workers[w].pc == Done
    ensures var worker := Run(hash, INIT, actions).workers[w];
            && worker.msg in Run(hash, INIT, actions + more).ever
            && Finishes(Run(hash, INIT, actions + more), worker.msg, worker.seen)
    decreases |more|
  {
    var worker := Run(hash, INIT, actions).workers[w];
    if more == [] {
      FinishedWorker(hash, actions, w);
      RunKeepsFates(hash, actions);
      assert actions + more == actions && FateOk(Run(hash, INIT, actions), worker);
    } else {
      var n := |more| - 1;
      FinishedForever(hash, actions, w, more[..n]);
      FinishLasts(hash, actions + more[..n], more[n], worker.msg, worker.seen);
      RunSnoc(hash, actions, more);
    }
  }

  lemma RunSnoc(hash: Hash, actions: seq<Action>, more: seq<Action>)
    requires more != []
    ensures Run(hash, INIT, actions + more) ==
            Apply(hash, Run(hash, INIT, actions + more[..|more| - 1]), more[|more| - 1])
  {
    assert (actions + more)[..|actions + more| - 1] == actions + more[..|more| - 1];
  }

  // How far a worker is from its end.
  function StepsLeft(pc: Pc): nat {
    match pc
    case CheckCache => 12
    case Retrieve => 11
    case HandleEvent => 10
    case EmitTotal(_) => 9
    case EmitPartial(_, _) => 9
    case StoreId(_) => 8
    case CacheTotal(_) => 7
    case DeleteMessage => 6
    case CachePartial(_, _) => 5
    case SendToDeadLetter => 4
    case AwaitSend(_) => 3
    case AwaitDelete(_) => 2
    case Done => 0
  }

  predicate Waits(s: State, pc: Pc) {
    (pc.AwaitSend? || pc.AwaitDelete?) && pc.task < |s.tasks| && s.tasks[pc.task].outcome == Running
  }

  // A worker gets nearer to its end with every step, unless it waits for a task that still
  // runs, or panics.
  lemma WorkersEnd(hash: Hash, s: State, w: nat, c: Choice)
    requires Fates(s) && w < |s.workers| && s.workers[w].pc != Done && !Waits(s, s.workers[w].pc)
    requires c.payload.NoPayload? ==> s.workers[w].msg.payloadEmpty
    ensures var s' := WorkerStep(hash, s, w, c);
            s'.workers == [] || (w < |s'.workers| && StepsLeft(s'.workers[w].pc) < StepsLeft(s.workers[w].pc))
  {
    assert FateOk(s, s.workers[w]);
  }

  // ---------------------------------------------------------------- retry loops

  // The spawned loop as one fold of attempts.
  function Retried(task: Task, attempts: seq<Attempt>): Task
    decreases |attempts|
  {
    if attempts == [] then task else Retried(Attempted(task, attempts[0]), attempts[1..])
  }

  lemma {:induction false} RetriedSnoc(task: Task, attempts: seq<Attempt>, a: Attempt)
    ensures Retried(task, attempts + [a]) == Attempted(Retried(task, attempts), a)
    decreases |attempts|
  {
    if attempts != [] {
      assert (attempts + [a])[1..] == attempts[1..] + [a];
      RetriedSnoc(Attempted(task, attempts[0]), attempts[1..], a);
    } else {
      assert [a][1..] == [];
    }
  }

  // And every task ends after so many attempts.
  lemma {:induction false} TasksEnd(task: Task, attempts: seq<Attempt>)
    requires task.tries < TRIES && task.tries + |attempts| >= TRIES
    ensures Retried(task, attempts).outcome != Running
    decreases |attempts|
  {
    var next := Attempted(task, attempts[0]);
    if next.outcome == Running {
      TasksEnd(next, attempts[1..]);
    } else {
      EndedStays(next, attempts[1..]);
    }
  }

  lemma {:induction false} EndedStays(task: Task, attempts: seq<Attempt>)
    requires task.outcome != Running
    ensures Retried(task, attempts) == task
    decreases |attempts|
  {
    if attempts != [] {
      EndedStays(task, attempts[1..]);
    }
  }

  // The loop of send_message: its result, and what its spawned loop becomes.
  method SendMessage(msg: Message, answers: seq<Attempt>) returns (sent: bool, calls: nat)
    requires |answers| == TRIES
    ensures 1 <= calls <= TRIES
    ensures forall j | 0 <= j < calls - 1 :: answers[j].Fails? && !answers[j].persistent
    ensures Retried(SendTask(msg, 0, Running), answers[..calls]).outcome == if sent then Succeeded else GaveUp
    ensures sent <==> exists i :: 0 <= i < TRIES && answers[i].Succeeds?
                                  && forall j | 0 <= j < i :: answers[j].Fails? && !answers[j].persistent
  {
    calls := 0;
    while calls < TRIES
      invariant calls <= TRIES
      invariant calls < TRIES ==> Retried(SendTask(msg, 0, Running), answers[..calls]) == SendTask(msg, calls, Running)
      invariant calls == TRIES ==> Retried(SendTask(msg, 0, Running), answers[..calls]).outcome == GaveUp
      invariant forall j | 0 <= j < calls :: answers[j].Fails? && !answers[j].persistent
    {
      var answer := answers[calls];
      TakeNext(answers, calls);
      RetriedSnoc(SendTask(msg, 0, Running), answers[..calls], answer);
      calls := calls + 1;
      if answer.Succeeds? {
        return true, calls;
      }
      if answer.persistent {
        return false, calls;
      }
    }
    sent := false;
  }

  // cache_completed: drain the identities, keep those that are finished.
  method CacheCompleted(completed: seq<(Identity, EventStatus)>) returns (toCache: seq<Identity>)
    ensures toCache == Kept(completed)
    ensures forall b: Identity :: b in toCache <==> IsKept(completed, b)
  {
    toCache := [];
    var rest := completed;
    while rest != []
      invariant toCache + Kept(rest) == Kept(completed)
      decreases |rest|
    {
      var (identity, status) := rest[0];
      if status != Partial {
        toCache := toCache + [identity];
      }
      rest := rest[1..];
    }
    forall b: Identity
      ensures b in toCache <==> IsKept(completed, b)
    {
      KeptMembers(completed, b);
    }
  }

  ghost predicate IsKept(completed: seq<(Identity, EventStatus)>, b: Identity) {
    exists i :: 0 <= i < |completed| && completed[i].0 == b && completed[i].1 != Partial
  }

  lemma {:induction false} KeptMembers(completed: seq<(Identity, EventStatus)>, b: Identity)
    ensures b in Kept(completed) <==> IsKept(completed, b)
    decreases |completed|
  {
    if completed != [] {
      KeptMembers(completed[1..], b);
      assert IsKept(completed, b) <==> (completed[0].0 == b && completed[0].1 != Partial) || IsKept(completed[1..], b) by {
        assert forall i | 0 <= i < |completed| - 1 :: completed[1..][i] == completed[i + 1];
      }
    }
  }
}
