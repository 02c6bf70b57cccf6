/** One streaming task as a transition system: the manager's critical sections, the
    readTaskOutput loop, the three-step flush, the retry loop that snapshots and re-adds,
    crash with restore, and the scale-down merge. One step is one critical section or one
    durable append. */
module TaskRuns {
  import opened Wal
  import opened ExactlyOnce

  datatype Flush = Idle | Snapshotted(buffer: seq<Record>, ids: seq<string>) | Appended(ids: seq<string>)

  datatype Driver = Reading | Emitting(origin: string, batch: seq<Tuple>, next: nat, forwarded: bool)

  datatype Target = NoTarget | To(taskId: string, address: string)

  datatype Task = Task(
    name: string,
    mgr: Manager,
    durable: seq<Record>,
    flush: Flush,
    retrying: map<string, SentTuple>,
    driver: Driver,
    todo: set<string>,                 // written to stdin, output line not read yet
    stdin: seq<string>,                // IDs written to stdin by this incarnation
    outputs: map<string, seq<Tuple>>,  // outputs of the latest line read for each ID
    acked: set<string>)                // IDs the flush loop has ACKed upstream
  {
    function Inflight(): seq<Record> {
      if flush.Snapshotted? then flush.buffer else []
    }

    /** Everything logged: durable, being appended, still buffered. */
    function Log(): seq<Record> {
      durable + Inflight() + mgr.writeBuffer
    }
  }

  function Init(name: string, isFinalStage: bool): Task {
    Task(name, Fresh(false, isFinalStage), [], Idle, map[], Reading, {}, [], map[], {})
  }

  datatype Step =
    | Receive(tuple: Tuple, stdinOk: bool)
    | ReadLine(origin: string, batch: seq<Tuple>)
    | Forward(target: Target, now: int)
    | CountOutput
    | AckArrives(id: string)
    | RetrySnapshot(now: int, interval: int)
    | RetryRedirect(id: string, taskId: string)
    | RetrySend(id: string, address: string, now: int)
    | FlushSnapshot
    | FlushAppend
    | FlushAck
    | Crash(kept: nat)
    | Merge(log: seq<Record>, logOutputs: map<string, seq<Tuple>>)

  /** Every REC carries a processed tuple, as all callers of logRecord write it. */
  ghost predicate WellFormedLog(log: seq<Record>) {
    forall r :: r in log && r.REC? ==> r.received.processed
  }

  ghost predicate Enabled(s: Task, step: Step) {
    match step
    case Receive(_, _) => true
    case ReadLine(origin, _) => s.driver.Reading? && origin in s.todo
    case Forward(_, _) => s.driver.Emitting? && !s.driver.forwarded && s.driver.next < |s.driver.batch|
    case CountOutput => s.driver.Emitting? && s.driver.forwarded
    case AckArrives(_) => true
    case RetrySnapshot(_, _) => s.retrying == map[]
    case RetryRedirect(id, _) => id in s.retrying
    case RetrySend(id, _, _) => id in s.retrying
    case FlushSnapshot => s.flush.Idle? && (s.mgr.writeBuffer != [] || s.mgr.pendingAcks != [])
    case FlushAppend => s.flush.Snapshotted?
    case FlushAck => s.flush.Appended?
    case Crash(kept) => |s.durable| <= kept <= |s.durable + s.Inflight()|
    case Merge(log, _) =>
      && WellFormedLog(log)
      && RecIds(log) !! s.mgr.received.Keys
      && SentIds(log) + AckIds(log) !! SentIds(s.Log()) + AckIds(s.Log())
  }

  /** The IDs one FlushAck sends an ACK for: those still known, with a sender on record. */
  function Ackable(s: Task): set<string>
    requires s.flush.Appended?
  {
    set id | id in s.flush.ids && id in s.mgr.received && s.mgr.received[id].senderId != ""
  }

  ghost function Next(s: Task, step: Step): Task
    requires Enabled(s, step)
  {
    match step
    case Receive(t, stdinOk) =>
      var (m, added) := s.mgr.AddReceived(t);
      if added && stdinOk then s.(mgr := m, todo := s.todo + {t.id}, stdin := s.stdin + [t.id])
      else s.(mgr := m)
    case ReadLine(origin, batch) =>
      s.(mgr := s.mgr.SetExpected(origin, |batch|).0,
         todo := s.todo - {origin},
         outputs := s.outputs[origin := batch],
         driver := if batch == [] then Reading else Emitting(origin, batch, 0, false))
    case Forward(target, now) =>
      var d := s.driver;
      s.(mgr := Forwarded(s.mgr, s.name, d.batch[d.next], d.origin, target, now), driver := d.(forwarded := true))
    case CountOutput =>
      var next := s.driver.next + 1;
      s.(mgr := s.mgr.Increment(s.driver.origin).0,
         driver := if next < |s.driver.batch| then s.driver.(next := next, forwarded := false) else Reading)
    case AckArrives(id) =>
      s.(mgr := s.mgr.RemoveSent(id))
    case RetrySnapshot(now, interval) =>
      s.(mgr := s.mgr.Stamped(now, interval), retrying := s.mgr.DueSends(now, interval))
    case RetryRedirect(id, taskId) =>
      s.(mgr := s.mgr.Redirected(id, s.name, taskId),
         retrying := s.retrying[id := Redirect(s.retrying[id], s.name, taskId)])
    case RetrySend(id, address, now) =>
      s.(mgr := Resent(s.mgr, s.retrying[id], address, now), retrying := s.retrying - {id})
    case FlushSnapshot =>
      s.(mgr := s.mgr.Drained(), flush := Snapshotted(s.mgr.writeBuffer, s.mgr.pendingAcks))
    case FlushAppend =>
      s.(durable := s.durable + s.flush.buffer, flush := Appended(s.flush.ids))
    case FlushAck =>
      s.(acked := s.acked + Ackable(s), flush := Idle)
    case Crash(kept) =>
      var log := (s.durable + s.Inflight())[..kept];
      s.(mgr := Fresh(false, s.mgr.isFinalStage).Restored(log), durable := log, flush := Idle,
         retrying := map[], driver := Reading, todo := {}, stdin := [])
    case Merge(log, logOutputs) =>
      s.(mgr := s.mgr.Merged(log), durable := s.durable + log,
         outputs := s.outputs + (map id | id in logOutputs && id in RecIds(log) :: logOutputs[id]))
  }

  predicate HasAddress(target: Target) {
    target.To? && target.taskId != "" && target.address != ""
  }

  /** forwardTupleToDownstream: with no addressed target the output is dropped, untracked. */
  function Forwarded(m: Manager, name: string, t: Tuple, origin: string, target: Target, now: int): Manager {
    if HasAddress(target) then m.AddSent(t.(senderId := name, taskId := target.taskId), origin, target.address, now)
    else m
  }

  function Resent(m: Manager, st: SentTuple, address: string, now: int): Manager {
    if st.destination == "" then m else m.AddSent(st.tuple, st.originalId, address, now)
  }

  /** A tuple on its way to an address. */
  datatype Message = Message(address: string, tuple: Tuple)

  /** The messages a step sends, each once: the final stage forwards to nobody. */
  ghost function Posted(s: Task, step: Step): seq<Message>
    requires Enabled(s, step)
  {
    match step
    case Forward(target, _) =>
      if s.mgr.isFinalStage || !HasAddress(target) then []
      else [Message(target.address, s.driver.batch[s.driver.next].(senderId := s.name, taskId := target.taskId))]
    case RetrySend(id, address, _) =>
      if s.retrying[id].destination == "" then [] else [Message(address, s.retrying[id].tuple)]
    case _ => []
  }

  /** Reading a line, then forwarding and counting its first k outputs. */
  function LineSteps(origin: string, batch: seq<Tuple>, targets: seq<Target>, now: int, k: nat): seq<Step>
    requires k <= |targets|
  {
    if k == 0 then [ReadLine(origin, batch)]
    else LineSteps(origin, batch, targets, now, k - 1) + [Forward(targets[k - 1], now)] + [CountOutput]
  }

  // ---- Runs ----

  ghost predicate Legal(s: Task, steps: seq<Step>)
    decreases |steps|, 0
  {
    steps == [] || (Legal(s, steps[..|steps| - 1]) && Enabled(Exec(s, steps[..|steps| - 1]), steps[|steps| - 1]))
  }

  ghost function Exec(s: Task, steps: seq<Step>): Task
    requires Legal(s, steps)
    decreases |steps|, 1
  {
    if steps == [] then s else Next(Exec(s, steps[..|steps| - 1]), steps[|steps| - 1])
  }

  lemma LegalUpTo(s: Task, steps: seq<Step>)
    requires Legal(s, steps) && steps != []
    ensures var init, last := steps[..|steps| - 1], steps[|steps| - 1];
            Legal(s, init) && Enabled(Exec(s, init), last)
  {
  }

  lemma LegalWhen(s: Task, steps: seq<Step>)
    requires steps != [] && Legal(s, steps[..|steps| - 1])
    requires Enabled(Exec(s, steps[..|steps| - 1]), steps[|steps| - 1])
    ensures Legal(s, steps)
  {
  }

  /** All the messages a run sends, in order. */
  ghost function PostedBy(s: Task, steps: seq<Step>): seq<Message>
    requires Legal(s, steps)
  {
    if steps == [] then []
    else PostedBy(s, steps[..|steps| - 1]) + Posted(Exec(s, steps[..|steps| - 1]), steps[|steps| - 1])
  }

  lemma FinalStageStays(s: Task, step: Step)
    requires Enabled(s, step)
    ensures Next(s, step).mgr.isFinalStage == s.mgr.isFinalStage
  {
  }

  lemma {:induction false} RunFinalStageStays(s: Task, steps: seq<Step>)
    requires Legal(s, steps)
    ensures Exec(s, steps).mgr.isFinalStage == s.mgr.isFinalStage
  {
    if steps != [] {
      RunFinalStageStays(s, steps[..|steps| - 1]);
      FinalStageStays(Exec(s, steps[..|steps| - 1]), steps[|steps| - 1]);
    }
  }

  // ---- The invariant ----

  function Processed(m: map<string, ReceivedTuple>): map<string, ReceivedTuple> {
    map id | id in m && m[id].processed :: m[id]
  }

  predicate IsProcessed(s: Task, id: string) {
    id in s.mgr.received && s.mgr.received[id].processed
  }

  ghost predicate MemoryMatchesLog(s: Task) {
    var r := Replay(EMPTY, s.Log());
    SameSends(r.sent, s.mgr.sent) && r.received == Processed(s.mgr.received)
  }

  ghost predicate Unstarted(s: Task, id: string) {
    && id in s.mgr.received && id in s.stdin
    && !s.mgr.received[id].processed && s.mgr.received[id].outputCount == 0
  }

  ghost predicate DriverOk(s: Task) {
    && !s.mgr.isSource
    && (forall id :: id in s.todo ==> Unstarted(s, id))
    && (s.driver.Emitting? ==>
          var d := s.driver;
          && d.next < |d.batch|
          && d.origin !in s.todo && d.origin in s.stdin
          && d.origin in s.mgr.received
          && !s.mgr.received[d.origin].processed
          && s.mgr.received[d.origin].expectedOutputs == |d.batch|
          && s.mgr.received[d.origin].outputCount == d.next
          && d.origin in s.outputs && s.outputs[d.origin] == d.batch)
  }

  ghost predicate StdinOk(s: Task) {
    && (forall i, j :: 0 <= i < j < |s.stdin| ==> s.stdin[i] != s.stdin[j])
    && (forall id :: id in s.stdin ==> id in s.mgr.received)
  }

  ghost predicate AcksCovered(s: Task) {
    && (forall id :: id in s.mgr.pendingAcks ==> id in RecIds(s.Log()))
    && (s.flush.Snapshotted? ==> forall id :: id in s.flush.ids ==> id in RecIds(s.durable + s.flush.buffer))
    && (s.flush.Appended? ==> forall id :: id in s.flush.ids ==> id in RecIds(s.durable))
    && s.acked <= RecIds(s.durable)
  }

  ghost predicate Inv(s: Task) {
    && MemoryMatchesLog(s)
    && WellFormedLog(s.Log())
    && DriverOk(s)
    && StdinOk(s)
    && AcksCovered(s)
  }

  // ---- Every step keeps it ----

  lemma LogGrows(s: Task, t: Task, r: Record)
    requires t.durable == s.durable && t.flush == s.flush && t.mgr.writeBuffer == s.mgr.writeBuffer + [r]
    ensures t.Log() == s.Log() + [r]
    ensures Replay(EMPTY, t.Log()) == Apply(Replay(EMPTY, s.Log()), r)
    ensures RecIds(t.Log()) == RecIds(s.Log()) + (if r.REC? then {r.id} else {})
    ensures SentIds(t.Log()) == SentIds(s.Log()) + (if r.SENT? then {r.id} else {})
  {
    assert t.Log() == s.Log() + [r];
    assert t.Log()[..|t.Log()| - 1] == s.Log();
  }

  lemma InitInv(name: string, isFinalStage: bool)
    ensures Inv(Init(name, isFinalStage))
  {
  }

  // The invariant's parts, for the kinds of change steps make.

  /** What the reading loop and the stdin list depend on stays, but for the forwarded flag. */
  lemma SameReading(s: Task, t: Task)
    requires DriverOk(s) && StdinOk(s)
    requires t.mgr.received == s.mgr.received && t.mgr.isSource == s.mgr.isSource
    requires t.todo == s.todo && t.stdin == s.stdin && t.outputs == s.outputs
    requires t.driver == s.driver || (s.driver.Emitting? && t.driver == s.driver.(forwarded := true))
    ensures DriverOk(t) && StdinOk(t)
  {
  }

  lemma SameLogAcks(s: Task, t: Task)
    requires AcksCovered(s) && t.Log() == s.Log()
    requires t.durable == s.durable && t.flush == s.flush && t.acked == s.acked && t.mgr.pendingAcks == s.mgr.pendingAcks
    ensures AcksCovered(t)
  {
  }

  lemma GrownLogAcks(s: Task, t: Task, r: Record)
    requires AcksCovered(s) && t.mgr.writeBuffer == s.mgr.writeBuffer + [r]
    requires t.durable == s.durable && t.flush == s.flush && t.acked == s.acked
    requires t.mgr.pendingAcks == s.mgr.pendingAcks || (r.REC? && t.mgr.pendingAcks == s.mgr.pendingAcks + [r.id])
    ensures AcksCovered(t)
  {
    LogGrows(s, t, r);
  }

  /** A record that changes nothing about received tuples, and the sent map's change it stands for. */
  lemma GrownLogMatches(s: Task, t: Task, r: Record)
    requires MemoryMatchesLog(s) && WellFormedLog(s.Log()) && !r.REC?
    requires t.durable == s.durable && t.flush == s.flush && t.mgr.writeBuffer == s.mgr.writeBuffer + [r]
    requires t.mgr.received == s.mgr.received
    requires t.mgr.sent == Apply(Maps(s.mgr.received, s.mgr.sent), r).sent
    ensures MemoryMatchesLog(t) && WellFormedLog(t.Log())
  {
    LogGrows(s, t, r);
    ApplyKeepsSameSends(Replay(EMPTY, s.Log()), Maps(s.mgr.received, s.mgr.sent), r);
  }

  lemma ApplyKeepsSameSends(a: Maps, b: Maps, r: Record)
    requires SameSends(a.sent, b.sent)
    ensures SameSends(Apply(a, r).sent, Apply(b, r).sent)
  {
  }

  lemma ReceiveReads(s: Task, t: Tuple, stdinOk: bool)
    requires DriverOk(s) && StdinOk(s)
    ensures DriverOk(Next(s, Receive(t, stdinOk))) && StdinOk(Next(s, Receive(t, stdinOk)))
  {
  }

  lemma ReceiveMatches(s: Task, t: Tuple, stdinOk: bool)
    requires MemoryMatchesLog(s)
    ensures Next(s, Receive(t, stdinOk)).Log() == s.Log() && MemoryMatchesLog(Next(s, Receive(t, stdinOk)))
  {
    var u := Next(s, Receive(t, stdinOk));
    if t.id !in s.mgr.received {
      assert Processed(u.mgr.received) == Processed(s.mgr.received);
    }
  }

  lemma ReceiveInv(s: Task, step: Step)
    requires Inv(s) && step.Receive? && Enabled(s, step)
    ensures Inv(Next(s, step))
  {
    ReceiveMatches(s, step.tuple, step.stdinOk);
    ReceiveReads(s, step.tuple, step.stdinOk);
    SameLogAcks(s, Next(s, step));
  }

  lemma CompleteMatches(s: Task, id: string, rt: ReceivedTuple, t: Task)
    requires MemoryMatchesLog(s) && WellFormedLog(s.Log())
    requires t == s.(mgr := s.mgr.Complete(id, rt), todo := t.todo, driver := t.driver, outputs := t.outputs)
    ensures MemoryMatchesLog(t) && WellFormedLog(t.Log())
  {
    LogGrows(s, t, REC(id, rt.(processed := true)));
    ProcessedOneMore(s.mgr.received, id, rt.(processed := true));
  }

  lemma ProcessedOneMore(received: map<string, ReceivedTuple>, id: string, done: ReceivedTuple)
    requires done.processed
    ensures Processed(received[id := done]) == Processed(received)[id := done]
  {
  }

  lemma CompleteReads(s: Task, id: string, rt: ReceivedTuple, t: Task)
    requires DriverOk(s) && StdinOk(s) && id in s.mgr.received && id !in s.todo
    requires t == s.(mgr := s.mgr.Complete(id, rt), todo := t.todo, driver := Reading, outputs := t.outputs)
    requires t.todo <= s.todo
    ensures DriverOk(t) && StdinOk(t)
  {
  }

  lemma CompleteInv(s: Task, id: string, rt: ReceivedTuple, t: Task)
    requires Inv(s) && id in s.mgr.received && id !in s.todo
    requires s.driver.Emitting? ==> s.driver.origin == id
    requires t == s.(mgr := s.mgr.Complete(id, rt), todo := t.todo, driver := Reading, outputs := t.outputs)
    requires t.todo <= s.todo
    ensures Inv(t)
  {
    CompleteMatches(s, id, rt, t);
    CompleteReads(s, id, rt, t);
    GrownLogAcks(s, t, REC(id, rt.(processed := true)));
  }

  lemma ReadLineInv(s: Task, step: Step)
    requires Inv(s) && step.ReadLine? && Enabled(s, step)
    ensures Inv(Next(s, step))
  {
    var t := Next(s, step);
    var rt := s.mgr.received[step.origin].(expectedOutputs := |step.batch|);
    if step.batch == [] {
      CompleteInv(s.(todo := t.todo), step.origin, rt, t);
    } else {
      assert Processed(t.mgr.received) == Processed(s.mgr.received);
      assert t.Log() == s.Log();
    }
  }

  lemma CountOutputInv(s: Task, step: Step)
    requires Inv(s) && step.CountOutput? && Enabled(s, step)
    ensures Inv(Next(s, step))
  {
    var t, d := Next(s, step), s.driver;
    var rt := s.mgr.received[d.origin].(outputCount := d.next + 1);
    if d.next + 1 == |d.batch| {
      CompleteInv(s, d.origin, rt, t);
    } else {
      assert Processed(t.mgr.received) == Processed(s.mgr.received);
      assert t.Log() == s.Log();
    }
  }

  lemma AddSentInv(s: Task, tuple: Tuple, originalId: string, address: string, now: int, t: Task)
    requires Inv(s)
    requires t.mgr == s.mgr.AddSent(tuple, originalId, address, now)
    requires t == s.(mgr := t.mgr, retrying := t.retrying, driver := t.driver)
    requires t.driver == s.driver || (s.driver.Emitting? && t.driver == s.driver.(forwarded := true))
    ensures Inv(t)
  {
    SameReading(s, t);
    if s.mgr.isFinalStage {
      assert t.Log() == s.Log();
      SameLogAcks(s, t);
    } else {
      var r := SENT(tuple.id, SentTuple(tuple, now, originalId, address));
      GrownLogMatches(s, t, r);
      GrownLogAcks(s, t, r);
    }
  }

  lemma AckArrivesInv(s: Task, step: Step)
    requires Inv(s) && step.AckArrives? && Enabled(s, step)
    ensures Inv(Next(s, step))
  {
    var t := Next(s, step);
    if s.mgr.isFinalStage || step.id !in s.mgr.sent {
      assert t == s;
    } else {
      SameReading(s, t);
      GrownLogMatches(s, t, ACK(step.id));
      GrownLogAcks(s, t, ACK(step.id));
    }
  }

  lemma RetryStampInv(s: Task, t: Task)
    requires Inv(s)
    requires t == s.(mgr := s.mgr.(sent := t.mgr.sent), retrying := t.retrying)
    requires SameSends(s.mgr.sent, t.mgr.sent)
    ensures Inv(t)
  {
    assert t.Log() == s.Log();
    SameReading(s, t);
    SameLogAcks(s, t);
  }

  lemma StampKeepsContents(m: Manager, now: int, interval: int)
    ensures m.Stamped(now, interval) == m.(sent := m.Stamped(now, interval).sent)
    ensures SameSends(m.sent, m.Stamped(now, interval).sent)
  {
  }

  lemma RedirectKeepsContents(m: Manager, id: string, senderId: string, taskId: string)
    ensures m.Redirected(id, senderId, taskId) == m.(sent := m.Redirected(id, senderId, taskId).sent)
    ensures SameSends(m.sent, m.Redirected(id, senderId, taskId).sent)
  {
  }

  /** A scan, a redirect, and a retry with nowhere to go rewrite no content of a send. */
  lemma RetryKeepsContents(s: Task, step: Step)
    requires Enabled(s, step)
    requires step.RetrySnapshot? || step.RetryRedirect? || (step.RetrySend? && s.retrying[step.id].destination == "")
    ensures var t := Next(s, step);
            && t == s.(mgr := s.mgr.(sent := t.mgr.sent), retrying := t.retrying)
            && SameSends(s.mgr.sent, t.mgr.sent)
  {
    match step
    case RetrySnapshot(now, interval) => StampKeepsContents(s.mgr, now, interval);
    case RetryRedirect(id, taskId) => RedirectKeepsContents(s.mgr, id, s.name, taskId);
    case RetrySend(_, _, _) =>
  }

  lemma RetryInv(s: Task, step: Step)
    requires Inv(s) && Enabled(s, step)
    requires step.RetrySnapshot? || step.RetryRedirect? || step.RetrySend?
    ensures Inv(Next(s, step))
  {
    if step.RetrySend? && s.retrying[step.id].destination != "" {
      var st := s.retrying[step.id];
      AddSentInv(s, st.tuple, st.originalId, step.address, step.now, Next(s, step));
    } else {
      RetryKeepsContents(s, step);
      RetryStampInv(s, Next(s, step));
    }
  }

  lemma FlushInv(s: Task, step: Step)
    requires Inv(s) && Enabled(s, step)
    requires step.FlushSnapshot? || step.FlushAppend? || step.FlushAck?
    ensures Inv(Next(s, step))
  {
    var t := Next(s, step);
    assert t.Log() == s.Log();
    if step.FlushSnapshot? {
      assert t.durable + t.flush.buffer == s.Log();
    }
  }

  lemma RestoreInv(s: Task, t: Task, log: seq<Record>)
    requires WellFormedLog(log) && s.acked <= RecIds(log)
    requires t == s.(mgr := Fresh(false, s.mgr.isFinalStage).Restored(log), durable := log, flush := Idle,
                     retrying := map[], driver := Reading, todo := {}, stdin := [])
    ensures Inv(t)
  {
    assert t.Log() == log;
    RestoredIsRecorded(log);
    assert Processed(t.mgr.received) == t.mgr.received;
  }

  lemma CrashInv(s: Task, step: Step)
    requires Inv(s) && step.Crash? && Enabled(s, step)
    ensures Inv(Next(s, step))
  {
    var all := s.durable + s.Inflight();
    var log := all[..step.kept];
    assert s.Log() == log + (all[step.kept..] + s.mgr.writeBuffer);
    assert log == s.durable + log[|s.durable|..];
    RestoreInv(s, Next(s, step), log);
  }

  /** Memory merge followed by the log append leaves memory equal to a replay of
      keepWAL ++ oldWAL ++ keepBuffer. */
  lemma MergeReplay(s: Task, log: seq<Record>)
    requires RecIds(log) !! RecIds(s.Log())
    requires SentIds(log) + AckIds(log) !! SentIds(s.Log()) + AckIds(s.Log())
    ensures Replay(EMPTY, s.durable + log + (s.Inflight() + s.mgr.writeBuffer)) == Replay(Replay(EMPTY, s.Log()), log)
  {
    var tail := s.Inflight() + s.mgr.writeBuffer;
    assert s.Log() == s.durable + tail;
    assert forall r :: r in tail ==> r in s.Log();
    var m := Replay(EMPTY, s.durable);
    ReplayAppend(EMPTY, s.durable + log, tail);
    ReplayAppend(EMPTY, s.durable, log);
    ReplayAppend(m, log, tail);
    ReplayCommutes(m, log, tail);
    ReplayAppend(m, tail, log);
    ReplayAppend(EMPTY, s.durable, tail);
  }

  lemma ProcessedReplay(m: Maps, log: seq<Record>)
    requires WellFormedLog(log)
    ensures Processed(Replay(m, log).received) == Replay(m.(received := Processed(m.received)), log).received
  {
    var n := m.(received := Processed(m.received));
    forall id
      ensures id in Processed(Replay(m, log).received) <==> id in Replay(n, log).received
      ensures id in Replay(n, log).received ==> Replay(m, log).received[id] == Replay(n, log).received[id]
    {
      FatesTouchTheirIds(log, id);
      ReplayLatestWins(m, log, id);
      ReplayLatestWins(n, log, id);
    }
  }

  lemma {:induction false} ReplayReceivedOnly(a: Maps, b: Maps, log: seq<Record>)
    requires a.received == b.received
    ensures Replay(a, log).received == Replay(b, log).received
  {
    if log != [] {
      ReplayReceivedOnly(a, b, log[..|log| - 1]);
    }
  }

  lemma MergeKeepsUntouched(m: Maps, log: seq<Record>, id: string)
    requires id !in RecIds(log)
    ensures id in Replay(m, log).received <==> id in m.received
    ensures id in m.received ==> Replay(m, log).received[id] == m.received[id]
  {
    FatesTouchTheirIds(log, id);
    ReplayLatestWins(m, log, id);
  }

  lemma MergeMatches(s: Task, step: Step)
    requires MemoryMatchesLog(s) && step.Merge? && Enabled(s, step)
    ensures MemoryMatchesLog(Next(s, step))
    ensures Next(s, step).Log() == s.durable + step.log + (s.Inflight() + s.mgr.writeBuffer)
  {
    var t, log := Next(s, step), step.log;
    var m, r := Maps(s.mgr.received, s.mgr.sent), Replay(EMPTY, s.Log());
    RestoredIsRecorded(s.Log());
    assert RecIds(s.Log()) <= s.mgr.received.Keys;
    MergeReplay(s, log);
    assert t.Log() == s.durable + log + (s.Inflight() + s.mgr.writeBuffer);
    ReplayKeepsSameSends(r, m, log);
    ProcessedReplay(m, log);
    ReplayReceivedOnly(r, m.(received := Processed(m.received)), log);
  }

  lemma MergeKeepsReceived(s: Task, log: seq<Record>)
    requires RecIds(log) !! s.mgr.received.Keys
    ensures forall id :: id in s.mgr.received ==>
      id in s.mgr.Merged(log).received && s.mgr.Merged(log).received[id] == s.mgr.received[id]
  {
    forall id | id in s.mgr.received
      ensures id in s.mgr.Merged(log).received && s.mgr.Merged(log).received[id] == s.mgr.received[id]
    {
      MergeKeepsUntouched(Maps(s.mgr.received, s.mgr.sent), log, id);
    }
  }

  lemma MergeReads(s: Task, step: Step)
    requires DriverOk(s) && StdinOk(s) && step.Merge? && Enabled(s, step)
    ensures DriverOk(Next(s, step)) && StdinOk(Next(s, step))
  {
    MergeKeepsReceived(s, step.log);
  }

  lemma MergeAcks(s: Task, step: Step)
    requires AcksCovered(s) && WellFormedLog(s.Log()) && step.Merge? && Enabled(s, step)
    ensures AcksCovered(Next(s, step)) && WellFormedLog(Next(s, step).Log())
  {
    var t := Next(s, step);
    assert t.durable == s.durable + step.log;
    assert forall q :: q in t.Log() <==> q in s.Log() || q in step.log;
    assert RecIds(s.Log()) <= RecIds(t.Log()) && RecIds(s.durable) <= RecIds(t.durable);
    assert s.flush.Snapshotted? ==> RecIds(s.durable + s.flush.buffer) <= RecIds(t.durable + t.flush.buffer);
  }

  lemma MergeInv(s: Task, step: Step)
    requires Inv(s) && step.Merge? && Enabled(s, step)
    ensures Inv(Next(s, step))
  {
    MergeMatches(s, step);
    MergeReads(s, step);
    MergeAcks(s, step);
  }

  lemma StepInv(s: Task, step: Step)
    requires Inv(s) && Enabled(s, step)
    ensures Inv(Next(s, step))
  {
    match step
    case Receive(_, _) => ReceiveInv(s, step);
    case ReadLine(_, _) => ReadLineInv(s, step);
    case Forward(target, now) =>
      var t, d := Next(s, step), s.driver;
      if HasAddress(target) {
        AddSentInv(s, d.batch[d.next].(senderId := s.name, taskId := target.taskId), d.origin, target.address, now, t);
      } else {
        assert t.Log() == s.Log();
      }
    case CountOutput => CountOutputInv(s, step);
    case AckArrives(_) => AckArrivesInv(s, step);
    case RetrySnapshot(_, _) => RetryInv(s, step);
    case RetryRedirect(_, _) => RetryInv(s, step);
    case RetrySend(_, _, _) => RetryInv(s, step);
    case FlushSnapshot => FlushInv(s, step);
    case FlushAppend => FlushInv(s, step);
    case FlushAck => FlushInv(s, step);
    case Crash(_) => CrashInv(s, step);
    case Merge(_, _) => MergeInv(s, step);
  }

  lemma {:induction false} RunInv(s: Task, steps: seq<Step>)
    requires Inv(s) && Legal(s, steps)
    ensures Inv(Exec(s, steps))
  {
    if steps != [] {
      RunInv(s, steps[..|steps| - 1]);
      StepInv(Exec(s, steps[..|steps| - 1]), steps[|steps| - 1]);
    }
  }
}
