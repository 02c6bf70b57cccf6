/** A non-crashing sender and a crashing receiver joined by a channel that may drop, delay,
    reorder and duplicate: which tuples can be lost. */
module Delivery {
  import opened Wal
  import opened ExactlyOnce
  import TaskRuns
  import TaskTheorems

  /** `wire` and the two ACK sets only grow: a message may be delivered late, never or many times. */
  datatype Link = Link(
    name: string,
    sender: Manager,
    retrying: map<string, SentTuple>,
    ever: set<string>,          // IDs ever passed to AddSentTuple
    wire: set<Tuple>,
    duplicateAcks: set<string>, // ACKs sent at once by the duplicate path
    receiver: TaskRuns.Task)
  {
    function Acks(): set<string> {
      duplicateAcks + receiver.acked
    }
  }

  function Init(name: string, isSource: bool, receiver: string, isFinalStage: bool): Link {
    Link(name, Fresh(isSource, false), map[], {}, {}, {}, TaskRuns.Init(receiver, isFinalStage))
  }

  datatype Step =
    | Send(tuple: Tuple, originalId: string, address: string, now: int)
    | RetrySnapshot(now: int, interval: int)
    | RetryRedirect(id: string, taskId: string)
    | RetrySend(id: string, address: string, now: int)
    | Deliver(tuple: Tuple, stdinOk: bool)
    | DeliverAck(id: string)
    | Receiver(step: TaskRuns.Step)

  ghost predicate Enabled(s: Link, step: Step) {
    match step
    case Send(_, _, _, _) => true
    case RetrySnapshot(_, _) => s.retrying == map[]
    case RetryRedirect(id, _) => id in s.retrying
    case RetrySend(id, _, _) => id in s.retrying
    case Deliver(t, _) => t in s.wire
    case DeliverAck(id) => id in s.Acks()
    case Receiver(r) => !r.Receive? && TaskRuns.Enabled(s.receiver, r)
  }

  ghost function Next(s: Link, step: Step): Link
    requires Enabled(s, step)
  {
    match step
    case Send(t, originalId, address, now) =>
      s.(sender := s.sender.AddSent(t, originalId, address, now), ever := s.ever + {t.id}, wire := s.wire + {t})
    case RetrySnapshot(now, interval) =>
      s.(sender := s.sender.Stamped(now, interval), retrying := s.sender.DueSends(now, interval))
    case RetryRedirect(id, taskId) =>
      s.(sender := s.sender.Redirected(id, s.name, taskId),
         retrying := s.retrying[id := Redirect(s.retrying[id], s.name, taskId)])
    case RetrySend(id, address, now) =>
      var st := s.retrying[id];
      var t := s.(sender := TaskRuns.Resent(s.sender, st, address, now), retrying := s.retrying - {id});
      if st.destination == "" then t else t.(ever := s.ever + {st.tuple.id}, wire := s.wire + {st.tuple})
    case Deliver(t, stdinOk) =>
      s.(receiver := TaskRuns.Next(s.receiver, TaskRuns.Receive(t, stdinOk)),
         duplicateAcks := s.duplicateAcks + (if s.receiver.mgr.AddReceived(t).1 then {} else {t.id}))
    case DeliverAck(id) =>
      s.(sender := s.sender.RemoveSent(id))
    case Receiver(r) =>
      s.(receiver := TaskRuns.Next(s.receiver, r))
  }

  /** The hypothesis: a duplicate arrives only once the first copy's REC is durable. */
  ghost predicate LateDuplicate(s: Link, step: Step) {
    step.Deliver? && step.tuple.id in s.receiver.mgr.received ==> step.tuple.id in RecIds(s.receiver.durable)
  }

  ghost predicate Legal(s: Link, steps: seq<Step>)
    decreases |steps|, 0
  {
    steps == [] || (Legal(s, steps[..|steps| - 1]) && Enabled(Exec(s, steps[..|steps| - 1]), steps[|steps| - 1]))
  }

  ghost function Exec(s: Link, steps: seq<Step>): Link
    requires Legal(s, steps)
    decreases |steps|, 1
  {
    if steps == [] then s else Next(Exec(s, steps[..|steps| - 1]), steps[|steps| - 1])
  }

  ghost predicate LateDuplicates(s: Link, steps: seq<Step>)
    requires Legal(s, steps)
  {
    steps == [] ||
    (LateDuplicates(s, steps[..|steps| - 1]) && LateDuplicate(Exec(s, steps[..|steps| - 1]), steps[|steps| - 1]))
  }

  ghost predicate Safe(s: Link, id: string) {
    id in s.sender.sent || id in RecIds(s.receiver.durable)
  }

  /** What holds on every run, whether or not duplicates come late. */
  ghost predicate Inv(s: Link) {
    && TaskRuns.Inv(s.receiver)
    && !s.sender.isFinalStage
    && (forall t :: t in s.wire ==> t.id in s.ever)
  }

  ghost predicate NothingLost(s: Link) {
    && s.duplicateAcks <= RecIds(s.receiver.durable)
    && forall id :: id in s.ever ==> Safe(s, id)
  }

  lemma StepInv(s: Link, step: Step)
    requires Inv(s) && Enabled(s, step)
    ensures Inv(Next(s, step))
  {
    match step
    case Deliver(t, stdinOk) => TaskRuns.StepInv(s.receiver, TaskRuns.Receive(t, stdinOk));
    case Receiver(r) => TaskRuns.StepInv(s.receiver, r);
    case _ =>
  }

  lemma StepNothingLost(s: Link, step: Step)
    requires Inv(s) && NothingLost(s) && Enabled(s, step) && LateDuplicate(s, step)
    ensures NothingLost(Next(s, step))
  {
    if step.Receiver? {
      TaskTheorems.DurableStep(s.receiver, step.step);
    }
  }

  lemma {:induction false} RunInv(s: Link, steps: seq<Step>)
    requires Inv(s) && Legal(s, steps)
    ensures Inv(Exec(s, steps))
    ensures NothingLost(s) && LateDuplicates(s, steps) ==> NothingLost(Exec(s, steps))
  {
    if steps != [] {
      var init, last := steps[..|steps| - 1], steps[|steps| - 1];
      RunInv(s, init);
      StepInv(Exec(s, init), last);
      if NothingLost(s) && LateDuplicates(s, steps) {
        StepNothingLost(Exec(s, init), last);
      }
    }
  }

  /** Two-party delivery with receiver crashes: a tuple ever tracked by the sender is still
      tracked, or its REC is in the receiver's durable log. */
  lemma NoTupleLost(name: string, isSource: bool, receiver: string, isFinalStage: bool, steps: seq<Step>, id: string)
    requires Legal(Init(name, isSource, receiver, isFinalStage), steps)
    requires LateDuplicates(Init(name, isSource, receiver, isFinalStage), steps)
    requires id in Exec(Init(name, isSource, receiver, isFinalStage), steps).ever
    ensures Safe(Exec(Init(name, isSource, receiver, isFinalStage), steps), id)
  {
    TaskRuns.InitInv(receiver, isFinalStage);
    RunInv(Init(name, isSource, receiver, isFinalStage), steps);
  }

  lemma OneMoreLinkStep(s: Link, steps: seq<Step>, step: Step, t: Link)
    requires Legal(s, steps) && Enabled(Exec(s, steps), step) && t == Next(Exec(s, steps), step)
    ensures Legal(s, steps + [step]) && Exec(s, steps + [step]) == t
  {
    assert (steps + [step])[..|steps|] == steps;
  }

  /** A tuple tracked once stays tracked or durable, whatever happens next. */
  ghost predicate AlwaysSafe(s: Link, id: string) {
    forall run :: Legal(s, run) ==> Safe(Exec(s, run), id)
  }

  lemma LinkDurableStep(s: Link, step: Step, id: string)
    requires Enabled(s, step) && id in RecIds(s.receiver.durable)
    ensures id in RecIds(Next(s, step).receiver.durable)
  {
    if step.Receiver? {
      TaskTheorems.DurableStep(s.receiver, step.step);
    }
  }

  lemma {:induction false} DurableIsAlwaysSafe(s: Link, run: seq<Step>, id: string)
    requires Legal(s, run) && id in RecIds(s.receiver.durable)
    ensures id in RecIds(Exec(s, run).receiver.durable)
  {
    if run != [] {
      DurableIsAlwaysSafe(s, run[..|run| - 1], id);
      LinkDurableStep(Exec(s, run[..|run| - 1]), run[|run| - 1], id);
    }
  }

  /** The immediate ACK of a duplicate reaches the sender, then the receiver crashes back to its
      durable log: both sides forget the tuple unless its REC is durable. */
  lemma EarlyAckThenCrash(s: Link, t: Tuple, stdinOk: bool) returns (run: seq<Step>)
    requires Inv(s) && t in s.wire && t.id in s.receiver.mgr.received
    ensures var s1 := Next(s, Deliver(t, stdinOk));
            && run == [DeliverAck(t.id)] + [Receiver(TaskRuns.Crash(|s.receiver.durable|))]
            && Legal(s1, run)
            && t.id in Exec(s1, run).ever
            && (Safe(Exec(s1, run), t.id) <==> t.id in RecIds(s.receiver.durable))
            && (t.id in Exec(s1, run).receiver.mgr.received <==> t.id in RecIds(s.receiver.durable))
            && Exec(s1, run).retrying == s.retrying
  {
    var s1, ack, crash := Next(s, Deliver(t, stdinOk)), DeliverAck(t.id), Receiver(TaskRuns.Crash(|s.receiver.durable|));
    var s2 := Next(s1, ack);
    OneMoreLinkStep(s1, [], ack, s2);
    OneMoreLinkStep(s1, [] + [ack], crash, Next(s2, crash));
    run := [] + [ack] + [crash];
    assert run == [ack] + [crash];
    var all := s2.receiver.durable + s2.receiver.Inflight();
    assert all[..|s2.receiver.durable|] == s2.receiver.durable == s.receiver.durable;
    RestoredIsRecorded(s.receiver.durable);
  }

  /** Exactly when the immediate ACK of a duplicate is safe, over everything that can happen after it. */
  lemma DuplicateAckSafeIffDurable(name: string, isSource: bool, receiver: string, isFinalStage: bool,
                                   steps: seq<Step>, t: Tuple, stdinOk: bool)
    requires Legal(Init(name, isSource, receiver, isFinalStage), steps)
    requires var s := Exec(Init(name, isSource, receiver, isFinalStage), steps);
             t in s.wire && t.id in s.receiver.mgr.received
    ensures var s := Exec(Init(name, isSource, receiver, isFinalStage), steps);
            && Enabled(s, Deliver(t, stdinOk))
            && (AlwaysSafe(Next(s, Deliver(t, stdinOk)), t.id) <==> t.id in RecIds(s.receiver.durable))
  {
    TaskRuns.InitInv(receiver, isFinalStage);
    RunInv(Init(name, isSource, receiver, isFinalStage), steps);
    var s := Exec(Init(name, isSource, receiver, isFinalStage), steps);
    var s1 := Next(s, Deliver(t, stdinOk));
    var run := EarlyAckThenCrash(s, t, stdinOk);
    if t.id in RecIds(s.receiver.durable) {
      forall run | Legal(s1, run) ensures Safe(Exec(s1, run), t.id) {
        DurableIsAlwaysSafe(s1, run, t.id);
      }
    } else {
      assert !Safe(Exec(s1, run), t.id);
    }
  }

  lemma {:induction false} LinkRunsCompose(s: Link, a: seq<Step>, b: seq<Step>)
    requires Legal(s, a) && Legal(Exec(s, a), b)
    ensures Legal(s, a + b) && Exec(s, a + b) == Exec(Exec(s, a), b)
    decreases |b|
  {
    if b == [] {
      assert a + b == a;
    } else {
      var init, last := b[..|b| - 1], b[|b| - 1];
      LinkRunsCompose(s, a, init);
      OneMoreLinkStep(s, a + init, last, Exec(Exec(s, a), b));
      assert a + b == a + init + [last];
    }
  }

  /** The hypothesis is needed: send, deliver, deliver again, ACK, crash. */
  lemma EarlyDuplicateLosesTuple(name: string, receiver: string, t: Tuple) returns (steps: seq<Step>)
    ensures Legal(Init(name, true, receiver, false), steps)
    ensures var s := Exec(Init(name, true, receiver, false), steps);
            t.id in s.ever && !Safe(s, t.id) && t.id !in s.receiver.mgr.received && s.retrying == map[]
  {
    var s, send, deliver := Init(name, true, receiver, false), Send(t, t.id, "a", 0), Deliver(t, true);
    TaskRuns.InitInv(receiver, false);
    var s1 := Next(s, send);
    var s2 := Next(s1, deliver);
    StepInv(s, send);
    StepInv(s1, deliver);
    var rest := EarlyAckThenCrash(s2, t, true);
    OneMoreLinkStep(s, [], send, s1);
    OneMoreLinkStep(s, [] + [send], deliver, s2);
    OneMoreLinkStep(s, [] + [send] + [deliver], deliver, Next(s2, deliver));
    LinkRunsCompose(s, [] + [send] + [deliver] + [deliver], rest);
    steps := [] + [send] + [deliver] + [deliver] + rest;
  }

  // ---- A failed write to the task's stdin ----

  /** Known, unprocessed, and neither queued on stdin nor in the reading loop. */
  ghost predicate Stuck(r: TaskRuns.Task, id: string) {
    && id in r.mgr.received && !r.mgr.received[id].processed
    && id !in r.todo
    && (r.driver.Emitting? ==> r.driver.origin != id)
  }

  lemma StuckLine(r: TaskRuns.Task, step: TaskRuns.Step, id: string)
    requires TaskRuns.DriverOk(r) && TaskRuns.Enabled(r, step) && Stuck(r, id)
    requires step.ReadLine? || step.Forward? || step.CountOutput?
    ensures Stuck(TaskRuns.Next(r, step), id)
  {
  }

  lemma StuckStep(r: TaskRuns.Task, step: TaskRuns.Step, id: string)
    requires TaskRuns.DriverOk(r) && TaskRuns.Enabled(r, step) && Stuck(r, id) && !step.Crash?
    ensures Stuck(TaskRuns.Next(r, step), id)
  {
    if step.ReadLine? || step.Forward? || step.CountOutput? {
      StuckLine(r, step, id);
    } else if step.Merge? {
      TaskRuns.MergeKeepsUntouched(Maps(r.mgr.received, r.mgr.sent), step.log, id);
    }
  }

  lemma {:induction false} StuckForever(r: TaskRuns.Task, steps: seq<TaskRuns.Step>, id: string)
    requires TaskRuns.Inv(r) && TaskRuns.Legal(r, steps) && Stuck(r, id)
    requires forall step :: step in steps ==> !step.Crash?
    ensures Stuck(TaskRuns.Exec(r, steps), id)
  {
    if steps != [] {
      var init := steps[..|steps| - 1];
      StuckForever(r, init, id);
      TaskRuns.RunInv(r, init);
      StuckStep(TaskRuns.Exec(r, init), steps[|steps| - 1], id);
    }
  }

  /** After a failed write to stdin a repeat is taken for a duplicate: it is ACKed at once, and until
      the receiver crashes the tuple is never processed. */
  lemma FailedStdinWriteBlocksTuple(r: TaskRuns.Task, t: Tuple, steps: seq<TaskRuns.Step>)
    requires TaskRuns.Inv(r) && t.id !in r.mgr.received
    requires TaskRuns.Legal(TaskRuns.Next(r, TaskRuns.Receive(t, false)), steps)
    requires forall step :: step in steps ==> !step.Crash?
    ensures var s := TaskRuns.Exec(TaskRuns.Next(r, TaskRuns.Receive(t, false)), steps);
            && !s.mgr.AddReceived(t).1
            && NeverProcessed(s, t.id)
  {
    var s := TaskRuns.Next(r, TaskRuns.Receive(t, false));
    TaskRuns.StepInv(r, TaskRuns.Receive(t, false));
    assert Stuck(s, t.id);
    StuckForever(s, steps, t.id);
    TaskRuns.RunInv(s, steps);
    TaskTheorems.RecordedIsProcessed(TaskRuns.Exec(s, steps), t.id);
  }

  ghost predicate NeverProcessed(s: TaskRuns.Task, id: string) {
    id in s.mgr.received && !s.mgr.received[id].processed && id !in s.todo && id !in RecIds(s.durable)
  }

  ghost predicate NoCrash(steps: seq<TaskRuns.Step>) {
    forall step :: step in steps ==> !step.Crash?
  }

  /** How much of the line being emitted is left. */
  ghost function Left(s: TaskRuns.Task): int {
    if s.driver.Reading? then 0
    else 2 * (|s.driver.batch| - s.driver.next) - (if s.driver.forwarded then 1 else 0)
  }

  lemma FinishOne(s: TaskRuns.Task) returns (step: TaskRuns.Step)
    requires TaskRuns.Inv(s) && s.driver.Emitting?
    ensures TaskRuns.Enabled(s, step) && !step.Crash?
    ensures TaskRuns.Next(s, step).todo == s.todo && 0 <= Left(TaskRuns.Next(s, step)) < Left(s)
  {
    step := if s.driver.forwarded then TaskRuns.CountOutput else TaskRuns.Forward(TaskRuns.NoTarget, 0);
  }

  /** The reading loop can always come back to reading, with nothing taken off its queue. */
  lemma FinishLine(s: TaskRuns.Task) returns (steps: seq<TaskRuns.Step>, end: TaskRuns.Task)
    requires TaskRuns.Inv(s)
    ensures TaskRuns.Legal(s, steps) && NoCrash(steps) && end == TaskRuns.Exec(s, steps)
    ensures TaskRuns.Inv(end) && end.driver.Reading? && end.todo == s.todo
  {
    steps, end := [], s;
    while end.driver.Emitting?
      invariant TaskRuns.Legal(s, steps) && NoCrash(steps) && end == TaskRuns.Exec(s, steps)
      invariant TaskRuns.Inv(end) && end.todo == s.todo
      decreases Left(end)
    {
      var step := FinishOne(end);
      var next := TaskRuns.Next(end, step);
      TaskRuns.StepInv(end, step);
      TaskTheorems.OneMoreStep(s, steps, step, next);
      steps, end := steps + [step], next;
    }
  }

  lemma {:induction false} QueuedTupleCanBeProcessed(s: TaskRuns.Task, id: string) returns (steps: seq<TaskRuns.Step>)
    requires TaskRuns.Inv(s) && id in s.todo
    ensures TaskRuns.Legal(s, steps) && NoCrash(steps) && TaskRuns.IsProcessed(TaskRuns.Exec(s, steps), id)
  {
    var end;
    steps, end := FinishLine(s);
    var read := TaskRuns.ReadLine(id, []);
    TaskTheorems.OneMoreStep(s, steps, read, TaskRuns.Next(end, read));
    steps := steps + [read];
  }

  ghost predicate CanBeProcessed(s: TaskRuns.Task, id: string) {
    exists steps :: TaskRuns.Legal(s, steps) && NoCrash(steps) && TaskRuns.IsProcessed(TaskRuns.Exec(s, steps), id)
  }

  /** A new tuple can still be processed without a crash if and only if its write to stdin succeeded. */
  lemma ProcessableIffWritten(r: TaskRuns.Task, t: Tuple, stdinOk: bool)
    requires TaskRuns.Inv(r) && t.id !in r.mgr.received
    ensures CanBeProcessed(TaskRuns.Next(r, TaskRuns.Receive(t, stdinOk)), t.id) <==> stdinOk
  {
    var s := TaskRuns.Next(r, TaskRuns.Receive(t, stdinOk));
    TaskRuns.StepInv(r, TaskRuns.Receive(t, stdinOk));
    if stdinOk {
      var steps := QueuedTupleCanBeProcessed(s, t.id);
    } else {
      forall steps | TaskRuns.Legal(s, steps) && NoCrash(steps)
        ensures !TaskRuns.IsProcessed(TaskRuns.Exec(s, steps), t.id)
      {
        FailedStdinWriteBlocksTuple(r, t, steps);
      }
    }
  }

  // ---- When a queued tuple is processed ----

  /** The line read for a tuple, and how many outputs have been counted since. */
  datatype Answer = Unread | Read(batch: seq<Tuple>, counted: nat)

  predicate ReadsLineOf(step: TaskRuns.Step, id: string) {
    step.ReadLine? && step.origin == id
  }

  ghost function AnswerTo(id: string, steps: seq<TaskRuns.Step>): Answer {
    if steps == [] then Unread
    else
      var before, last := AnswerTo(id, steps[..|steps| - 1]), steps[|steps| - 1];
      match before
      case Unread => if ReadsLineOf(last, id) then Read(last.batch, 0) else Unread
      case Read(batch, counted) => if last.CountOutput? then Read(batch, counted + 1) else before
  }

  lemma {:induction false} UnreadWithoutLine(id: string, steps: seq<TaskRuns.Step>)
    ensures AnswerTo(id, steps).Unread? <==> forall step :: step in steps ==> !ReadsLineOf(step, id)
  {
    if steps != [] {
      var init, last := steps[..|steps| - 1], steps[|steps| - 1];
      UnreadWithoutLine(id, init);
      assert steps == init + [last];
    }
  }

  ghost predicate Answered(a: Answer) {
    a.Read? && a.counted >= |a.batch|
  }

  /** Where the task is with the tuple: queued, in the reading loop, or done with it. */
  ghost predicate Follows(s: TaskRuns.Task, id: string, a: Answer) {
    match a
    case Unread => id in s.todo
    case Read(batch, counted) =>
      if counted < |batch| then
        s.driver.Emitting? && s.driver == TaskRuns.Emitting(id, batch, counted, s.driver.forwarded)
      else TaskRuns.IsProcessed(s, id)
  }

  lemma QueuedStep(s: TaskRuns.Task, step: TaskRuns.Step, id: string)
    requires TaskRuns.DriverOk(s) && TaskRuns.Enabled(s, step) && !step.Crash? && id in s.todo
    ensures var t := TaskRuns.Next(s, step);
            if ReadsLineOf(step, id) then
              if step.batch == [] then TaskRuns.IsProcessed(t, id) else t.driver == TaskRuns.Emitting(id, step.batch, 0, false)
            else id in t.todo
  {
  }

  lemma EmittingStep(s: TaskRuns.Task, step: TaskRuns.Step)
    requires TaskRuns.DriverOk(s) && TaskRuns.Enabled(s, step) && !step.Crash? && s.driver.Emitting?
    ensures var t, d := TaskRuns.Next(s, step), s.driver;
            if !step.CountOutput? then t.driver == TaskRuns.Emitting(d.origin, d.batch, d.next, t.driver.forwarded)
            else if d.next + 1 < |d.batch| then t.driver == TaskRuns.Emitting(d.origin, d.batch, d.next + 1, false)
            else TaskRuns.IsProcessed(t, d.origin)
  {
  }

  lemma ProcessedStep(s: TaskRuns.Task, step: TaskRuns.Step, id: string)
    requires TaskRuns.DriverOk(s) && TaskRuns.Enabled(s, step) && !step.Crash? && TaskRuns.IsProcessed(s, id)
    ensures TaskRuns.IsProcessed(TaskRuns.Next(s, step), id)
  {
    if step.Merge? {
      TaskRuns.MergeKeepsUntouched(Maps(s.mgr.received, s.mgr.sent), step.log, id);
    }
  }

  lemma {:induction false} RunFollows(s: TaskRuns.Task, steps: seq<TaskRuns.Step>, id: string)
    requires TaskRuns.Inv(s) && id in s.todo && TaskRuns.Legal(s, steps) && NoCrash(steps)
    ensures Follows(TaskRuns.Exec(s, steps), id, AnswerTo(id, steps))
  {
    if steps != [] {
      var init, last := steps[..|steps| - 1], steps[|steps| - 1];
      var t := TaskRuns.Exec(s, init);
      RunFollows(s, init, id);
      TaskRuns.RunInv(s, init);
      match AnswerTo(id, init)
      case Unread => QueuedStep(t, last, id);
      case Read(batch, counted) =>
        if counted < |batch| {
          EmittingStep(t, last);
        } else {
          ProcessedStep(t, last, id);
        }
    }
  }

  /** From the moment a tuple is on stdin, and until a crash, it is processed if and only if its line has
      been read and every output of the line counted. */
  lemma {:induction false} ProcessedIffAnswered(s: TaskRuns.Task, steps: seq<TaskRuns.Step>, id: string)
    requires TaskRuns.Inv(s) && id in s.todo && TaskRuns.Legal(s, steps) && NoCrash(steps)
    ensures TaskRuns.IsProcessed(TaskRuns.Exec(s, steps), id) <==> Answered(AnswerTo(id, steps))
  {
    TaskRuns.RunInv(s, steps);
    RunFollows(s, steps, id);
  }

  /** Without the line it stays queued, unprocessed and unlogged, while each repeat of it is taken for a
      duplicate. */
  lemma {:induction false} UnansweredIsForgotten(s: TaskRuns.Task, steps: seq<TaskRuns.Step>, t: Tuple)
    requires TaskRuns.Inv(s) && t.id in s.todo && TaskRuns.Legal(s, steps) && NoCrash(steps)
    requires forall step :: step in steps ==> !ReadsLineOf(step, t.id)
    ensures WaitsForItsLine(TaskRuns.Exec(s, steps), t)
  {
    var end := TaskRuns.Exec(s, steps);
    TaskRuns.RunInv(s, steps);
    RunFollows(s, steps, t.id);
    UnreadWithoutLine(t.id, steps);
    TaskTheorems.RecordedIsProcessed(end, t.id);
    assert RecIds(end.durable) <= RecIds(end.Log());
  }

  ghost predicate WaitsForItsLine(s: TaskRuns.Task, t: Tuple) {
    t.id in s.todo && !TaskRuns.IsProcessed(s, t.id) && t.id !in RecIds(s.durable) && !s.mgr.AddReceived(t).1
  }
}
