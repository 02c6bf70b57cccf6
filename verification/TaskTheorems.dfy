/** What every run of a task guarantees. */
module TaskTheorems {
  import opened Wal
  import opened ExactlyOnce
  import opened TaskRuns

  // ---- SENT before REC ----

  /** Each REC is preceded by a SENT for every output of its tuple, the lost ones apart. */
  ghost predicate SendsPrecedeReceipts(log: seq<Record>, outputs: map<string, seq<Tuple>>, lost: set<string>) {
    forall i :: 0 <= i < |log| && log[i].REC? ==>
      && log[i].id in outputs
      && forall o :: o in outputs[log[i].id] ==> o.id in SentIds(log[..i]) || o.id in lost
  }

  /** Outputs a log completes their tuple without. */
  function Unsent(log: seq<Record>, outputs: map<string, seq<Tuple>>): set<string> {
    set i, o | 0 <= i < |log| && log[i].REC? && log[i].id in outputs && o in outputs[log[i].id] &&
               o.id !in SentIds(log[..i]) :: o.id
  }

  /** What a step drops: the output it forwards nowhere, or what a merged log had dropped. */
  ghost function Dropped(s: Task, step: Step): set<string>
    requires Enabled(s, step)
  {
    match step
    case Forward(target, _) => if HasAddress(target) then {} else {s.driver.batch[s.driver.next].id}
    case Merge(log, logOutputs) => Unsent(log, logOutputs)
    case _ => {}
  }

  ghost function DroppedBy(s: Task, steps: seq<Step>): set<string>
    requires Legal(s, steps)
  {
    if steps == [] then {}
    else
      var init := steps[..|steps| - 1];
      DroppedBy(s, init) + Dropped(Exec(s, init), steps[|steps| - 1])
  }

  /** A merge is told the outputs of every tuple its log completes. */
  predicate OutputsKnown(step: Step) {
    step.Merge? ==> RecIds(step.log) <= step.logOutputs.Keys
  }

  /** The step drops nothing: an addressed target, a merged log that dropped nothing. */
  ghost predicate Addressed(step: Step) {
    match step
    case Forward(target, _) => HasAddress(target)
    case Merge(log, logOutputs) => SendsPrecedeReceipts(log, logOutputs, {})
    case _ => true
  }

  ghost predicate EmittedLogged(s: Task, lost: set<string>) {
    s.driver.Emitting? ==>
      var d := s.driver;
      forall k :: 0 <= k < |d.batch| && (k < d.next || (k == d.next && d.forwarded)) ==>
        d.batch[k].id in SentIds(s.Log()) || d.batch[k].id in lost
  }

  ghost predicate OutputInv(s: Task, lost: set<string>) {
    !s.mgr.isFinalStage && SendsPrecedeReceipts(s.Log(), s.outputs, lost) && EmittedLogged(s, lost)
  }

  lemma PrecedePrefix(log: seq<Record>, outputs: map<string, seq<Tuple>>, k: nat, lost: set<string>)
    requires SendsPrecedeReceipts(log, outputs, lost) && k <= |log|
    ensures SendsPrecedeReceipts(log[..k], outputs, lost)
  {
    forall i | 0 <= i < k && log[..k][i].REC?
      ensures log[i].id in outputs && forall o :: o in outputs[log[i].id] ==> o.id in SentIds(log[..k][..i]) || o.id in lost
    {
      assert log[..k][..i] == log[..i];
    }
  }

  lemma PrecedeInsert(a: seq<Record>, mid: seq<Record>, tail: seq<Record>, outputs: map<string, seq<Tuple>>, lost: set<string>)
    requires SendsPrecedeReceipts(a + tail, outputs, lost) && SendsPrecedeReceipts(mid, outputs, lost)
    ensures SendsPrecedeReceipts(a + mid + tail, outputs, lost)
  {
    var before, after := a + tail, a + mid + tail;
    forall i | 0 <= i < |after| && after[i].REC?
      ensures after[i].id in outputs && forall o :: o in outputs[after[i].id] ==> o.id in SentIds(after[..i]) || o.id in lost
    {
      if i < |a| {
        assert before[i] == after[i] && before[..i] == after[..i];
      } else if i < |a| + |mid| {
        assert mid[i - |a|] == after[i] && after[..i] == a + mid[..i - |a|];
      } else {
        assert before[i - |mid|] == after[i];
        assert before[..i - |mid|] == a + tail[..i - |mid| - |a|];
        assert after[..i] == a + mid + tail[..i - |mid| - |a|];
      }
    }
  }

  lemma PrecedeLog(log: seq<Record>, outputs: map<string, seq<Tuple>>, r: Record, lost: set<string>)
    requires SendsPrecedeReceipts(log, outputs, lost)
    requires r.REC? ==> r.id in outputs && forall o :: o in outputs[r.id] ==> o.id in SentIds(log) || o.id in lost
    ensures SendsPrecedeReceipts(log + [r], outputs, lost)
  {
    var after := log + [r];
    forall i | 0 <= i < |after| && after[i].REC?
      ensures after[i].id in outputs && forall o :: o in outputs[after[i].id] ==> o.id in SentIds(after[..i]) || o.id in lost
    {
      assert after[..i] == log[..i];
      if i < |log| {
        assert log[i] == after[i];
      }
    }
  }

  lemma RecordedIsProcessed(s: Task, id: string)
    requires Inv(s)
    ensures id in RecIds(s.Log()) <==> id in s.mgr.received && s.mgr.received[id].processed
  {
    RestoredIsRecorded(s.Log());
    assert id in Processed(s.mgr.received) <==> id in RecIds(s.Log());
  }

  lemma AppendedOutputInv(s: Task, t: Task, r: Record, lost: set<string>)
    requires Inv(s) && OutputInv(s, lost)
    requires t.durable == s.durable && t.flush == s.flush && t.mgr.writeBuffer == s.mgr.writeBuffer + [r]
    requires !t.mgr.isFinalStage && t.outputs == s.outputs
    requires r.REC? ==> r.id in s.outputs && forall o :: o in s.outputs[r.id] ==> o.id in SentIds(s.Log()) || o.id in lost
    requires t.driver == s.driver || t.driver == Reading ||
             (s.driver.Emitting? && t.driver == s.driver.(forwarded := true) && s.driver.next < |s.driver.batch| &&
              r.SENT? && r.id == s.driver.batch[s.driver.next].id)
    ensures OutputInv(t, lost)
  {
    LogGrows(s, t, r);
    PrecedeLog(s.Log(), s.outputs, r, lost);
  }

  lemma FreshLinePrecedes(s: Task, outputs: map<string, seq<Tuple>>, id: string, lost: set<string>)
    requires Inv(s) && SendsPrecedeReceipts(s.Log(), s.outputs, lost)
    requires id in s.mgr.received ==> !s.mgr.received[id].processed
    requires forall other :: other in s.outputs && other != id ==> other in outputs && outputs[other] == s.outputs[other]
    ensures SendsPrecedeReceipts(s.Log(), outputs, lost)
  {
    RecordedIsProcessed(s, id);
    forall i | 0 <= i < |s.Log()| && s.Log()[i].REC?
      ensures s.Log()[i].id in outputs && outputs[s.Log()[i].id] == s.outputs[s.Log()[i].id]
    {
      assert s.Log()[i].id in RecIds(s.Log());
    }
  }

  lemma GrownLogPrecedes(s: Task, t: Task, lost: set<string>)
    requires t.durable == s.durable && t.flush == s.flush
    requires SendsPrecedeReceipts(s.Log(), t.outputs, lost)
    requires t.mgr.writeBuffer == s.mgr.writeBuffer ||
             exists r :: t.mgr.writeBuffer == s.mgr.writeBuffer + [r] && r.REC? && r.id in t.outputs &&
                         forall o :: o in t.outputs[r.id] ==> o.id in SentIds(s.Log()) || o.id in lost
    ensures SendsPrecedeReceipts(t.Log(), t.outputs, lost) && SentIds(s.Log()) <= SentIds(t.Log())
  {
    if t.mgr.writeBuffer == s.mgr.writeBuffer {
      assert t.Log() == s.Log();
    } else {
      var r := t.mgr.writeBuffer[|s.mgr.writeBuffer|];
      LogGrows(s, t, r);
      PrecedeLog(s.Log(), t.outputs, r, lost);
    }
  }

  lemma CompletionOutputInv(s: Task, step: Step, lost: set<string>)
    requires Inv(s) && OutputInv(s, lost) && Enabled(s, step)
    requires step.ReadLine? || step.CountOutput?
    ensures OutputInv(Next(s, step), lost)
  {
    var t := Next(s, step);
    FreshLinePrecedes(s, t.outputs, if step.ReadLine? then step.origin else s.driver.origin, lost);
    if t.mgr.writeBuffer != s.mgr.writeBuffer {
      var r := t.mgr.writeBuffer[|s.mgr.writeBuffer|];
      assert t.mgr.writeBuffer == s.mgr.writeBuffer + [r];
    }
    GrownLogPrecedes(s, t, lost);
  }

  lemma MoreLost(s: Task, lost: set<string>, more: set<string>)
    requires OutputInv(s, lost) && lost <= more
    ensures OutputInv(s, more)
  {
  }

  lemma UnsentIsLost(log: seq<Record>, outputs: map<string, seq<Tuple>>)
    requires RecIds(log) <= outputs.Keys
    ensures SendsPrecedeReceipts(log, outputs, Unsent(log, outputs))
  {
    forall i | 0 <= i < |log| && log[i].REC?
      ensures log[i].id in outputs
      ensures forall o :: o in outputs[log[i].id] ==> o.id in SentIds(log[..i]) || o.id in Unsent(log, outputs)
    {
      assert log[i].id in RecIds(log);
    }
  }

  lemma MergeOutputInv(s: Task, step: Step, lost: set<string>)
    requires Inv(s) && OutputInv(s, lost) && Enabled(s, step) && step.Merge?
    requires SendsPrecedeReceipts(step.log, step.logOutputs, lost)
    ensures OutputInv(Next(s, step), lost)
  {
    var t, log, tail := Next(s, step), step.log, s.Inflight() + s.mgr.writeBuffer;
    assert s.Log() == s.durable + tail && t.Log() == s.durable + log + tail;
    forall i | 0 <= i < |s.Log()| && s.Log()[i].REC?
      ensures s.Log()[i].id in t.outputs && t.outputs[s.Log()[i].id] == s.outputs[s.Log()[i].id]
    {
      assert s.Log()[i].id in RecIds(s.Log());
      RecordedIsProcessed(s, s.Log()[i].id);
    }
    assert SendsPrecedeReceipts(s.durable + tail, t.outputs, lost);
    forall i | 0 <= i < |log| && log[i].REC?
      ensures log[i].id in t.outputs && t.outputs[log[i].id] == step.logOutputs[log[i].id]
    {
      assert log[i].id in RecIds(log);
    }
    assert SendsPrecedeReceipts(log, t.outputs, lost);
    PrecedeInsert(s.durable, log, tail, t.outputs, lost);
    assert SentIds(s.Log()) <= SentIds(t.Log());
  }

  lemma ForwardOutputInv(s: Task, step: Step, lost: set<string>)
    requires Inv(s) && OutputInv(s, lost) && Enabled(s, step) && step.Forward? && Dropped(s, step) <= lost
    ensures OutputInv(Next(s, step), lost)
  {
    var t := Next(s, step);
    if HasAddress(step.target) {
      AppendedOutputInv(s, t, t.mgr.writeBuffer[|s.mgr.writeBuffer|], lost);
    } else {
      assert t.Log() == s.Log();
    }
  }

  lemma StepOutputInv(s: Task, step: Step, lost: set<string>)
    requires Inv(s) && OutputInv(s, lost) && Enabled(s, step) && OutputsKnown(step) && Dropped(s, step) <= lost
    ensures OutputInv(Next(s, step), lost)
  {
    var t := Next(s, step);
    match step
    case ReadLine(_, _) => CompletionOutputInv(s, step, lost);
    case CountOutput => CompletionOutputInv(s, step, lost);
    case Merge(log, logOutputs) =>
      UnsentIsLost(log, logOutputs);
      MergeOutputInv(s, step, lost);
    case Crash(kept) =>
      var all := s.durable + s.Inflight();
      assert t.Log() == s.Log()[..kept];
      PrecedePrefix(s.Log(), s.outputs, kept, lost);
    case Forward(_, _) => ForwardOutputInv(s, step, lost);
    case AckArrives(id) =>
      if id in s.mgr.sent {
        AppendedOutputInv(s, t, ACK(id), lost);
      }
    case RetrySend(id, address, now) =>
      var st := s.retrying[id];
      if st.destination == "" {
        assert t.Log() == s.Log();
      } else {
        AppendedOutputInv(s, t, SENT(st.tuple.id, SentTuple(st.tuple, now, st.originalId, address)), lost);
      }
    case _ =>
      assert t.Log() == s.Log();
  }

  lemma {:induction false} RunOutputInv(name: string, steps: seq<Step>)
    requires Legal(Init(name, false), steps)
    requires forall step :: step in steps ==> OutputsKnown(step)
    ensures OutputInv(Exec(Init(name, false), steps), DroppedBy(Init(name, false), steps))
  {
    var s0 := Init(name, false);
    InitInv(name, false);
    if steps != [] {
      var init, last := steps[..|steps| - 1], steps[|steps| - 1];
      RunOutputInv(name, init);
      RunInv(s0, init);
      MoreLost(Exec(s0, init), DroppedBy(s0, init), DroppedBy(s0, steps));
      StepOutputInv(Exec(s0, init), last, DroppedBy(s0, steps));
    }
  }

  lemma AddressedIsKnown(step: Step)
    requires Addressed(step)
    ensures OutputsKnown(step) && (step.Merge? ==> Unsent(step.log, step.logOutputs) == {})
  {
    if step.Merge? {
      forall id | id in RecIds(step.log) ensures id in step.logOutputs {
        var i :| 0 <= i < |step.log| && step.log[i].REC? && step.log[i].id == id;
      }
    }
  }

  lemma {:induction false} AddressedDropsNothing(s: Task, steps: seq<Step>)
    requires Legal(s, steps) && forall step :: step in steps ==> Addressed(step)
    ensures DroppedBy(s, steps) == {}
  {
    if steps != [] {
      AddressedDropsNothing(s, steps[..|steps| - 1]);
      AddressedIsKnown(steps[|steps| - 1]);
    }
  }

  // ---- The theorems ----

  /** Replaying everything logged gives the sent map and the processed received tuples, at every lock release. */
  lemma MemoryAgreesWithLog(name: string, isFinalStage: bool, steps: seq<Step>)
    requires Legal(Init(name, isFinalStage), steps)
    ensures var s := Exec(Init(name, isFinalStage), steps);
            var r := Replay(EMPTY, s.Log());
            && SameSends(r.sent, s.mgr.sent)
            && r.received == map id | id in s.mgr.received && s.mgr.received[id].processed :: s.mgr.received[id]
  {
    InitInv(name, isFinalStage);
    RunInv(Init(name, isFinalStage), steps);
  }

  lemma OutputsAccountedFor(s: Task, lost: set<string>, kept: nat)
    requires OutputInv(s, lost) && kept <= |s.Log()|
    ensures var survivor := s.Log()[..kept];
            var r := Fresh(false, false).Restored(survivor);
            forall id :: id in r.received ==>
              && id in s.outputs
              && forall o :: o in s.outputs[id] ==> o.id in r.sent || ACK(o.id) in survivor || o.id in lost
  {
    PrecedePrefix(s.Log(), s.outputs, kept, lost);
    var survivor := s.Log()[..kept];
    RestoredIsRecorded(survivor);
    forall id | id in RecIds(survivor)
      ensures id in s.outputs
      ensures forall o :: o in s.outputs[id] ==>
                o.id in Replay(EMPTY, survivor).sent || ACK(o.id) in survivor || o.id in lost
    {
      var i :| 0 <= i < |survivor| && survivor[i].REC? && survivor[i].id == id;
      forall o | o in s.outputs[id] && o.id !in lost
        ensures o.id in Replay(EMPTY, survivor).sent || ACK(o.id) in survivor
      {
        assert SentIds(survivor[..i]) <= SentIds(survivor);
        SentSurvivesUnlessAcked(survivor, o.id);
      }
    }
  }

  /** Whatever record-level prefix of the log survives a crash, each output of every tuple the
      restored manager treats as received is pending, acknowledged, or was dropped for want of an
      addressed target. */
  lemma EveryOutputIsAccountedFor(name: string, steps: seq<Step>, kept: nat)
    requires Legal(Init(name, false), steps)
    requires forall step :: step in steps ==> OutputsKnown(step)
    requires kept <= |Exec(Init(name, false), steps).Log()|
    ensures var s := Exec(Init(name, false), steps);
            var survivor := s.Log()[..kept];
            var r := Fresh(false, false).Restored(survivor);
            forall id :: id in r.received ==>
              && id in s.outputs
              && forall o :: o in s.outputs[id] ==>
                   o.id in r.sent || ACK(o.id) in survivor || o.id in DroppedBy(Init(name, false), steps)
  {
    RunOutputInv(name, steps);
    OutputsAccountedFor(Exec(Init(name, false), steps), DroppedBy(Init(name, false), steps), kept);
  }

  /** With every output addressed, none is lost. */
  lemma CrashRecoveryLosesNoOutput(name: string, steps: seq<Step>, kept: nat)
    requires Legal(Init(name, false), steps)
    requires forall step :: step in steps ==> Addressed(step)
    requires kept <= |Exec(Init(name, false), steps).Log()|
    ensures var s := Exec(Init(name, false), steps);
            var survivor := s.Log()[..kept];
            var r := Fresh(false, false).Restored(survivor);
            forall id :: id in r.received ==>
              && id in s.outputs
              && forall o :: o in s.outputs[id] ==> o.id in r.sent || ACK(o.id) in survivor
  {
    forall step | step in steps ensures OutputsKnown(step) { AddressedIsKnown(step); }
    AddressedDropsNothing(Init(name, false), steps);
    EveryOutputIsAccountedFor(name, steps, kept);
  }

  lemma OneMoreStep(s: Task, steps: seq<Step>, step: Step, t: Task)
    requires Legal(s, steps) && Enabled(Exec(s, steps), step) && t == Next(Exec(s, steps), step)
    ensures Legal(s, steps + [step]) && Exec(s, steps + [step]) == t
  {
    assert (steps + [step])[..|steps|] == steps;
  }

  /** A new task that has written one tuple to stdin. */
  function Fed(s: Task, t: Tuple): Task {
    s.(mgr := s.mgr.(received := map[t.id := ReceivedTuple(t.id, t.senderId, false, 0, 0)]),
       todo := {t.id}, stdin := [t.id])
  }

  /** ... and has read its line of one output. */
  function Lined(s: Task, t: Tuple, o: Tuple, forwarded: bool): Task {
    s.(mgr := s.mgr.(received := map[t.id := ReceivedTuple(t.id, t.senderId, false, 1, 0)]),
       todo := {}, stdin := [t.id], outputs := map[t.id := [o]], driver := Emitting(t.id, [o], 0, forwarded))
  }

  lemma FirstSteps(s: Task, t: Tuple, o: Tuple)
    requires s == Init(s.name, false)
    ensures Next(s, Receive(t, true)) == Fed(s, t)
    ensures Enabled(Fed(s, t), ReadLine(t.id, [o])) && Next(Fed(s, t), ReadLine(t.id, [o])) == Lined(s, t, o, false)
  {
    var rt := ReceivedTuple(t.id, t.senderId, false, 1, 0);
    assert Fed(s, t).mgr.received[t.id := rt] == map[t.id := rt];
  }

  lemma LastSteps(s: Task, t: Tuple, o: Tuple)
    requires s == Init(s.name, false)
    ensures Next(Lined(s, t, o, false), Forward(NoTarget, 0)) == Lined(s, t, o, true)
    ensures var done := ReceivedTuple(t.id, t.senderId, true, 1, 1);
            Next(Lined(s, t, o, true), CountOutput) ==
            s.(mgr := Manager(false, false, map[t.id := done], map[], [REC(t.id, done)], [t.id]),
               stdin := [t.id], outputs := map[t.id := [o]])
  {
    var done := ReceivedTuple(t.id, t.senderId, true, 1, 1);
    assert Lined(s, t, o, true).mgr.received[t.id := done] == map[t.id := done];
  }

  lemma DroppedOutput(s: Task, t: Tuple, o: Tuple) returns (steps: seq<Step>, end: Task)
    requires s == Init(s.name, false)
    ensures Legal(s, steps) && Exec(s, steps) == end
    ensures var done := ReceivedTuple(t.id, t.senderId, true, 1, 1);
            end == s.(mgr := Manager(false, false, map[t.id := done], map[], [REC(t.id, done)], [t.id]),
                      stdin := [t.id], outputs := map[t.id := [o]])
  {
    var receive, read, forward := Receive(t, true), ReadLine(t.id, [o]), Forward(NoTarget, 0);
    FirstSteps(s, t, o);
    LastSteps(s, t, o);
    end := Next(Lined(s, t, o, true), CountOutput);
    OneMoreStep(s, [], receive, Fed(s, t));
    OneMoreStep(s, [] + [receive], read, Lined(s, t, o, false));
    OneMoreStep(s, [] + [receive] + [read], forward, Lined(s, t, o, true));
    OneMoreStep(s, [] + [receive] + [read] + [forward], CountOutput, end);
    steps := [] + [receive] + [read] + [forward] + [CountOutput];
  }

  /** The addressing hypothesis is needed: an output with no target leaves a durable REC and no trace. */
  lemma UnaddressedOutputIsLost(name: string, t: Tuple, o: Tuple) returns (steps: seq<Step>)
    ensures Legal(Init(name, false), steps)
    ensures var s := Exec(Init(name, false), steps);
            && t.id in RecIds(s.durable) && t.id in s.outputs && s.outputs[t.id] == [o]
            && o.id !in s.mgr.sent && o.id !in SentIds(s.Log())
  {
    var s0, end := Init(name, false), Init(name, false);
    steps, end := DroppedOutput(s0, t, o);
    var flushing := Next(end, FlushSnapshot);
    var flushed := Next(flushing, FlushAppend);
    OneMoreStep(s0, steps, FlushSnapshot, flushing);
    OneMoreStep(s0, steps + [FlushSnapshot], FlushAppend, flushed);
    steps := steps + [FlushSnapshot] + [FlushAppend];
    assert flushed.Log() == end.mgr.writeBuffer == flushed.durable;
    assert flushed.durable[0].REC? && flushed.durable[0].id == t.id;
  }

  // ---- Exactly when the outputs of a line survive ----

  function SentTo(batch: seq<Tuple>, targets: seq<Target>, k: nat): set<string>
    requires k <= |targets| && |targets| == |batch|
  {
    set j | 0 <= j < k && HasAddress(targets[j]) :: batch[j].id
  }

  /** What the log holds once k outputs are forwarded and counted; the REC comes with the last. */
  ghost predicate Midway(s: Task, t: Task, origin: string, batch: seq<Tuple>, targets: seq<Target>, k: nat)
    requires k <= |targets| && |targets| == |batch|
  {
    && !t.mgr.isFinalStage
    && SentIds(t.Log()) == SentIds(s.Log()) + SentTo(batch, targets, k)
    && AckIds(t.Log()) == AckIds(s.Log())
    && (k < |batch| ==> t.driver == Emitting(origin, batch, k, false) && RecIds(t.Log()) == RecIds(s.Log()))
    && (k == |batch| ==>
          t.Log() != [] && t.Log()[|t.Log()| - 1].REC? && t.Log()[|t.Log()| - 1].id == origin &&
          RecIds(t.Log()[..|t.Log()| - 1]) == RecIds(s.Log()))
  }

  lemma AcksGrow(log: seq<Record>, r: Record)
    ensures AckIds(log + [r]) == AckIds(log) + (if r.ACK? then {r.id} else {})
  {
  }

  lemma LineStarts(s: Task, origin: string, batch: seq<Tuple>, targets: seq<Target>)
    requires DriverOk(s) && !s.mgr.isFinalStage && |targets| == |batch| && Enabled(s, ReadLine(origin, batch))
    ensures Midway(s, Next(s, ReadLine(origin, batch)), origin, batch, targets, 0)
  {
    var t := Next(s, ReadLine(origin, batch));
    if batch == [] {
      var r := t.mgr.writeBuffer[|s.mgr.writeBuffer|];
      LogGrows(s, t, r);
      AcksGrow(s.Log(), r);
    } else {
      assert t.Log() == s.Log();
    }
  }

  lemma SentToNext(batch: seq<Tuple>, targets: seq<Target>, k: nat)
    requires k < |targets| && |targets| == |batch|
    ensures SentTo(batch, targets, k + 1) ==
            SentTo(batch, targets, k) + (if HasAddress(targets[k]) then {batch[k].id} else {})
  {
  }

  lemma AddressedForward(t: Task, target: Target, now: int) returns (r: Record)
    requires Enabled(t, Forward(target, now)) && !t.mgr.isFinalStage && HasAddress(target)
    ensures var u := Next(t, Forward(target, now));
            && r.SENT? && r.id == t.driver.batch[t.driver.next].id && u.Log() == t.Log() + [r]
            && !u.mgr.isFinalStage && u.driver == t.driver.(forwarded := true)
  {
    var u := Next(t, Forward(target, now));
    r := u.mgr.writeBuffer[|t.mgr.writeBuffer|];
    LogGrows(t, u, r);
  }

  lemma UnaddressedForward(t: Task, target: Target, now: int)
    requires Enabled(t, Forward(target, now)) && !HasAddress(target)
    ensures Next(t, Forward(target, now)) == t.(driver := t.driver.(forwarded := true))
  {
  }

  lemma SendIds(log: seq<Record>, r: Record)
    requires r.SENT?
    ensures SentIds(log + [r]) == SentIds(log) + {r.id}
    ensures AckIds(log + [r]) == AckIds(log) && RecIds(log + [r]) == RecIds(log)
  {
  }

  lemma OneMoreForward(s: Task, t: Task, origin: string, batch: seq<Tuple>, targets: seq<Target>, now: int, k: nat)
    requires k < |targets| && |targets| == |batch| && Midway(s, t, origin, batch, targets, k)
    ensures Enabled(t, Forward(targets[k], now))
    ensures var u := Next(t, Forward(targets[k], now));
            && !u.mgr.isFinalStage && u.driver == Emitting(origin, batch, k, true)
            && SentIds(u.Log()) == SentIds(s.Log()) + SentTo(batch, targets, k + 1)
            && AckIds(u.Log()) == AckIds(s.Log()) && RecIds(u.Log()) == RecIds(s.Log())
  {
    SentToNext(batch, targets, k);
    if HasAddress(targets[k]) {
      var r := AddressedForward(t, targets[k], now);
      SendIds(t.Log(), r);
    } else {
      UnaddressedForward(t, targets[k], now);
      assert Next(t, Forward(targets[k], now)).Log() == t.Log();
    }
  }

  lemma LastCount(u: Task) returns (r: Record)
    requires DriverOk(u) && u.driver.Emitting? && u.driver.forwarded && u.driver.next + 1 == |u.driver.batch|
    ensures var t, origin := Next(u, CountOutput), u.driver.origin;
            && t.driver.Reading? && t.mgr.isFinalStage == u.mgr.isFinalStage
            && r.REC? && r.id == origin && t.Log() == u.Log() + [r]
  {
    var t := Next(u, CountOutput);
    r := t.mgr.writeBuffer[|u.mgr.writeBuffer|];
    LogGrows(u, t, r);
  }

  lemma EarlierCount(u: Task)
    requires DriverOk(u) && u.driver.Emitting? && u.driver.forwarded && u.driver.next + 1 < |u.driver.batch|
    ensures var t, d := Next(u, CountOutput), u.driver;
            && t.driver == Emitting(d.origin, d.batch, d.next + 1, false)
            && t.mgr.isFinalStage == u.mgr.isFinalStage && t.Log() == u.Log()
  {
  }

  lemma RecordIds(log: seq<Record>, r: Record)
    requires r.REC?
    ensures SentIds(log + [r]) == SentIds(log) && AckIds(log + [r]) == AckIds(log)
    ensures (log + [r])[..|log|] == log
  {
  }

  lemma OneMoreCount(s: Task, u: Task, origin: string, batch: seq<Tuple>, targets: seq<Target>, k: nat)
    requires k < |targets| && |targets| == |batch|
    requires DriverOk(u) && !u.mgr.isFinalStage && u.driver == Emitting(origin, batch, k, true)
    requires SentIds(u.Log()) == SentIds(s.Log()) + SentTo(batch, targets, k + 1)
    requires AckIds(u.Log()) == AckIds(s.Log()) && RecIds(u.Log()) == RecIds(s.Log())
    ensures Midway(s, Next(u, CountOutput), origin, batch, targets, k + 1)
  {
    if k + 1 == |batch| {
      var r := LastCount(u);
      RecordIds(u.Log(), r);
    } else {
      EarlierCount(u);
    }
  }

  ghost predicate LineRan(s: Task, origin: string, batch: seq<Tuple>, targets: seq<Target>, now: int, k: nat) {
    && k <= |targets| && |targets| == |batch|
    && Legal(s, LineSteps(origin, batch, targets, now, k))
    && Midway(s, Exec(s, LineSteps(origin, batch, targets, now, k)), origin, batch, targets, k)
  }

  lemma LineRunsOn(s: Task, origin: string, batch: seq<Tuple>, targets: seq<Target>, now: int, k: nat)
    requires LineRan(s, origin, batch, targets, now, k) && k < |targets|
    ensures Inv(s) ==> LineRan(s, origin, batch, targets, now, k + 1)
  {
    if Inv(s) {
      var steps, forward := LineSteps(origin, batch, targets, now, k), Forward(targets[k], now);
      var t := Exec(s, steps);
      OneMoreForward(s, t, origin, batch, targets, now, k);
      OneMoreStep(s, steps, forward, Next(t, forward));
      RunInv(s, steps + [forward]);
      var u := Exec(s, steps + [forward]);
      OneMoreCount(s, u, origin, batch, targets, k);
      OneMoreStep(s, steps + [forward], CountOutput, Next(u, CountOutput));
    }
  }

  lemma LineBegins(s: Task, origin: string, batch: seq<Tuple>, targets: seq<Target>, now: int)
    requires DriverOk(s) && !s.mgr.isFinalStage && |targets| == |batch| && Enabled(s, ReadLine(origin, batch))
    ensures LineRan(s, origin, batch, targets, now, 0)
  {
    var read := ReadLine(origin, batch);
    LineStarts(s, origin, batch, targets);
    OneMoreStep(s, [], read, Next(s, read));
    assert LineSteps(origin, batch, targets, now, 0) == [] + [read];
  }

  lemma {:induction false} LineRuns(s: Task, origin: string, batch: seq<Tuple>, targets: seq<Target>, now: int, k: nat)
    requires Inv(s) && !s.mgr.isFinalStage && |targets| == |batch| && Enabled(s, ReadLine(origin, batch))
    requires k <= |targets|
    ensures LineRan(s, origin, batch, targets, now, k)
  {
    LineBegins(s, origin, batch, targets, now);
    for j := 0 to k
      invariant LineRan(s, origin, batch, targets, now, j)
    {
      LineRunsOn(s, origin, batch, targets, now, j);
    }
  }

  lemma RecsGrow(log: seq<Record>, i: nat, j: nat)
    requires i <= j <= |log|
    ensures RecIds(log[..i]) <= RecIds(log[..j])
  {
    assert log[..i] == log[..j][..i];
  }

  /** Take any task about to read a line whose outputs are new to the log, and any targets. After a
      crash that keeps the line's REC, every output of the line is pending or acknowledged if and only
      if every target had an address. */
  lemma LineSurvivesIffAddressed(
    s: Task, origin: string, batch: seq<Tuple>, targets: seq<Target>, now: int, kept: nat)
    requires Inv(s) && !s.mgr.isFinalStage && |targets| == |batch| && Enabled(s, ReadLine(origin, batch))
    requires forall j, k :: 0 <= j < k < |batch| ==> batch[j].id != batch[k].id
    requires forall o :: o in batch ==> o.id !in SentIds(s.Log()) + AckIds(s.Log())
    ensures Legal(s, LineSteps(origin, batch, targets, now, |batch|))
    ensures var log := Exec(s, LineSteps(origin, batch, targets, now, |batch|)).Log();
            && origin in RecIds(log)
            && (kept <= |log| && origin in RecIds(log[..kept]) ==>
                  var r := Fresh(false, false).Restored(log[..kept]);
                  (forall o :: o in batch ==> o.id in r.sent || ACK(o.id) in log[..kept]) <==>
                  (forall k :: 0 <= k < |batch| ==> HasAddress(targets[k])))
  {
    LineRuns(s, origin, batch, targets, now, |batch|);
    var t := Exec(s, LineSteps(origin, batch, targets, now, |batch|));
    var log := t.Log();
    RecordedIsProcessed(s, origin);
    assert log[|log| - 1] in log;
    if kept <= |log| && origin in RecIds(log[..kept]) {
      RecsGrow(log, if kept < |log| then kept else 0, |log| - 1);
      assert log[..kept] == log;
      forall k | 0 <= k < |batch|
        ensures (batch[k].id in Replay(EMPTY, log).sent || ACK(batch[k].id) in log) <==> HasAddress(targets[k])
      {
        assert batch[k] in batch;
        SentIffAddressed(log, batch, targets, k, SentIds(s.Log()), AckIds(s.Log()));
      }
      assert forall k :: 0 <= k < |batch| ==> batch[k] in batch;
    }
  }

  lemma SentIffAddressed(log: seq<Record>, batch: seq<Tuple>, targets: seq<Target>, k: nat, sent: set<string>, acked: set<string>)
    requires |targets| == |batch| && k < |batch|
    requires forall i, j :: 0 <= i < j < |batch| ==> batch[i].id != batch[j].id
    requires SentIds(log) == sent + SentTo(batch, targets, |batch|) && AckIds(log) == acked
    requires batch[k].id !in sent + acked
    ensures (batch[k].id in Replay(EMPTY, log).sent || ACK(batch[k].id) in log) <==> HasAddress(targets[k])
  {
    var id := batch[k].id;
    FatesTouchTheirIds(log, id);
    ReplayLatestWins(EMPTY, log, id);
    assert ACK(id) in log ==> id in AckIds(log);
    assert id in SentTo(batch, targets, |batch|) <==> HasAddress(targets[k]);
  }

  /** The flush loop never ACKs a tuple whose REC is not durable yet. */
  lemma FlushPathDurability(name: string, isFinalStage: bool, steps: seq<Step>)
    requires Legal(Init(name, isFinalStage), steps)
    ensures var s := Exec(Init(name, isFinalStage), steps);
            && s.acked <= RecIds(s.durable)
            && (s.flush.Appended? ==> Ackable(s) <= RecIds(s.durable))
  {
    InitInv(name, isFinalStage);
    RunInv(Init(name, isFinalStage), steps);
  }

  /** SetExpectedOutputCount's "all outputs already sent" branch cannot be taken by the reading
      loop: the call completes a tuple only when its line carries no outputs. */
  lemma ReadLineNeverSkipsTheLog(name: string, isFinalStage: bool, steps: seq<Step>, origin: string, batch: seq<Tuple>)
    requires Legal(Init(name, isFinalStage), steps)
    requires Enabled(Exec(Init(name, isFinalStage), steps), ReadLine(origin, batch))
    ensures var s := Exec(Init(name, isFinalStage), steps);
            var (m, done) := s.mgr.SetExpected(origin, |batch|);
            && (done <==> batch == [])
            && origin in m.received
            && (done <==> m.received[origin].processed)
            && (done <==> |m.writeBuffer| == |s.mgr.writeBuffer| + 1)
  {
    InitInv(name, isFinalStage);
    RunInv(Init(name, isFinalStage), steps);
  }

  ghost predicate WritesToStdin(s: Task, step: Step, id: string) {
    step.Receive? && step.stdinOk && step.tuple.id == id && s.mgr.AddReceived(step.tuple).1
  }

  lemma {:induction false} LegalAppend(s: Task, a: seq<Step>, b: seq<Step>)
    requires Legal(s, a + b)
    ensures Legal(s, a) && Legal(Exec(s, a), b) && Exec(s, a + b) == Exec(Exec(s, a), b)
    decreases |b|
  {
    if b == [] {
      assert a + b == a;
    } else {
      var ab, init := a + b, b[..|b| - 1];
      assert ab[..|ab| - 1] == a + init && ab[|ab| - 1] == b[|b| - 1];
      LegalUpTo(s, ab);
      LegalAppend(s, a, init);
      LegalWhen(Exec(s, a), b);
    }
  }

  lemma DurableStep(s: Task, step: Step)
    requires Enabled(s, step)
    ensures s.durable <= Next(s, step).durable
  {
  }

  lemma {:induction false} DurableGrows(s: Task, steps: seq<Step>)
    requires Legal(s, steps)
    ensures s.durable <= Exec(s, steps).durable
  {
    if steps != [] {
      DurableGrows(s, steps[..|steps| - 1]);
      DurableStep(Exec(s, steps[..|steps| - 1]), steps[|steps| - 1]);
    }
  }

  /** Within one incarnation an ID reaches stdin at most once, and once its REC is durable it
      never reaches stdin again, through any number of crashes and restores. */
  lemma AtMostOnceProcessing(name: string, isFinalStage: bool, before: seq<Step>, after: seq<Step>, step: Step, id: string)
    requires Legal(Init(name, isFinalStage), before + after)
    requires Enabled(Exec(Init(name, isFinalStage), before + after), step)
    ensures var s := Exec(Init(name, isFinalStage), before + after);
            forall i, j :: 0 <= i < j < |s.stdin| ==> s.stdin[i] != s.stdin[j]
    ensures var s := Exec(Init(name, isFinalStage), before + after);
            WritesToStdin(s, step, id) ==> id !in s.stdin
    ensures Legal(Init(name, isFinalStage), before)
    ensures id in RecIds(Exec(Init(name, isFinalStage), before).durable) ==>
              !WritesToStdin(Exec(Init(name, isFinalStage), before + after), step, id)
  {
    var s0 := Init(name, isFinalStage);
    InitInv(name, isFinalStage);
    LegalAppend(s0, before, after);
    var m, s := Exec(s0, before), Exec(s0, before + after);
    RunInv(s0, before + after);
    DurableGrows(m, after);
    if id in RecIds(m.durable) {
      assert id in RecIds(s.Log());
      RecordedIsProcessed(s, id);
    }
  }

  // ---- Scale-down ----

  lemma UnsentWithin(log: seq<Record>, outputs: map<string, seq<Tuple>>, lost: set<string>)
    requires SendsPrecedeReceipts(log, outputs, lost)
    ensures RecIds(log) <= outputs.Keys && Unsent(log, outputs) <= lost
  {
    forall id | id in RecIds(log) ensures id in outputs {
      var i :| 0 <= i < |log| && log[i].REC? && log[i].id == id;
    }
  }

  /** A killed task's WAL meets the merge's hypotheses on the log itself, and what it leaves unsent
      is what the task dropped. */
  lemma KilledLogCanBeMerged(name: string, steps: seq<Step>)
    requires Legal(Init(name, false), steps)
    requires forall step :: step in steps ==> OutputsKnown(step)
    ensures var s := Exec(Init(name, false), steps);
            && WellFormedLog(s.durable) && RecIds(s.durable) <= s.outputs.Keys
            && Unsent(s.durable, s.outputs) <= DroppedBy(Init(name, false), steps)
  {
    var s, lost := Exec(Init(name, false), steps), DroppedBy(Init(name, false), steps);
    InitInv(name, false);
    RunInv(Init(name, false), steps);
    RunOutputInv(name, steps);
    assert s.durable == s.Log()[..|s.durable|];
    PrecedePrefix(s.Log(), s.outputs, |s.durable|, lost);
    UnsentWithin(s.durable, s.outputs, lost);
  }

  lemma SentIsLogged(s: Task)
    requires Inv(s)
    ensures s.mgr.sent.Keys <= SentIds(s.Log())
  {
    forall id | id in s.mgr.sent
      ensures id in SentIds(s.Log())
    {
      FatesTouchTheirIds(s.Log(), id);
      ReplayLatestWins(EMPTY, s.Log(), id);
    }
  }

  lemma MergeIsUnion(s: Task, log: seq<Record>)
    requires Inv(s)
    requires RecIds(log) !! s.mgr.received.Keys
    requires SentIds(log) + AckIds(log) !! SentIds(s.Log()) + AckIds(s.Log())
    ensures s.mgr.Merged(log).sent == s.mgr.sent + Replay(EMPTY, log).sent
    ensures s.mgr.Merged(log).received == s.mgr.received + Replay(EMPTY, log).received
  {
    SentIsLogged(s);
    ReplayDisjointIsUnion(Maps(s.mgr.received, s.mgr.sent), log);
  }

  lemma MergedLog(s: Task, log: seq<Record>, logOutputs: map<string, seq<Tuple>>)
    requires Enabled(s, Merge(log, logOutputs))
    ensures Next(s, Merge(log, logOutputs)).Log() == s.durable + log + (s.Inflight() + s.mgr.writeBuffer)
  {
  }

  lemma MergeOutcome(s: Task, log: seq<Record>, logOutputs: map<string, seq<Tuple>>)
    requires Inv(s) && Enabled(s, Merge(log, logOutputs))
    ensures var t := Next(s, Merge(log, logOutputs));
            && MemoryMatchesLog(t)
            && t.mgr.sent == s.mgr.sent + Replay(EMPTY, log).sent
            && t.mgr.received == s.mgr.received + Replay(EMPTY, log).received
  {
    MergeInv(s, Merge(log, logOutputs));
    MergeIsUnion(s, log);
  }

  /** The survivor ends up with a replay of keepWAL ++ oldWAL ++ keepBuffer: the union of both
      tasks' un-ACKed sends and received IDs. */
  lemma ScaleDownMergeIsSound(name: string, isFinalStage: bool, steps: seq<Step>, log: seq<Record>,
                              logOutputs: map<string, seq<Tuple>>)
    requires Legal(Init(name, isFinalStage), steps)
    requires Enabled(Exec(Init(name, isFinalStage), steps), Merge(log, logOutputs))
    ensures var s := Exec(Init(name, isFinalStage), steps);
            var t := Next(s, Merge(log, logOutputs));
            var r := Replay(EMPTY, s.durable + log + (s.Inflight() + s.mgr.writeBuffer));
            && SameSends(r.sent, t.mgr.sent)
            && r.received == Processed(t.mgr.received)
            && t.mgr.sent == s.mgr.sent + Replay(EMPTY, log).sent
            && t.mgr.received == s.mgr.received + Replay(EMPTY, log).received
  {
    InitInv(name, isFinalStage);
    RunInv(Init(name, isFinalStage), steps);
    MergeOutcome(Exec(Init(name, isFinalStage), steps), log, logOutputs);
    MergedLog(Exec(Init(name, isFinalStage), steps), log, logOutputs);
  }

  /** Merging the same log again, with nothing in between, changes nothing in memory. */
  lemma SecondMergeIsHarmless(m: Manager, log: seq<Record>)
    ensures m.Merged(log).Merged(log) == m.Merged(log)
  {
    ReplayIdempotent(Maps(m.received, m.sent), log);
  }
}
