/** Which tuples the flush loop ACKs, and when: over every run of a task, each processed tuple that has a
    sender is on its way to an ACK. */
module Acknowledging {
  import opened Wal
  import opened ExactlyOnce
  import opened TaskRuns
  import opened TaskTheorems

  /** Who sent the copy of each tuple that was recorded. */
  ghost function Senders(s: Task, steps: seq<Step>): map<string, string>
    requires Legal(s, steps)
  {
    if steps == [] then map[]
    else
      var init, last := steps[..|steps| - 1], steps[|steps| - 1];
      Noted(Exec(s, init), last, Senders(s, init))
  }

  function Noted(s: Task, step: Step, senders: map<string, string>): map<string, string> {
    if step.Receive? && step.tuple.id !in s.mgr.received then senders[step.tuple.id := step.tuple.senderId] else senders
  }

  /** The tuples of the flush round under way. */
  function Flushing(s: Task): seq<string> {
    match s.flush
    case Idle => []
    case Snapshotted(_, ids) => ids
    case Appended(ids) => ids
  }

  /** ACKed, or about to be. */
  predicate OnItsWay(s: Task, id: string) {
    id in s.mgr.pendingAcks || id in Flushing(s) || id in s.acked
  }

  ghost predicate SendersMatch(s: Task, senders: map<string, string>) {
    forall id :: id in s.stdin ==>
      && id in s.mgr.received && s.mgr.received[id].tupleId == id
      && id in senders && senders[id] == s.mgr.received[id].senderId
  }

  ghost predicate OnlyRead(s: Task) {
    forall id :: id in s.mgr.pendingAcks || id in Flushing(s) ==> id in s.stdin
  }

  ghost predicate AckedHaveSenders(s: Task, senders: map<string, string>) {
    forall id :: id in s.acked ==> id in s.mgr.received && id in senders && senders[id] != ""
  }

  ghost predicate NoneForgotten(s: Task) {
    forall id :: id in s.stdin && IsProcessed(s, id) && s.mgr.received[id].senderId != "" ==> OnItsWay(s, id)
  }

  ghost predicate AckInv(s: Task, senders: map<string, string>) {
    SendersMatch(s, senders) && OnlyRead(s) && AckedHaveSenders(s, senders) && NoneForgotten(s)
  }

  // ---- Every step keeps it ----

  lemma ReceiveAcks(s: Task, step: Step, senders: map<string, string>)
    requires DriverOk(s) && AckInv(s, senders) && Enabled(s, step) && step.Receive?
    ensures AckInv(Next(s, step), Noted(s, step, senders))
  {
  }

  /** Work on one tuple; if that completes it, it goes on the list of pending ACKs. */
  ghost predicate WorksOn(s: Task, t: Task, id: string) {
    && t.stdin == s.stdin && t.flush == s.flush && t.acked == s.acked
    && id in s.stdin && id in s.mgr.received && id in t.mgr.received && !IsProcessed(s, id)
    && t.mgr.received == s.mgr.received[id := t.mgr.received[id]]
    && t.mgr.received[id].senderId == s.mgr.received[id].senderId
    && t.mgr.received[id].tupleId == s.mgr.received[id].tupleId
    && t.mgr.pendingAcks == s.mgr.pendingAcks + (if IsProcessed(t, id) then [id] else [])
  }

  lemma LineWorks(s: Task, origin: string, batch: seq<Tuple>)
    requires DriverOk(s) && Enabled(s, ReadLine(origin, batch))
    ensures WorksOn(s, Next(s, ReadLine(origin, batch)), origin)
  {
  }

  lemma CountWorks(s: Task)
    requires DriverOk(s) && Enabled(s, CountOutput)
    ensures WorksOn(s, Next(s, CountOutput), s.driver.origin)
  {
  }

  lemma WorkAcks(s: Task, t: Task, id: string, senders: map<string, string>)
    requires AckInv(s, senders) && WorksOn(s, t, id)
    ensures AckInv(t, senders)
  {
  }

  lemma CompletionAcks(s: Task, step: Step, senders: map<string, string>)
    requires DriverOk(s) && AckInv(s, senders) && Enabled(s, step) && (step.ReadLine? || step.CountOutput?)
    ensures AckInv(Next(s, step), senders)
  {
    if step.ReadLine? {
      LineWorks(s, step.origin, step.batch);
      WorkAcks(s, Next(s, step), step.origin, senders);
    } else {
      CountWorks(s);
      WorkAcks(s, Next(s, step), s.driver.origin, senders);
    }
  }

  lemma FlushAcks(s: Task, step: Step, senders: map<string, string>)
    requires AckInv(s, senders) && Enabled(s, step)
    requires step.FlushSnapshot? || step.FlushAppend? || step.FlushAck?
    ensures AckInv(Next(s, step), senders)
  {
  }

  lemma CrashAcks(s: Task, step: Step, senders: map<string, string>)
    requires AcksCovered(s) && AckInv(s, senders) && Enabled(s, step) && step.Crash?
    ensures AckInv(Next(s, step), senders)
  {
    var t := Next(s, step);
    DurableStep(s, step);
    RestoredIsRecorded(t.durable);
  }

  lemma MergeAcks(s: Task, step: Step, senders: map<string, string>)
    requires AckInv(s, senders) && Enabled(s, step) && step.Merge?
    ensures AckInv(Next(s, step), senders)
  {
    MergeKeepsReceived(s, step.log);
  }

  lemma StepAcks(s: Task, step: Step, senders: map<string, string>)
    requires DriverOk(s) && AcksCovered(s) && AckInv(s, senders) && Enabled(s, step)
    ensures AckInv(Next(s, step), Noted(s, step, senders))
  {
    match step
    case Receive(_, _) => ReceiveAcks(s, step, senders);
    case ReadLine(_, _) => CompletionAcks(s, step, senders);
    case CountOutput => CompletionAcks(s, step, senders);
    case FlushSnapshot => FlushAcks(s, step, senders);
    case FlushAppend => FlushAcks(s, step, senders);
    case FlushAck => FlushAcks(s, step, senders);
    case Crash(_) => CrashAcks(s, step, senders);
    case Merge(_, _) => MergeAcks(s, step, senders);
    case _ =>
  }

  lemma {:induction false} RunAcks(name: string, isFinalStage: bool, steps: seq<Step>)
    requires Legal(Init(name, isFinalStage), steps)
    ensures AckInv(Exec(Init(name, isFinalStage), steps), Senders(Init(name, isFinalStage), steps))
  {
    var s0 := Init(name, isFinalStage);
    InitInv(name, isFinalStage);
    if steps != [] {
      var init, last := steps[..|steps| - 1], steps[|steps| - 1];
      RunAcks(name, isFinalStage, init);
      RunInv(s0, init);
      StepAcks(Exec(s0, init), last, Senders(s0, init));
    }
  }

  // ---- The theorems ----

  /** In every run, each tuple read from stdin and processed whose sender is known is ACKed, or its ACK is
      pending or in the flush round under way; and nothing is ACKed that had no sender or is not durable. */
  lemma ProcessedIsAcked(name: string, isFinalStage: bool, steps: seq<Step>, id: string)
    requires Legal(Init(name, isFinalStage), steps)
    ensures var s, senders := Exec(Init(name, isFinalStage), steps), Senders(Init(name, isFinalStage), steps);
            && (id in s.stdin && IsProcessed(s, id) ==> id in senders && (senders[id] != "" ==> OnItsWay(s, id)))
            && (id in s.mgr.pendingAcks || id in Flushing(s) ==> id in s.mgr.received && s.mgr.received[id].tupleId == id)
            && (id in s.acked ==> id in senders && senders[id] != "" && id in RecIds(s.durable))
  {
    RunAcks(name, isFinalStage, steps);
    FlushPathDurability(name, isFinalStage, steps);
  }

  ghost predicate SameRound(steps: seq<Step>) {
    forall step :: step in steps ==> !step.FlushAck? && !step.Crash?
  }

  lemma RoundStep(s: Task, step: Step, id: string)
    requires DriverOk(s) && StdinOk(s) && Enabled(s, step) && !step.FlushAck? && !step.Crash? && !s.flush.Idle?
    requires id in s.stdin && s.mgr.received[id].senderId != ""
    ensures var t := Next(s, step);
            && !t.flush.Idle? && Flushing(t) == Flushing(s) && t.acked == s.acked
            && id in t.stdin && id in t.mgr.received && t.mgr.received[id].senderId != ""
  {
    if step.Merge? {
      MergeKeepsReceived(s, step.log);
    }
  }

  lemma {:induction false} RoundGoesOn(s: Task, steps: seq<Step>, id: string)
    requires Inv(s) && !s.flush.Idle? && Legal(s, steps) && SameRound(steps)
    requires id in s.stdin && s.mgr.received[id].senderId != ""
    ensures var t := Exec(s, steps);
            && !t.flush.Idle? && Flushing(t) == Flushing(s) && t.acked == s.acked
            && id in t.mgr.received && t.mgr.received[id].senderId != "" && id in t.stdin
  {
    if steps != [] {
      RoundGoesOn(s, steps[..|steps| - 1], id);
      RunInv(s, steps[..|steps| - 1]);
      RoundStep(Exec(s, steps[..|steps| - 1]), steps[|steps| - 1], id);
    }
  }

  /** A flush round ACKs everything that was processed when it began, whatever steps come in between. */
  lemma FlushRoundAcks(name: string, isFinalStage: bool, before: seq<Step>, round: seq<Step>, id: string)
    requires Legal(Init(name, isFinalStage), before)
    requires var s := Exec(Init(name, isFinalStage), before);
             && Enabled(s, FlushSnapshot)
             && id in s.stdin && IsProcessed(s, id) && s.mgr.received[id].senderId != ""
    requires var s := Exec(Init(name, isFinalStage), before);
             && Legal(Next(s, FlushSnapshot), round) && SameRound(round)
             && Enabled(Exec(Next(s, FlushSnapshot), round), FlushAck)
    ensures var s := Exec(Init(name, isFinalStage), before);
            id in Next(Exec(Next(s, FlushSnapshot), round), FlushAck).acked
  {
    var s := Exec(Init(name, isFinalStage), before);
    InitInv(name, isFinalStage);
    RunInv(Init(name, isFinalStage), before);
    RunAcks(name, isFinalStage, before);
    StepInv(s, FlushSnapshot);
    assert OnItsWay(s, id);
    RoundGoesOn(Next(s, FlushSnapshot), round, id);
  }

  // ---- Each tuple is queued once ----

  ghost predicate Distinct(ids: seq<string>) {
    forall i, j :: 0 <= i < j < |ids| ==> ids[i] != ids[j]
  }

  ghost predicate QueuedOnce(s: Task) {
    && Distinct(s.mgr.pendingAcks) && Distinct(Flushing(s))
    && (forall id :: id in s.mgr.pendingAcks ==> id !in Flushing(s))
    && (forall id :: id in s.mgr.pendingAcks || id in Flushing(s) ==> IsProcessed(s, id) && id !in s.acked)
  }

  lemma AckedAreProcessed(s: Task)
    requires Inv(s)
    ensures forall id :: id in s.acked ==> IsProcessed(s, id)
  {
    forall id | id in s.acked ensures IsProcessed(s, id) {
      RecordedIsProcessed(s, id);
      assert id in RecIds(s.Log());
    }
  }

  lemma WorkQueues(s: Task, t: Task, id: string)
    requires QueuedOnce(s) && WorksOn(s, t, id) && id !in s.acked
    ensures QueuedOnce(t)
  {
    assert Flushing(t) == Flushing(s);
  }

  lemma FlushQueues(s: Task, step: Step)
    requires QueuedOnce(s) && Enabled(s, step)
    requires step.FlushSnapshot? || step.FlushAppend? || step.FlushAck?
    ensures QueuedOnce(Next(s, step))
  {
  }

  lemma ProcessedStays(s: Task, step: Step)
    requires DriverOk(s) && Enabled(s, step) && (step.Receive? || step.Merge?)
    ensures forall id :: IsProcessed(s, id) ==> IsProcessed(Next(s, step), id)
    ensures var t := Next(s, step);
            t.mgr.pendingAcks == s.mgr.pendingAcks && t.flush == s.flush && t.acked == s.acked
  {
    if step.Merge? {
      MergeKeepsReceived(s, step.log);
    }
  }

  lemma OtherQueues(s: Task, step: Step)
    requires DriverOk(s) && QueuedOnce(s) && Enabled(s, step)
    requires !step.ReadLine? && !step.CountOutput? && !step.FlushSnapshot? && !step.FlushAppend? && !step.FlushAck?
    ensures QueuedOnce(Next(s, step))
  {
    if step.Receive? || step.Merge? {
      ProcessedStays(s, step);
    }
  }

  /** In every run, no tuple waits for an ACK twice, and none that was ACKed by a flush waits for one again. */
  lemma {:induction false} RunQueuesOnce(name: string, isFinalStage: bool, steps: seq<Step>)
    requires Legal(Init(name, isFinalStage), steps)
    ensures QueuedOnce(Exec(Init(name, isFinalStage), steps))
  {
    if steps != [] {
      var init, last := steps[..|steps| - 1], steps[|steps| - 1];
      var s := Exec(Init(name, isFinalStage), init);
      RunQueuesOnce(name, isFinalStage, init);
      InitInv(name, isFinalStage);
      RunInv(Init(name, isFinalStage), init);
      AckedAreProcessed(s);
      match last
      case ReadLine(origin, batch) =>
        LineWorks(s, origin, batch);
        WorkQueues(s, Next(s, last), origin);
      case CountOutput =>
        CountWorks(s);
        WorkQueues(s, Next(s, last), s.driver.origin);
      case FlushSnapshot => FlushQueues(s, last);
      case FlushAppend => FlushQueues(s, last);
      case FlushAck => FlushQueues(s, last);
      case _ => OtherQueues(s, last);
    }
  }
}
