/** What a task sends again and when, and what its log says about it: over every run, when each tracked
    tuple is due for a retry, and that each message goes out with one SENT record. */
module Resending {
  import opened Wal
  import opened ExactlyOnce
  import opened TaskRuns
  import opened TaskTheorems

  // ---- What a run writes to the log ----

  /** What completing a tuple writes. */
  function Receipt(s: Task, id: string, count: int): seq<Record>
    requires id in s.mgr.received
  {
    [REC(id, s.mgr.received[id].(processed := true, expectedOutputs := count, outputCount := count))]
  }

  /** The records a step writes: a REC once the last output is counted, a SENT with every message, an ACK for
      a tracked tuple. Flushing writes none, it only moves them. */
  ghost function Written(s: Task, step: Step): seq<Record>
    requires DriverOk(s) && Enabled(s, step)
  {
    match step
    case ReadLine(origin, batch) => if batch == [] then Receipt(s, origin, 0) else []
    case CountOutput =>
      var d := s.driver;
      if d.next + 1 == |d.batch| then Receipt(s, d.origin, |d.batch|) else []
    case Forward(target, now) =>
      var d := s.driver;
      if s.mgr.isFinalStage || !HasAddress(target) then []
      else
        var o := d.batch[d.next].(senderId := s.name, taskId := target.taskId);
        [SENT(o.id, SentTuple(o, now, d.origin, target.address))]
    case RetrySend(id, address, now) =>
      var st := s.retrying[id];
      if s.mgr.isFinalStage || st.destination == "" then []
      else [SENT(st.tuple.id, SentTuple(st.tuple, now, st.originalId, address))]
    case AckArrives(id) => if !s.mgr.isFinalStage && id in s.mgr.sent then [ACK(id)] else []
    case _ => []
  }

  ghost function WrittenBy(s: Task, steps: seq<Step>): seq<Record>
    requires Inv(s) && Legal(s, steps)
  {
    if steps == [] then []
    else
      var init := steps[..|steps| - 1];
      RunInv(s, init);
      WrittenBy(s, init) + Written(Exec(s, init), steps[|steps| - 1])
  }

  lemma BufferGrows(s: Task, step: Step)
    requires DriverOk(s) && Enabled(s, step) && !step.FlushSnapshot? && !step.Crash? && !step.Merge?
    ensures Next(s, step).mgr.writeBuffer == s.mgr.writeBuffer + Written(s, step)
  {
  }

  lemma StepWrites(s: Task, step: Step)
    requires DriverOk(s) && Enabled(s, step) && !step.Crash? && !step.Merge?
    ensures Next(s, step).Log() == s.Log() + Written(s, step)
  {
    if !step.FlushSnapshot? {
      BufferGrows(s, step);
      SameFront(s, step);
    }
  }

  lemma SameFront(s: Task, step: Step)
    requires Enabled(s, step) && !step.Crash? && !step.Merge? && !step.FlushSnapshot?
    ensures Next(s, step).durable + Next(s, step).Inflight() == s.durable + s.Inflight()
  {
  }

  predicate Undisturbed(steps: seq<Step>) {
    forall step :: step in steps ==> !step.Crash? && !step.Merge?
  }

  lemma WritesOn(log: seq<Record>, before: seq<Record>, more: seq<Record>, mid: seq<Record>, after: seq<Record>)
    requires mid == log + before && after == mid + more
    ensures after == log + (before + more)
  {
  }

  /** What has been logged stays in front of the log, the records a run writes follow in order. */
  lemma {:induction false} LogIsWhatWasWritten(s: Task, steps: seq<Step>)
    requires Inv(s) && Legal(s, steps) && Undisturbed(steps)
    ensures Exec(s, steps).Log() == s.Log() + WrittenBy(s, steps)
  {
    if steps != [] {
      var init, last := steps[..|steps| - 1], steps[|steps| - 1];
      var t := Exec(s, init);
      LogIsWhatWasWritten(s, init);
      RunInv(s, init);
      StepWrites(t, last);
      WritesOn(s.Log(), WrittenBy(s, init), Written(t, last), t.Log(), Exec(s, steps).Log());
    }
  }

  // ---- Messages and SENT records ----

  /** The messages the SENT records of a log stand for, in order. */
  function SendsIn(log: seq<Record>): seq<Message> {
    if log == [] then []
    else
      var before, last := SendsIn(log[..|log| - 1]), log[|log| - 1];
      if last.SENT? then before + [Message(last.sent.destination, last.sent.tuple)] else before
  }

  lemma {:induction false} SendsAppend(a: seq<Record>, b: seq<Record>)
    ensures SendsIn(a + b) == SendsIn(a) + SendsIn(b)
  {
    if b == [] {
      assert a + b == a;
    } else {
      SendsAppend(a, b[..|b| - 1]);
      assert (a + b)[..|a + b| - 1] == a + b[..|b| - 1];
    }
  }

  /** The final stage retries nothing. */
  ghost predicate FinalQuiet(s: Task) {
    s.mgr.isFinalStage ==> s.retrying == map[]
  }

  lemma StaysQuiet(s: Task, step: Step)
    requires FinalQuiet(s) && Enabled(s, step)
    ensures FinalQuiet(Next(s, step))
  {
    FinalStageStays(s, step);
    if step.RetrySnapshot? {
      assert s.mgr.isFinalStage ==> s.mgr.DueSends(step.now, step.interval) == map[];
    }
  }

  lemma PostIsWritten(s: Task, step: Step)
    requires DriverOk(s) && FinalQuiet(s) && Enabled(s, step)
    ensures SendsIn(Written(s, step)) == Posted(s, step)
  {
    var w := Written(s, step);
    if w != [] {
      assert w[..0] == [] && SendsIn(w[..0]) == [];
    }
  }

  lemma {:induction false} QuietRun(s: Task, steps: seq<Step>)
    requires FinalQuiet(s) && Legal(s, steps)
    ensures FinalQuiet(Exec(s, steps))
  {
    if steps != [] {
      QuietRun(s, steps[..|steps| - 1]);
      StaysQuiet(Exec(s, steps[..|steps| - 1]), steps[|steps| - 1]);
    }
  }

  lemma {:induction false} PostsAreWritten(s: Task, steps: seq<Step>)
    requires Inv(s) && FinalQuiet(s) && Legal(s, steps)
    ensures SendsIn(WrittenBy(s, steps)) == PostedBy(s, steps)
  {
    if steps != [] {
      var init, last := steps[..|steps| - 1], steps[|steps| - 1];
      PostsAreWritten(s, init);
      RunInv(s, init);
      QuietRun(s, init);
      PostIsWritten(Exec(s, init), last);
      SendsAppend(WrittenBy(s, init), Written(Exec(s, init), last));
    }
  }

  /** In every run without crash and merge, the SENT records written are the messages sent: each message once,
      with its destination, in order. */
  lemma EveryMessageIsLoggedOnce(s: Task, steps: seq<Step>)
    requires Inv(s) && FinalQuiet(s) && Legal(s, steps) && Undisturbed(steps)
    ensures SendsIn(Exec(s, steps).Log()) == SendsIn(s.Log()) + PostedBy(s, steps)
  {
    LogIsWhatWasWritten(s, steps);
    PostsAreWritten(s, steps);
    SendsAppend(s.Log(), WrittenBy(s, steps));
  }

  // ---- When a tracked tuple is due ----

  /** When a tuple was last sent, as the log tells, and when it was last sent or picked for a retry. */
  datatype Times = Never | At(sent: int, touched: int)

  function FateTimes(fate: Fate, before: Times): Times {
    if fate.Pending? then At(fate.sent.sentAt, fate.sent.sentAt) else before
  }

  /** The time a step carries. */
  function Clock(step: Step): int {
    match step
    case Forward(_, now) => now
    case RetrySend(_, _, now) => now
    case RetrySnapshot(now, _) => now
    case _ => 0
  }

  /** A message about the tuple sets both times; a scan touches it when it was last touched an interval ago
      or earlier; a crash and a merge leave the time of the last SENT record that was read. */
  ghost function After(s: Task, step: Step, id: string, before: Times): Times
    requires Enabled(s, step)
  {
    if Posted(s, step) != [] && Posted(s, step)[0].tuple.id == id then At(Clock(step), Clock(step))
    else
      match step
      case RetrySnapshot(now, interval) =>
        if before.At? && now - before.touched >= interval then before.(touched := now) else before
      case Crash(kept) => FateTimes(SendFate((s.durable + s.Inflight())[..kept], id), Never)
      case Merge(log, _) => FateTimes(SendFate(log, id), before)
      case _ => before
  }

  ghost function TimesOf(s: Task, steps: seq<Step>, id: string): Times
    requires Legal(s, steps)
  {
    if steps == [] then Never
    else
      var init := steps[..|steps| - 1];
      After(Exec(s, init), steps[|steps| - 1], id, TimesOf(s, init, id))
  }

  ghost predicate TimesMatch(s: Task, id: string, times: Times) {
    id in s.mgr.sent ==>
      && times.At? && s.mgr.sent[id].sentAt == times.touched
      && SendFate(s.Log(), id).Pending? && SendFate(s.Log(), id).sent.sentAt == times.sent
  }

  lemma FateOfAppend(log: seq<Record>, r: Record, id: string)
    ensures SendFate(log + [r], id) ==
            if r.SENT? && r.id == id then Pending(r.sent)
            else if r.ACK? && r.id == id then Acked
            else SendFate(log, id)
  {
    assert (log + [r])[..|log|] == log;
  }

  lemma {:induction false} FateOfConcat(a: seq<Record>, b: seq<Record>, id: string)
    ensures SendFate(a + b, id) == if SendFate(b, id).Untouched? then SendFate(a, id) else SendFate(b, id)
  {
    if b == [] {
      assert a + b == a;
    } else {
      FateOfConcat(a, b[..|b| - 1], id);
      FateOfAppend(a + b[..|b| - 1], b[|b| - 1], id);
      assert a + b == a + b[..|b| - 1] + [b[|b| - 1]];
    }
  }

  /** What each step but crash and merge does to the sent map, by the records it writes. */
  lemma SendsFollowLog(s: Task, step: Step)
    requires DriverOk(s) && Enabled(s, step) && !s.mgr.isFinalStage
    requires !step.Crash? && !step.Merge? && !step.RetrySnapshot? && !step.RetryRedirect?
    ensures var w := Written(s, step);
            && |w| <= 1
            && Next(s, step).mgr.sent == if w == [] then s.mgr.sent else Apply(Maps(s.mgr.received, s.mgr.sent), w[0]).sent
  {
  }

  /** One record more, and what it does to the sent map. */
  lemma RecordTimes(s: Task, t: Task, r: Record, id: string, before: Times)
    requires TimesMatch(s, id, before) && t.Log() == s.Log() + [r]
    requires t.mgr.sent == Apply(Maps(s.mgr.received, s.mgr.sent), r).sent
    ensures TimesMatch(t, id, if r.SENT? && r.id == id then At(r.sent.sentAt, r.sent.sentAt) else before)
  {
    FateOfAppend(s.Log(), r, id);
  }

  lemma LoggedTimes(s: Task, step: Step, id: string, before: Times)
    requires DriverOk(s) && Enabled(s, step) && !s.mgr.isFinalStage && TimesMatch(s, id, before)
    requires !step.Crash? && !step.Merge? && !step.RetrySnapshot? && !step.RetryRedirect?
    ensures TimesMatch(Next(s, step), id, After(s, step, id, before))
  {
    var t, w := Next(s, step), Written(s, step);
    StepWrites(s, step);
    SendsFollowLog(s, step);
    WrittenTimes(s, step);
    if w == [] {
      assert t.Log() == s.Log();
    } else {
      assert w == [w[0]];
      RecordTimes(s, t, w[0], id, before);
    }
  }

  lemma WrittenTimes(s: Task, step: Step)
    requires DriverOk(s) && Enabled(s, step) && !s.mgr.isFinalStage
    ensures var w, p := Written(s, step), Posted(s, step);
            if p == [] then w == [] || !w[0].SENT?
            else w != [] && w[0].SENT? && w[0].id == p[0].tuple.id && w[0].sent.sentAt == Clock(step)
  {
  }

  lemma CrashTimes(s: Task, step: Step, id: string, before: Times)
    requires Enabled(s, step) && step.Crash?
    ensures TimesMatch(Next(s, step), id, After(s, step, id, before))
  {
    var t, log := Next(s, step), (s.durable + s.Inflight())[..step.kept];
    assert t.Log() == log;
    ReplayLatestWins(EMPTY, log, id);
  }

  lemma MergeTimes(s: Task, step: Step, id: string, before: Times)
    requires Enabled(s, step) && step.Merge? && TimesMatch(s, id, before)
    ensures TimesMatch(Next(s, step), id, After(s, step, id, before))
  {
    var t, tail := Next(s, step), s.Inflight() + s.mgr.writeBuffer;
    MergedLog(s, step.log, step.logOutputs);
    assert s.Log() == s.durable + tail;
    FateOfConcat(s.durable, tail, id);
    FateOfConcat(s.durable, step.log, id);
    FateOfConcat(s.durable + step.log, tail, id);
    FatesTouchTheirIds(step.log, id);
    FatesTouchTheirIds(s.Log(), id);
    ReplayLatestWins(Maps(s.mgr.received, s.mgr.sent), step.log, id);
  }

  lemma ScanTimes(s: Task, step: Step, id: string, before: Times)
    requires Enabled(s, step) && !s.mgr.isFinalStage && (step.RetrySnapshot? || step.RetryRedirect?)
    requires TimesMatch(s, id, before)
    ensures TimesMatch(Next(s, step), id, After(s, step, id, before))
  {
    assert Next(s, step).Log() == s.Log();
  }

  lemma StepTimes(s: Task, step: Step, id: string, before: Times)
    requires DriverOk(s) && !s.mgr.isFinalStage && Enabled(s, step) && TimesMatch(s, id, before)
    ensures TimesMatch(Next(s, step), id, After(s, step, id, before))
  {
    match step
    case RetrySnapshot(_, _) => ScanTimes(s, step, id, before);
    case RetryRedirect(_, _) => ScanTimes(s, step, id, before);
    case Crash(_) => CrashTimes(s, step, id, before);
    case Merge(_, _) => MergeTimes(s, step, id, before);
    case _ => LoggedTimes(s, step, id, before);
  }

  lemma {:induction false} RunTimes(name: string, steps: seq<Step>, id: string)
    requires Legal(Init(name, false), steps)
    ensures TimesMatch(Exec(Init(name, false), steps), id, TimesOf(Init(name, false), steps, id))
  {
    if steps != [] {
      var s0, init := Init(name, false), steps[..|steps| - 1];
      RunTimes(name, init, id);
      InitInv(name, false);
      RunInv(s0, init);
      RunFinalStageStays(s0, init);
      StepTimes(Exec(s0, init), steps[|steps| - 1], id, TimesOf(s0, init, id));
    }
  }

  /** In every run, a scan picks for a retry exactly the tracked tuples that were last sent or picked an
      interval ago or earlier, each as it is tracked. */
  lemma RetriedIffDue(name: string, steps: seq<Step>, id: string, now: int, interval: int)
    requires Legal(Init(name, false), steps)
    requires Enabled(Exec(Init(name, false), steps), RetrySnapshot(now, interval))
    ensures var s, times := Exec(Init(name, false), steps), TimesOf(Init(name, false), steps, id);
            var t := Next(s, RetrySnapshot(now, interval));
            && (id in s.mgr.sent ==> times.At?)
            && (id in t.retrying <==> id in s.mgr.sent && now - times.touched >= interval)
            && (id in t.retrying ==> t.retrying[id] == s.mgr.sent[id].(sentAt := now))
            && t.mgr.sent.Keys == s.mgr.sent.Keys
  {
    RunTimes(name, steps, id);
    RunFinalStageStays(Init(name, false), steps);
  }

  /** The final stage sends no task anything. */
  lemma {:induction false} FinalStageSendsNothing(name: string, steps: seq<Step>)
    requires Legal(Init(name, true), steps)
    ensures PostedBy(Init(name, true), steps) == []
  {
    if steps != [] {
      var init := steps[..|steps| - 1];
      FinalStageSendsNothing(name, init);
      QuietRun(Init(name, true), init);
      RunFinalStageStays(Init(name, true), init);
    }
  }

  // ---- Who a message says it is from, and where a retry goes ----

  /** The retried tuples redirected since the last scan, and to which task. */
  function Redirects(steps: seq<Step>): map<string, string> {
    if steps == [] then map[] else RedirectsAfter(Redirects(steps[..|steps| - 1]), steps[|steps| - 1])
  }

  function RedirectsAfter(before: map<string, string>, step: Step): map<string, string> {
    match step
    case RetrySnapshot(_, _) => map[]
    case RetryRedirect(id, taskId) => before[id := taskId]
    case _ => before
  }

  /** The retry callback redirects each tuple before it sends it. */
  predicate RedirectsFirst(steps: seq<Step>) {
    steps == [] ||
    (RedirectsFirst(steps[..|steps| - 1]) &&
     (steps[|steps| - 1].RetrySend? ==> steps[|steps| - 1].id in Redirects(steps[..|steps| - 1])))
  }

  ghost predicate OwnRetries(s: Task, name: string, redirects: map<string, string>) {
    && s.name == name
    && forall id :: id in redirects && id in s.retrying ==>
         s.retrying[id].tuple.senderId == name && s.retrying[id].tuple.taskId == redirects[id]
  }

  lemma StepKeepsOwn(s: Task, step: Step, name: string, redirects: map<string, string>)
    requires Enabled(s, step) && OwnRetries(s, name, redirects)
    ensures OwnRetries(Next(s, step), name, RedirectsAfter(redirects, step))
  {
  }

  /** In every run, merged logs of killed tasks included, each message names the task that sends it, so that
      its ACK comes back to a task that is still there. */
  lemma {:induction false} MessagesNameTheirSender(name: string, isFinalStage: bool, steps: seq<Step>)
    requires Legal(Init(name, isFinalStage), steps) && RedirectsFirst(steps)
    ensures OwnRetries(Exec(Init(name, isFinalStage), steps), name, Redirects(steps))
    ensures forall m :: m in PostedBy(Init(name, isFinalStage), steps) ==> m.tuple.senderId == name
  {
    if steps != [] {
      var init := steps[..|steps| - 1];
      MessagesNameTheirSender(name, isFinalStage, init);
      StepKeepsOwn(Exec(Init(name, isFinalStage), init), steps[|steps| - 1], name, Redirects(init));
    }
  }

  /** A retry goes to the task it was last redirected to, whatever task the tuple first went to. */
  lemma RetriesGoWhereRedirected(name: string, isFinalStage: bool, steps: seq<Step>, id: string, address: string, now: int)
    requires Legal(Init(name, isFinalStage), steps) && RedirectsFirst(steps) && id in Redirects(steps)
    requires Enabled(Exec(Init(name, isFinalStage), steps), RetrySend(id, address, now))
    ensures var s := Exec(Init(name, isFinalStage), steps);
            s.retrying[id].destination == "" ||
            Posted(s, RetrySend(id, address, now)) ==
              [Message(address, s.retrying[id].tuple.(senderId := name, taskId := Redirects(steps)[id]))]
  {
    MessagesNameTheirSender(name, isFinalStage, steps);
  }
}
