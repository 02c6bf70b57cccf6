/** The loop that reads a task's output lines and forwards them (nodemanager.go), and that what it
    does to the manager is a run of the task's transition system. */
module TaskOutput {
  import opened Wal
  import opened ExactlyOnce
  import opened Routing
  import TaskRuns
  import TaskTheorems

  /** A line of a task's stdout; blank and malformed ones are skipped. */
  datatype Line = Skipped | Outputs(origin: string, batch: seq<Tuple>)

  /** What forwarding needs: the task's name and targets, the key hash, the time. */
  datatype Route = Route(name: string, targets: map<string, string>, hash: string -> nat, now: int)

  ghost function TargetOf(r: Route, t: Tuple): TaskRuns.Target {
    var (id, address) := Select(r.targets, r.hash(t.key));
    TaskRuns.To(id, address)
  }

  ghost function Sent(m: Manager, r: Route, t: Tuple, origin: string): Manager {
    TaskRuns.Forwarded(m, r.name, t, origin, TargetOf(r, t), r.now)
  }

  ghost function SentAndCounted(m: Manager, r: Route, t: Tuple, origin: string): Manager {
    Sent(m, r, t, origin).Increment(origin).0
  }

  /** Forwarding and counting one output after the other. */
  ghost function Emitted(m: Manager, r: Route, origin: string, batch: seq<Tuple>): Manager {
    if batch == [] then m
    else
      SentAndCounted(Emitted(m, r, origin, batch[..|batch| - 1]), r, batch[|batch| - 1], origin)
  }

  ghost function ReadLines(m: Manager, r: Route, lines: seq<Line>): Manager {
    if lines == [] then m
    else
      var before, last := ReadLines(m, r, lines[..|lines| - 1]), lines[|lines| - 1];
      if last.Skipped? then before
      else Emitted(before.SetExpected(last.origin, |last.batch|).0, r, last.origin, last.batch)
  }

  // ---- The messages ----

  /** What forwarding one output puts on the network: nothing at the final stage or without an address. */
  ghost function MessagesFor(isFinalStage: bool, r: Route, t: Tuple): seq<TaskRuns.Message> {
    var target := TargetOf(r, t);
    if isFinalStage || !TaskRuns.HasAddress(target) then []
    else [TaskRuns.Message(target.address, t.(senderId := r.name, taskId := target.taskId))]
  }

  ghost function Outgoing(isFinalStage: bool, r: Route, batch: seq<Tuple>): seq<TaskRuns.Message> {
    if batch == [] then []
    else Outgoing(isFinalStage, r, batch[..|batch| - 1]) + MessagesFor(isFinalStage, r, batch[|batch| - 1])
  }

  ghost function AllOutgoing(isFinalStage: bool, r: Route, lines: seq<Line>): seq<TaskRuns.Message> {
    if lines == [] then []
    else
      var before, last := AllOutgoing(isFinalStage, r, lines[..|lines| - 1]), lines[|lines| - 1];
      if last.Skipped? then before else before + Outgoing(isFinalStage, r, last.batch)
  }

  /** What has been handed to the network, oldest first. Only tracked tuples may be, and whether one
      arrives is not known beforehand. */
  class Network {
    var posted: seq<TaskRuns.Message>

    constructor ()
      ensures posted == []
    {
      posted := [];
    }

    method Post(address: string, t: Tuple, ghost sender: ExactlyOnceManager) returns (answered: bool)
      requires sender.isFinalStage || (t.id in sender.sentTuples && sender.sentTuples[t.id].tuple == t)
      modifies this
      ensures posted == old(posted) + [TaskRuns.Message(address, t)]
    {
      posted := posted + [TaskRuns.Message(address, t)];
      answered := *;
    }
  }

  /** What sending one message comes to. */
  datatype Sending = Accepted | Refused

  /** The tuple is tracked, then sent (`Post` takes only tracked tuples); it stays tracked whatever
      becomes of the message. */
  method SendTuple(net: Network, mgr: ExactlyOnceManager, address: string, t: Tuple, originalId: string, now: int)
    returns (outcome: Sending)
    modifies net, mgr
    ensures mgr.View() == old(mgr.View()).AddSent(t, originalId, address, now)
    ensures net.posted == old(net.posted) + [TaskRuns.Message(address, t)]
  {
    mgr.AddSentTuple(t, originalId, address, now);
    assert mgr.sentTuples == mgr.View().sent;
    var answered := net.Post(address, t, mgr);
    outcome := if answered then Accepted else Refused;
  }

  /** True only if the output was sent and the downstream node took it. */
  method ForwardTupleToDownstream(net: Network, mgr: ExactlyOnceManager, r: Route, t: Tuple, origin: string)
    returns (sent: bool)
    modifies net, mgr
    ensures mgr.View() == Sent(old(mgr.View()), r, t, origin)
    ensures net.posted == old(net.posted) + MessagesFor(mgr.isFinalStage, r, t)
    ensures sent ==> MessagesFor(mgr.isFinalStage, r, t) != []
  {
    if mgr.isFinalStage {
      return false;
    }
    if r.targets == map[] {
      return false;
    }
    var id, address := SelectDownstreamTask(r.targets, t.key, r.hash);
    if id == "" || address == "" {
      return false;
    }
    var outcome := SendTuple(net, mgr, address, t.(senderId := r.name, taskId := id), origin, r.now);
    return outcome == Accepted;
  }

  method ReadTaskOutput(net: Network, mgr: ExactlyOnceManager, r: Route, lines: seq<Line>)
    modifies net, mgr
    ensures mgr.View() == ReadLines(old(mgr.View()), r, lines)
    ensures net.posted == old(net.posted) + AllOutgoing(mgr.isFinalStage, r, lines)
  {
    ghost var start := mgr.View();
    for i := 0 to |lines|
      invariant mgr.View() == ReadLines(start, r, lines[..i])
      invariant net.posted == old(net.posted) + AllOutgoing(mgr.isFinalStage, r, lines[..i])
    {
      assert lines[..i + 1][..i] == lines[..i];
      if lines[i].Outputs? {
        ReadOutputs(net, mgr, r, lines[i].origin, lines[i].batch);
      }
    }
    assert lines[..|lines|] == lines;
  }

  lemma OneMoreEmitted(m: Manager, r: Route, origin: string, batch: seq<Tuple>, k: nat)
    requires k < |batch|
    ensures Emitted(m, r, origin, batch[..k + 1]) ==
            SentAndCounted(Emitted(m, r, origin, batch[..k]), r, batch[k], origin)
  {
    assert batch[..k + 1][..k] == batch[..k];
  }

  lemma OneMoreOutgoing(isFinalStage: bool, r: Route, batch: seq<Tuple>, k: nat)
    requires k < |batch|
    ensures Outgoing(isFinalStage, r, batch[..k + 1]) ==
            Outgoing(isFinalStage, r, batch[..k]) + MessagesFor(isFinalStage, r, batch[k])
  {
    assert batch[..k + 1][..k] == batch[..k];
  }

  method ReadOutputs(net: Network, mgr: ExactlyOnceManager, r: Route, origin: string, batch: seq<Tuple>)
    modifies net, mgr
    ensures mgr.View() == Emitted(old(mgr.View()).SetExpected(origin, |batch|).0, r, origin, batch)
    ensures net.posted == old(net.posted) + Outgoing(mgr.isFinalStage, r, batch)
  {
    var _ := mgr.SetExpectedOutputCount(origin, |batch|);
    ghost var expecting := mgr.View();
    for k := 0 to |batch|
      invariant mgr.View() == Emitted(expecting, r, origin, batch[..k])
      invariant net.posted == old(net.posted) + Outgoing(mgr.isFinalStage, r, batch[..k])
    {
      ghost var before := mgr.View();
      var _ := ForwardTupleToDownstream(net, mgr, r, batch[k], origin);
      var _ := mgr.IncrementOutputCount(origin);
      assert mgr.View() == SentAndCounted(before, r, batch[k], origin);
      OneMoreEmitted(expecting, r, origin, batch, k);
      OneMoreOutgoing(mgr.isFinalStage, r, batch, k);
    }
    assert batch[..|batch|] == batch;
  }

  // ---- The loop is a run of the transition system ----

  ghost function TargetsOf(r: Route, batch: seq<Tuple>): seq<TaskRuns.Target> {
    seq(|batch|, i requires 0 <= i < |batch| => TargetOf(r, batch[i]))
  }

  ghost function StepsOf(r: Route, origin: string, batch: seq<Tuple>, k: nat): seq<TaskRuns.Step>
    requires k <= |batch|
  {
    TaskRuns.LineSteps(origin, batch, TargetsOf(r, batch), r.now, k)
  }

  ghost function ReadSteps(r: Route, lines: seq<Line>): seq<TaskRuns.Step> {
    if lines == [] then []
    else
      var before, last := ReadSteps(r, lines[..|lines| - 1]), lines[|lines| - 1];
      if last.Skipped? then before else before + StepsOf(r, last.origin, last.batch, |last.batch|)
  }

  /** The task once the first k outputs of a line are forwarded and counted. */
  ghost function Progress(s: TaskRuns.Task, r: Route, origin: string, batch: seq<Tuple>, k: nat): TaskRuns.Task
    requires k <= |batch|
  {
    s.(mgr := Emitted(s.mgr.SetExpected(origin, |batch|).0, r, origin, batch[..k]),
       todo := s.todo - {origin}, outputs := s.outputs[origin := batch],
       driver := if k < |batch| then TaskRuns.Emitting(origin, batch, k, false) else TaskRuns.Reading)
  }

  lemma OutputIsTwoSteps(s: TaskRuns.Task, r: Route, origin: string, batch: seq<Tuple>, k: nat)
    requires k < |batch| && s.name == r.name
    ensures var t, forward := Progress(s, r, origin, batch, k), TaskRuns.Forward(TargetOf(r, batch[k]), r.now);
            && TaskRuns.Enabled(t, forward)
            && TaskRuns.Enabled(TaskRuns.Next(t, forward), TaskRuns.CountOutput)
            && TaskRuns.Next(TaskRuns.Next(t, forward), TaskRuns.CountOutput) == Progress(s, r, origin, batch, k + 1)
  {
    assert batch[..k + 1][..k] == batch[..k];
  }

  /** The line's first steps are a legal run that makes this much progress. */
  ghost predicate Progressed(s: TaskRuns.Task, r: Route, origin: string, batch: seq<Tuple>, k: nat) {
    && k <= |batch|
    && TaskRuns.Legal(s, StepsOf(r, origin, batch, k))
    && TaskRuns.Exec(s, StepsOf(r, origin, batch, k)) == Progress(s, r, origin, batch, k)
  }

  lemma OneMoreOutput(s: TaskRuns.Task, r: Route, origin: string, batch: seq<Tuple>, k: nat)
    requires k < |batch| && s.name == r.name && Progressed(s, r, origin, batch, k)
    ensures Progressed(s, r, origin, batch, k + 1)
  {
    var steps, forward := StepsOf(r, origin, batch, k), TaskRuns.Forward(TargetOf(r, batch[k]), r.now);
    OutputIsTwoSteps(s, r, origin, batch, k);
    TaskTheorems.OneMoreStep(s, steps, forward, TaskRuns.Next(Progress(s, r, origin, batch, k), forward));
    TaskTheorems.OneMoreStep(s, steps + [forward], TaskRuns.CountOutput, Progress(s, r, origin, batch, k + 1));
    assert StepsOf(r, origin, batch, k + 1) == steps + [forward] + [TaskRuns.CountOutput];
  }

  lemma NoOutputYet(s: TaskRuns.Task, r: Route, origin: string, batch: seq<Tuple>)
    requires s.driver.Reading? && origin in s.todo
    ensures Progressed(s, r, origin, batch, 0)
  {
    var read := TaskRuns.ReadLine(origin, batch);
    TaskTheorems.OneMoreStep(s, [], read, TaskRuns.Next(s, read));
    assert StepsOf(r, origin, batch, 0) == [] + [read];
  }

  lemma OutputsAreARun(s: TaskRuns.Task, r: Route, origin: string, batch: seq<Tuple>)
    requires s.name == r.name && s.driver.Reading? && origin in s.todo
    ensures Progressed(s, r, origin, batch, |batch|)
  {
    NoOutputYet(s, r, origin, batch);
    for k := 0 to |batch|
      invariant Progressed(s, r, origin, batch, k)
    {
      OneMoreOutput(s, r, origin, batch, k);
    }
  }

  lemma LineIsARun(s: TaskRuns.Task, r: Route, origin: string, batch: seq<Tuple>)
    requires s.name == r.name && s.driver.Reading? && origin in s.todo
    ensures var steps := StepsOf(r, origin, batch, |batch|);
            && TaskRuns.Legal(s, steps)
            && TaskRuns.Exec(s, steps) ==
                 s.(mgr := Emitted(s.mgr.SetExpected(origin, |batch|).0, r, origin, batch),
                    todo := s.todo - {origin}, outputs := s.outputs[origin := batch])
  {
    OutputsAreARun(s, r, origin, batch);
    assert batch[..|batch|] == batch;
  }

  function Origins(lines: seq<Line>): set<string> {
    if lines == [] then {}
    else
      var before, last := Origins(lines[..|lines| - 1]), lines[|lines| - 1];
      if last.Skipped? then before else before + {last.origin}
  }

  /** Each line answers another tuple that was written to stdin and not answered before. */
  predicate OnePerTuple(todo: set<string>, lines: seq<Line>) {
    lines == [] ||
    (var init, last := lines[..|lines| - 1], lines[|lines| - 1];
     OnePerTuple(todo, init) && (last.Outputs? ==> last.origin in todo - Origins(init)))
  }

  lemma {:induction false} RunsCompose(s: TaskRuns.Task, a: seq<TaskRuns.Step>, b: seq<TaskRuns.Step>)
    requires TaskRuns.Legal(s, a) && TaskRuns.Legal(TaskRuns.Exec(s, a), b)
    ensures TaskRuns.Legal(s, a + b)
    decreases |b|
  {
    if b == [] {
      assert a + b == a;
    } else {
      var ab, init := a + b, b[..|b| - 1];
      TaskRuns.LegalUpTo(TaskRuns.Exec(s, a), b);
      RunsCompose(s, a, init);
      TaskTheorems.LegalAppend(s, a, init);
      assert ab[..|ab| - 1] == a + init && ab[|ab| - 1] == b[|b| - 1];
      TaskRuns.LegalWhen(s, ab);
    }
  }

  /** What reading all the lines leaves of the task. */
  ghost predicate Answered(s: TaskRuns.Task, r: Route, lines: seq<Line>, t: TaskRuns.Task) {
    t == s.(mgr := ReadLines(s.mgr, r, lines), todo := s.todo - Origins(lines), outputs := t.outputs)
  }

  lemma AnswerOneMore(s: TaskRuns.Task, r: Route, lines: seq<Line>, t: TaskRuns.Task, u: TaskRuns.Task)
    requires lines != [] && lines[|lines| - 1].Outputs? && Answered(s, r, lines[..|lines| - 1], t)
    requires var last := lines[|lines| - 1];
             u == t.(mgr := Emitted(t.mgr.SetExpected(last.origin, |last.batch|).0, r, last.origin, last.batch),
                     todo := t.todo - {last.origin}, outputs := u.outputs)
    ensures Answered(s, r, lines, u)
  {
    assert u.todo == s.todo - Origins(lines);
  }

  /** With one line per tuple, reading the lines is a legal run: what the loop leaves in the manager
      is what the transition system's steps leave there, and the durable log does not move. */
  lemma {:induction false} ReadingIsARun(s: TaskRuns.Task, r: Route, lines: seq<Line>)
    requires s.name == r.name && s.driver.Reading? && OnePerTuple(s.todo, lines)
    ensures TaskRuns.Legal(s, ReadSteps(r, lines))
    ensures Answered(s, r, lines, TaskRuns.Exec(s, ReadSteps(r, lines)))
  {
    if lines != [] {
      var init, last := lines[..|lines| - 1], lines[|lines| - 1];
      ReadingIsARun(s, r, init);
      if last.Outputs? {
        var before, t := ReadSteps(r, init), TaskRuns.Exec(s, ReadSteps(r, init));
        var steps := StepsOf(r, last.origin, last.batch, |last.batch|);
        LineIsARun(t, r, last.origin, last.batch);
        RunsCompose(s, before, steps);
        TaskTheorems.LegalAppend(s, before, steps);
        AnswerOneMore(s, r, lines, t, TaskRuns.Exec(t, steps));
      }
    }
  }

  // ---- What the loop hands to the network is what the run's steps send ----

  lemma OneMorePosted(s: TaskRuns.Task, steps: seq<TaskRuns.Step>, step: TaskRuns.Step)
    requires TaskRuns.Legal(s, steps) && TaskRuns.Enabled(TaskRuns.Exec(s, steps), step)
    ensures TaskRuns.Legal(s, steps + [step])
    ensures TaskRuns.PostedBy(s, steps + [step]) ==
            TaskRuns.PostedBy(s, steps) + TaskRuns.Posted(TaskRuns.Exec(s, steps), step)
  {
    assert (steps + [step])[..|steps|] == steps;
  }

  lemma LastOfConcat(a: seq<TaskRuns.Step>, b: seq<TaskRuns.Step>)
    requires b != []
    ensures (a + b)[..|a + b| - 1] == a + b[..|b| - 1] && (a + b)[|a + b| - 1] == b[|b| - 1]
  {
  }

  /** Two runs that end in the same step, taken in the same state. */
  lemma PostedLast(s: TaskRuns.Task, ab: seq<TaskRuns.Step>, t: TaskRuns.Task, b: seq<TaskRuns.Step>, before: seq<TaskRuns.Message>)
    requires ab != [] && b != [] && ab[|ab| - 1] == b[|b| - 1]
    requires TaskRuns.Legal(s, ab) && TaskRuns.Legal(t, b)
    requires TaskRuns.Legal(s, ab[..|ab| - 1]) && TaskRuns.Legal(t, b[..|b| - 1])
    requires TaskRuns.Exec(s, ab[..|ab| - 1]) == TaskRuns.Exec(t, b[..|b| - 1])
    requires TaskRuns.PostedBy(s, ab[..|ab| - 1]) == before + TaskRuns.PostedBy(t, b[..|b| - 1])
    ensures TaskRuns.PostedBy(s, ab) == before + TaskRuns.PostedBy(t, b)
  {
  }

  lemma {:induction false} PostedAppend(s: TaskRuns.Task, a: seq<TaskRuns.Step>, b: seq<TaskRuns.Step>)
    requires TaskRuns.Legal(s, a) && TaskRuns.Legal(TaskRuns.Exec(s, a), b)
    ensures TaskRuns.Legal(s, a + b)
    ensures TaskRuns.PostedBy(s, a + b) == TaskRuns.PostedBy(s, a) + TaskRuns.PostedBy(TaskRuns.Exec(s, a), b)
    decreases |b|
  {
    RunsCompose(s, a, b);
    if b == [] {
      assert a + b == a;
    } else {
      var init := b[..|b| - 1];
      TaskRuns.LegalUpTo(TaskRuns.Exec(s, a), b);
      PostedAppend(s, a, init);
      TaskTheorems.LegalAppend(s, a, init);
      LastOfConcat(a, b);
      PostedLast(s, a + b, TaskRuns.Exec(s, a), b, TaskRuns.PostedBy(s, a));
    }
  }

  /** The line's first steps send the messages of its first outputs. */
  ghost predicate Posts(s: TaskRuns.Task, r: Route, origin: string, batch: seq<Tuple>, k: nat)
    requires k <= |batch| && TaskRuns.Legal(s, StepsOf(r, origin, batch, k))
  {
    TaskRuns.PostedBy(s, StepsOf(r, origin, batch, k)) == Outgoing(s.mgr.isFinalStage, r, batch[..k])
  }

  lemma ForwardPosts(s: TaskRuns.Task, r: Route, origin: string, batch: seq<Tuple>, k: nat)
    requires k < |batch| && s.name == r.name && Progressed(s, r, origin, batch, k)
    ensures var t := Progress(s, r, origin, batch, k);
            TaskRuns.Posted(t, TaskRuns.Forward(TargetOf(r, batch[k]), r.now)) ==
            MessagesFor(s.mgr.isFinalStage, r, batch[k])
  {
    TaskRuns.RunFinalStageStays(s, StepsOf(r, origin, batch, k));
  }

  lemma OutputPosts(s: TaskRuns.Task, steps: seq<TaskRuns.Step>, forward: TaskRuns.Step)
    requires TaskRuns.Legal(s, steps) && forward.Forward? && TaskRuns.Enabled(TaskRuns.Exec(s, steps), forward)
    requires TaskRuns.Legal(s, steps + [forward] + [TaskRuns.CountOutput])
    ensures TaskRuns.PostedBy(s, steps + [forward] + [TaskRuns.CountOutput]) ==
            TaskRuns.PostedBy(s, steps) + TaskRuns.Posted(TaskRuns.Exec(s, steps), forward)
  {
    OneMorePosted(s, steps, forward);
    TaskRuns.LegalUpTo(s, steps + [forward] + [TaskRuns.CountOutput]);
    assert (steps + [forward] + [TaskRuns.CountOutput])[..|steps| + 1] == steps + [forward];
    OneMorePosted(s, steps + [forward], TaskRuns.CountOutput);
  }

  lemma OneMorePosts(s: TaskRuns.Task, r: Route, origin: string, batch: seq<Tuple>, k: nat)
    requires k < |batch| && s.name == r.name && Progressed(s, r, origin, batch, k) && Posts(s, r, origin, batch, k)
    requires Progressed(s, r, origin, batch, k + 1)
    ensures Posts(s, r, origin, batch, k + 1)
  {
    var steps, forward := StepsOf(r, origin, batch, k), TaskRuns.Forward(TargetOf(r, batch[k]), r.now);
    assert StepsOf(r, origin, batch, k + 1) == steps + [forward] + [TaskRuns.CountOutput];
    ForwardPosts(s, r, origin, batch, k);
    OutputPosts(s, steps, forward);
    OneMoreOutgoing(s.mgr.isFinalStage, r, batch, k);
  }

  lemma LinePosts(s: TaskRuns.Task, r: Route, origin: string, batch: seq<Tuple>)
    requires s.name == r.name && s.driver.Reading? && origin in s.todo
    ensures Progressed(s, r, origin, batch, |batch|)
    ensures TaskRuns.PostedBy(s, StepsOf(r, origin, batch, |batch|)) == Outgoing(s.mgr.isFinalStage, r, batch)
  {
    NoOutputYet(s, r, origin, batch);
    OneMorePosted(s, [], TaskRuns.ReadLine(origin, batch));
    assert StepsOf(r, origin, batch, 0) == [] + [TaskRuns.ReadLine(origin, batch)];
    for k := 0 to |batch|
      invariant Progressed(s, r, origin, batch, k) && Posts(s, r, origin, batch, k)
    {
      OneMoreOutput(s, r, origin, batch, k);
      OneMorePosts(s, r, origin, batch, k);
    }
    assert batch[..|batch|] == batch;
  }

  /** The messages of ReadTaskOutput's contract are those the legal run sends, in the same order and each as often. */
  lemma {:induction false} ReadingPosts(s: TaskRuns.Task, r: Route, lines: seq<Line>)
    requires s.name == r.name && s.driver.Reading? && OnePerTuple(s.todo, lines)
    ensures TaskRuns.Legal(s, ReadSteps(r, lines))
    ensures TaskRuns.PostedBy(s, ReadSteps(r, lines)) == AllOutgoing(s.mgr.isFinalStage, r, lines)
  {
    if lines != [] {
      var init, last := lines[..|lines| - 1], lines[|lines| - 1];
      ReadingPosts(s, r, init);
      ReadingIsARun(s, r, init);
      if last.Outputs? {
        var before, t := ReadSteps(r, init), TaskRuns.Exec(s, ReadSteps(r, init));
        TaskRuns.RunFinalStageStays(s, before);
        LinePosts(t, r, last.origin, last.batch);
        PostedAppend(s, before, StepsOf(r, last.origin, last.batch, |last.batch|));
      }
    }
  }
}
