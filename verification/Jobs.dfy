/** All tasks of a job, each of which sends, receives and crashes, with scaling: what becomes of
    every output. Any tuple may be delivered to any task at any time, so messages may be lost,
    delayed, repeated and reordered, and the leader's tuples are among them. */
module Jobs {
  import opened Wal
  import opened ExactlyOnce
  import TaskRuns
  import TaskTheorems

  /** A task, its stage, and the outputs it (or a task merged into it) had no address for. */
  datatype Node = Node(stage: nat, task: TaskRuns.Task, dropped: set<string>)

  /** An ACK is on its way to the stage before the one it comes from. */
  datatype Ack = Ack(stage: nat, id: string)

  datatype Job = Job(nStages: nat, nodes: map<string, Node>, acks: set<Ack>)

  datatype Step =
    | Deliver(name: string, tuple: Tuple, stdinOk: bool)
    | DeliverAck(name: string, id: string)
    | Local(name: string, step: TaskRuns.Step)
    | ScaleUp(name: string, stage: nat)
    | ScaleDown(dead: string, keep: string)

  function Init(nStages: nat): Job {
    Job(nStages, map[], {})
  }

  ghost predicate Enabled(j: Job, step: Step) {
    match step
    case Deliver(name, _, _) => name in j.nodes
    case DeliverAck(name, id) => name in j.nodes && Ack(j.nodes[name].stage + 1, id) in j.acks
    case Local(name, r) =>
      !r.Receive? && !r.AckArrives? && !r.Merge? && name in j.nodes && TaskRuns.Enabled(j.nodes[name].task, r)
    case ScaleUp(name, _) => name !in j.nodes
    case ScaleDown(dead, keep) =>
      && dead in j.nodes && keep in j.nodes && dead != keep && j.nodes[dead].stage == j.nodes[keep].stage
      && TaskRuns.Enabled(j.nodes[keep].task, MergeOf(j.nodes[dead]))
  }

  function MergeOf(dead: Node): TaskRuns.Step {
    TaskRuns.Merge(dead.task.durable, dead.task.outputs)
  }

  ghost function Ran(node: Node, step: TaskRuns.Step): Node
    requires TaskRuns.Enabled(node.task, step)
  {
    node.(task := TaskRuns.Next(node.task, step), dropped := node.dropped + TaskTheorems.Dropped(node.task, step))
  }

  function FlushAcks(node: Node): set<Ack> {
    set id | id in node.task.acked :: Ack(node.stage, id)
  }

  /** The survivor of a scale-down. */
  ghost function Absorbed(dead: Node, keep: Node): Node
    requires TaskRuns.Enabled(keep.task, MergeOf(dead))
  {
    var after := Ran(keep, MergeOf(dead));
    after.(dropped := after.dropped + dead.dropped)
  }

  ghost function Next(j: Job, step: Step): Job
    requires Enabled(j, step)
  {
    match step
    case Deliver(name, t, stdinOk) =>
      var node := j.nodes[name];
      j.(nodes := j.nodes[name := Ran(node, TaskRuns.Receive(t, stdinOk))],
         acks := j.acks + (if node.task.mgr.AddReceived(t).1 then {} else {Ack(node.stage, t.id)}))
    case DeliverAck(name, id) =>
      j.(nodes := j.nodes[name := Ran(j.nodes[name], TaskRuns.AckArrives(id))])
    case Local(name, r) =>
      var after := Ran(j.nodes[name], r);
      j.(nodes := j.nodes[name := after], acks := j.acks + FlushAcks(after))
    case ScaleUp(name, stage) =>
      j.(nodes := j.nodes[name := Node(stage, TaskRuns.Init(name, stage == j.nStages), {})])
    case ScaleDown(dead, keep) =>
      j.(nodes := (j.nodes - {dead})[keep := Absorbed(j.nodes[dead], j.nodes[keep])])
  }

  /** The hypothesis: a duplicate reaches a task only once the first copy's REC is durable there. */
  ghost predicate LateDuplicate(j: Job, step: Step)
    requires Enabled(j, step)
  {
    step.Deliver? && step.tuple.id in j.nodes[step.name].task.mgr.received ==>
      step.tuple.id in RecIds(j.nodes[step.name].task.durable)
  }

  ghost predicate Legal(j: Job, steps: seq<Step>)
    decreases |steps|, 0
  {
    steps == [] || (Legal(j, steps[..|steps| - 1]) && Enabled(Exec(j, steps[..|steps| - 1]), steps[|steps| - 1]))
  }

  ghost function Exec(j: Job, steps: seq<Step>): Job
    requires Legal(j, steps)
    decreases |steps|, 1
  {
    if steps == [] then j else Next(Exec(j, steps[..|steps| - 1]), steps[|steps| - 1])
  }

  ghost predicate LateDuplicates(j: Job, steps: seq<Step>)
    requires Legal(j, steps)
  {
    steps == [] ||
    (LateDuplicates(j, steps[..|steps| - 1]) && LateDuplicate(Exec(j, steps[..|steps| - 1]), steps[|steps| - 1]))
  }

  /** Some task of the stage has the tuple's REC in its durable log. */
  ghost predicate DurableAt(nodes: map<string, Node>, stage: nat, id: string) {
    exists n :: n in nodes && nodes[n].stage == stage && id in RecIds(nodes[n].task.durable)
  }

  // ---- The invariant ----

  ghost predicate NodeOk(nStages: nat, node: Node) {
    && TaskRuns.Inv(node.task)
    && (node.task.mgr.isFinalStage <==> node.stage == nStages)
    && (node.stage != nStages ==> TaskTheorems.OutputInv(node.task, node.dropped))
  }

  /** Every ACK in the task's log stands for a REC that is durable one stage on. */
  ghost predicate AcksOk(nodes: map<string, Node>, node: Node) {
    forall id :: id in AckIds(node.task.Log()) ==> DurableAt(nodes, node.stage + 1, id)
  }

  ghost predicate NodesOk(j: Job) {
    forall n :: n in j.nodes ==> NodeOk(j.nStages, j.nodes[n])
  }

  ghost predicate LogsOk(nodes: map<string, Node>) {
    forall n :: n in nodes ==> AcksOk(nodes, nodes[n])
  }

  ghost predicate AcksCovered(j: Job) {
    forall a :: a in j.acks ==> DurableAt(j.nodes, a.stage, a.id)
  }

  ghost predicate Inv(j: Job) {
    NodesOk(j) && LogsOk(j.nodes) && AcksCovered(j)
  }

  // ---- What is durable stays durable ----

  ghost predicate Covered(node: Node, after: map<string, Node>) {
    exists m :: m in after && after[m].stage == node.stage && RecIds(node.task.durable) <= RecIds(after[m].task.durable)
  }

  /** Each task's durable RECs are still durable somewhere in its stage. */
  ghost predicate Kept(before: map<string, Node>, after: map<string, Node>) {
    forall n :: n in before ==> Covered(before[n], after)
  }

  lemma StillDurable(before: map<string, Node>, after: map<string, Node>, stage: nat, id: string)
    requires Kept(before, after) && DurableAt(before, stage, id)
    ensures DurableAt(after, stage, id)
  {
    var n :| n in before && before[n].stage == stage && id in RecIds(before[n].task.durable);
    assert Covered(before[n], after);
  }

  lemma RewrittenIsKept(nodes: map<string, Node>, name: string, node: Node)
    requires name in nodes ==>
               node.stage == nodes[name].stage && RecIds(nodes[name].task.durable) <= RecIds(node.task.durable)
    ensures Kept(nodes, nodes[name := node])
  {
    forall n | n in nodes ensures Covered(nodes[n], nodes[name := node]) {
      assert n in nodes[name := node];
    }
  }

  lemma MergedIsKept(nodes: map<string, Node>, dead: string, keep: string, node: Node)
    requires dead in nodes && keep in nodes && dead != keep && nodes[dead].stage == nodes[keep].stage == node.stage
    requires RecIds(nodes[dead].task.durable) + RecIds(nodes[keep].task.durable) <= RecIds(node.task.durable)
    ensures Kept(nodes, (nodes - {dead})[keep := node])
  {
    var after := (nodes - {dead})[keep := node];
    forall n | n in nodes ensures Covered(nodes[n], after) {
      assert keep in after && (n != dead ==> n in after);
    }
  }

  // ---- One step ----

  lemma RanOk(nStages: nat, node: Node, step: TaskRuns.Step)
    requires NodeOk(nStages, node) && TaskRuns.Enabled(node.task, step)
    requires node.stage == nStages || TaskTheorems.OutputsKnown(step)
    ensures NodeOk(nStages, Ran(node, step))
  {
    TaskRuns.FinalStageStays(node.task, step);
    TaskRuns.StepInv(node.task, step);
    if node.stage != nStages {
      var lost := Ran(node, step).dropped;
      TaskTheorems.MoreLost(node.task, node.dropped, lost);
      TaskTheorems.StepOutputInv(node.task, step, lost);
    }
  }

  lemma MoreRecs(before: seq<Record>, after: seq<Record>)
    requires before <= after
    ensures RecIds(before) <= RecIds(after)
  {
  }

  /** Only an ACK that arrives and a merge bring ACKs into a log. */
  lemma AcksOfStep(s: TaskRuns.Task, step: TaskRuns.Step)
    requires TaskRuns.Enabled(s, step) && !step.Merge?
    ensures AckIds(TaskRuns.Next(s, step).Log()) <= AckIds(s.Log()) + (if step.AckArrives? then {step.id} else {})
  {
  }

  lemma MergeAcks(s: TaskRuns.Task, dead: Node)
    requires TaskRuns.Enabled(s, MergeOf(dead))
    ensures AckIds(TaskRuns.Next(s, MergeOf(dead)).Log()) <= AckIds(s.Log()) + AckIds(dead.task.Log())
    ensures RecIds(dead.task.durable) + RecIds(s.durable) <= RecIds(TaskRuns.Next(s, MergeOf(dead)).durable)
  {
    TaskTheorems.MergedLog(s, dead.task.durable, dead.task.outputs);
  }

  /** A killed task's outputs are known, so its log can be merged. */
  lemma DeadOutputsKnown(nStages: nat, dead: Node)
    requires NodeOk(nStages, dead) && dead.stage != nStages
    ensures TaskTheorems.OutputsKnown(MergeOf(dead))
  {
    var s := dead.task;
    assert s.durable == s.Log()[..|s.durable|];
    TaskTheorems.PrecedePrefix(s.Log(), s.outputs, |s.durable|, dead.dropped);
    TaskTheorems.UnsentWithin(s.durable, s.outputs, dead.dropped);
  }

  lemma MergedOk(nStages: nat, dead: Node, keep: Node)
    requires NodeOk(nStages, dead) && NodeOk(nStages, keep) && dead.stage == keep.stage
    requires TaskRuns.Enabled(keep.task, MergeOf(dead))
    ensures NodeOk(nStages, Absorbed(dead, keep))
  {
    if keep.stage != nStages {
      DeadOutputsKnown(nStages, dead);
    }
    RanOk(nStages, keep, MergeOf(dead));
    if keep.stage != nStages {
      var after := Ran(keep, MergeOf(dead));
      TaskTheorems.MoreLost(after.task, after.dropped, after.dropped + dead.dropped);
    }
  }

  lemma StartedOk(nStages: nat, name: string, stage: nat)
    ensures NodeOk(nStages, Node(stage, TaskRuns.Init(name, stage == nStages), {}))
  {
    TaskRuns.InitInv(name, stage == nStages);
  }

  lemma TaskStepKeepsNodes(j: Job, name: string, step: TaskRuns.Step)
    requires NodesOk(j) && name in j.nodes && TaskRuns.Enabled(j.nodes[name].task, step) && !step.Merge?
    ensures NodesOk(j.(nodes := j.nodes[name := Ran(j.nodes[name], step)]))
  {
    RanOk(j.nStages, j.nodes[name], step);
  }

  lemma StepKeepsNodes(j: Job, step: Step)
    requires NodesOk(j) && Enabled(j, step)
    ensures NodesOk(Next(j, step))
  {
    match step
    case Deliver(name, t, stdinOk) => TaskStepKeepsNodes(j, name, TaskRuns.Receive(t, stdinOk));
    case DeliverAck(name, id) => TaskStepKeepsNodes(j, name, TaskRuns.AckArrives(id));
    case Local(name, r) => TaskStepKeepsNodes(j, name, r);
    case ScaleUp(name, stage) => StartedOk(j.nStages, name, stage);
    case ScaleDown(dead, keep) => MergedOk(j.nStages, j.nodes[dead], j.nodes[keep]);
  }

  lemma RanKeepsRecs(node: Node, step: TaskRuns.Step)
    requires TaskRuns.Enabled(node.task, step)
    ensures RecIds(node.task.durable) <= RecIds(Ran(node, step).task.durable)
  {
    TaskTheorems.DurableStep(node.task, step);
    MoreRecs(node.task.durable, Ran(node, step).task.durable);
  }

  lemma RanIsKept(nodes: map<string, Node>, name: string, step: TaskRuns.Step)
    requires name in nodes && TaskRuns.Enabled(nodes[name].task, step)
    ensures Kept(nodes, nodes[name := Ran(nodes[name], step)])
  {
    RanKeepsRecs(nodes[name], step);
    RewrittenIsKept(nodes, name, Ran(nodes[name], step));
  }

  lemma AbsorbedIsKept(nodes: map<string, Node>, dead: string, keep: string)
    requires dead in nodes && keep in nodes && dead != keep && nodes[dead].stage == nodes[keep].stage
    requires TaskRuns.Enabled(nodes[keep].task, MergeOf(nodes[dead]))
    ensures Kept(nodes, (nodes - {dead})[keep := Absorbed(nodes[dead], nodes[keep])])
  {
    MergeAcks(nodes[keep].task, nodes[dead]);
    MergedIsKept(nodes, dead, keep, Absorbed(nodes[dead], nodes[keep]));
  }

  lemma StepKeepsDurable(j: Job, step: Step)
    requires Enabled(j, step)
    ensures Kept(j.nodes, Next(j, step).nodes)
  {
    match step
    case Deliver(name, t, stdinOk) => RanIsKept(j.nodes, name, TaskRuns.Receive(t, stdinOk));
    case DeliverAck(name, id) => RanIsKept(j.nodes, name, TaskRuns.AckArrives(id));
    case Local(name, r) => RanIsKept(j.nodes, name, r);
    case ScaleUp(name, stage) =>
      RewrittenIsKept(j.nodes, name, Node(stage, TaskRuns.Init(name, stage == j.nStages), {}));
    case ScaleDown(dead, keep) => AbsorbedIsKept(j.nodes, dead, keep);
  }

  /** The ACKs of a log, as long as they were covered before or are covered now. */
  lemma AcksStayOk(before: map<string, Node>, after: map<string, Node>, node: Node, now: Node, ids: set<string>)
    requires AcksOk(before, node) && Kept(before, after) && now.stage == node.stage
    requires AckIds(now.task.Log()) <= AckIds(node.task.Log()) + ids
    requires forall id :: id in ids ==> DurableAt(before, node.stage + 1, id)
    ensures AcksOk(after, now)
  {
    forall id | id in AckIds(now.task.Log()) ensures DurableAt(after, now.stage + 1, id) {
      StillDurable(before, after, node.stage + 1, id);
    }
  }

  lemma RewrittenLogs(nodes: map<string, Node>, after: map<string, Node>, name: string)
    requires LogsOk(nodes) && Kept(nodes, after) && name in after && AcksOk(after, after[name])
    requires forall n :: n in after && n != name ==> n in nodes && after[n] == nodes[n]
    ensures LogsOk(after)
  {
    forall n | n in after && n != name ensures AcksOk(after, after[n]) {
      AcksStayOk(nodes, after, nodes[n], after[n], {});
    }
  }

  lemma RanLogs(nodes: map<string, Node>, name: string, step: TaskRuns.Step)
    requires LogsOk(nodes) && name in nodes && TaskRuns.Enabled(nodes[name].task, step) && !step.Merge?
    requires step.AckArrives? ==> DurableAt(nodes, nodes[name].stage + 1, step.id)
    ensures LogsOk(nodes[name := Ran(nodes[name], step)])
  {
    var node, after := nodes[name], nodes[name := Ran(nodes[name], step)];
    RanIsKept(nodes, name, step);
    AcksOfStep(node.task, step);
    AcksStayOk(nodes, after, node, after[name], if step.AckArrives? then {step.id} else {});
    RewrittenLogs(nodes, after, name);
  }

  lemma StartedLogs(nodes: map<string, Node>, name: string, stage: nat, isFinalStage: bool)
    requires LogsOk(nodes) && name !in nodes
    ensures LogsOk(nodes[name := Node(stage, TaskRuns.Init(name, isFinalStage), {})])
  {
    RewrittenIsKept(nodes, name, Node(stage, TaskRuns.Init(name, isFinalStage), {}));
    RewrittenLogs(nodes, nodes[name := Node(stage, TaskRuns.Init(name, isFinalStage), {})], name);
  }

  lemma SurvivorLogs(nodes: map<string, Node>, after: map<string, Node>, dead: string, keep: string)
    requires LogsOk(nodes) && dead in nodes && keep in nodes && nodes[dead].stage == nodes[keep].stage
    requires Kept(nodes, after) && keep in after && after == (nodes - {dead})[keep := after[keep]]
    requires after[keep].stage == nodes[keep].stage
    requires AckIds(after[keep].task.Log()) <= AckIds(nodes[keep].task.Log()) + AckIds(nodes[dead].task.Log())
    ensures LogsOk(after)
  {
    assert AcksOk(nodes, nodes[dead]) && AcksOk(nodes, nodes[keep]);
    AcksStayOk(nodes, after, nodes[keep], after[keep], AckIds(nodes[dead].task.Log()));
    RewrittenLogs(nodes, after, keep);
  }

  lemma AbsorbedLogs(nodes: map<string, Node>, dead: string, keep: string)
    requires LogsOk(nodes) && dead in nodes && keep in nodes && dead != keep && nodes[dead].stage == nodes[keep].stage
    requires TaskRuns.Enabled(nodes[keep].task, MergeOf(nodes[dead]))
    ensures LogsOk((nodes - {dead})[keep := Absorbed(nodes[dead], nodes[keep])])
  {
    AbsorbedIsKept(nodes, dead, keep);
    MergeAcks(nodes[keep].task, nodes[dead]);
    SurvivorLogs(nodes, (nodes - {dead})[keep := Absorbed(nodes[dead], nodes[keep])], dead, keep);
  }

  lemma StepKeepsLogs(j: Job, step: Step)
    requires LogsOk(j.nodes) && AcksCovered(j) && Enabled(j, step)
    ensures LogsOk(Next(j, step).nodes)
  {
    match step
    case Deliver(name, t, stdinOk) => RanLogs(j.nodes, name, TaskRuns.Receive(t, stdinOk));
    case DeliverAck(name, id) => RanLogs(j.nodes, name, TaskRuns.AckArrives(id));
    case Local(name, r) => RanLogs(j.nodes, name, r);
    case ScaleUp(name, stage) => StartedLogs(j.nodes, name, stage, stage == j.nStages);
    case ScaleDown(dead, keep) => AbsorbedLogs(j.nodes, dead, keep);
  }

  lemma AcksStayCovered(j: Job, k: Job)
    requires AcksCovered(j) && Kept(j.nodes, k.nodes)
    requires forall a :: a in k.acks && a !in j.acks ==> DurableAt(k.nodes, a.stage, a.id)
    ensures AcksCovered(k)
  {
    forall a | a in k.acks && a in j.acks ensures DurableAt(k.nodes, a.stage, a.id) {
      StillDurable(j.nodes, k.nodes, a.stage, a.id);
    }
  }

  lemma FlushedIsDurable(nodes: map<string, Node>, name: string, nStages: nat)
    requires name in nodes && NodeOk(nStages, nodes[name])
    ensures forall a :: a in FlushAcks(nodes[name]) ==> DurableAt(nodes, a.stage, a.id)
  {
  }

  lemma StepKeepsAcks(j: Job, step: Step)
    requires NodesOk(j) && AcksCovered(j) && Enabled(j, step) && LateDuplicate(j, step)
    ensures AcksCovered(Next(j, step))
  {
    var k := Next(j, step);
    StepKeepsDurable(j, step);
    if step.Local? {
      StepKeepsNodes(j, step);
      FlushedIsDurable(k.nodes, step.name, k.nStages);
    } else if step.Deliver? {
      assert k.nodes[step.name].task.durable == j.nodes[step.name].task.durable;
    }
    AcksStayCovered(j, k);
  }

  lemma StepInv(j: Job, step: Step)
    requires Inv(j) && Enabled(j, step) && LateDuplicate(j, step)
    ensures Inv(Next(j, step))
  {
    StepKeepsNodes(j, step);
    StepKeepsLogs(j, step);
    StepKeepsAcks(j, step);
  }

  lemma {:induction false} RunInv(j: Job, steps: seq<Step>)
    requires Inv(j) && Legal(j, steps) && LateDuplicates(j, steps)
    ensures Inv(Exec(j, steps))
  {
    if steps != [] {
      var init := steps[..|steps| - 1];
      RunInv(j, init);
      StepInv(Exec(j, init), steps[|steps| - 1]);
    }
  }

  // ---- The theorems ----

  /** The output is tracked by what the log restores, or durable one stage on, or was dropped. */
  ghost predicate Accounted(j: Job, node: Node, log: seq<Record>, id: string) {
    || id in Fresh(false, false).Restored(log).sent
    || DurableAt(j.nodes, node.stage + 1, id)
    || id in node.dropped
  }

  ghost predicate AllAccounted(j: Job, node: Node, log: seq<Record>) {
    forall id :: id in Fresh(false, false).Restored(log).received ==>
      && id in node.task.outputs
      && forall o :: o in node.task.outputs[id] ==> Accounted(j, node, log, o.id)
  }

  /** In every run of a job whose tasks all crash, retry, scale up and scale down: whatever prefix of a
      task's log survives, each output of every tuple the restored task treats as received is tracked
      again, or is durably received one stage on, or was dropped for want of an address. */
  lemma NoOutputLost(nStages: nat, steps: seq<Step>, name: string, kept: nat)
    requires Legal(Init(nStages), steps) && LateDuplicates(Init(nStages), steps)
    requires var j := Exec(Init(nStages), steps);
             name in j.nodes && j.nodes[name].stage != j.nStages && kept <= |j.nodes[name].task.Log()|
    ensures var j := Exec(Init(nStages), steps);
            AllAccounted(j, j.nodes[name], j.nodes[name].task.Log()[..kept])
  {
    var j := Exec(Init(nStages), steps);
    var node := j.nodes[name];
    RunInv(Init(nStages), steps);
    TaskTheorems.OutputsAccountedFor(node.task, node.dropped, kept);
    assert AcksOk(j.nodes, node);
    forall id | ACK(id) in node.task.Log()[..kept] ensures DurableAt(j.nodes, node.stage + 1, id) {
      assert id in AckIds(node.task.Log());
    }
  }

  /** Every output forwarded found an address. */
  ghost predicate Addressed(step: Step) {
    step.Local? && step.step.Forward? ==> TaskRuns.HasAddress(step.step.target)
  }

  ghost predicate NoneDropped(nStages: nat, nodes: map<string, Node>) {
    forall n :: n in nodes && nodes[n].stage != nStages ==> nodes[n].dropped == {}
  }

  lemma AbsorbedDropsNothing(nStages: nat, dead: Node, keep: Node)
    requires NodeOk(nStages, dead) && dead.stage == keep.stage != nStages
    requires TaskRuns.Enabled(keep.task, MergeOf(dead)) && dead.dropped == keep.dropped == {}
    ensures Absorbed(dead, keep).dropped == {}
  {
    var s := dead.task;
    assert s.durable == s.Log()[..|s.durable|];
    TaskTheorems.PrecedePrefix(s.Log(), s.outputs, |s.durable|, {});
    TaskTheorems.UnsentWithin(s.durable, s.outputs, {});
  }

  lemma StepDropsNothing(j: Job, step: Step)
    requires NodesOk(j) && NoneDropped(j.nStages, j.nodes) && Enabled(j, step) && Addressed(step)
    ensures NoneDropped(j.nStages, Next(j, step).nodes)
  {
    if step.ScaleDown? && j.nodes[step.keep].stage != j.nStages {
      AbsorbedDropsNothing(j.nStages, j.nodes[step.dead], j.nodes[step.keep]);
    }
  }

  lemma {:induction false} RunDropsNothing(j: Job, steps: seq<Step>)
    requires Inv(j) && NoneDropped(j.nStages, j.nodes) && Legal(j, steps) && LateDuplicates(j, steps)
    requires forall step :: step in steps ==> Addressed(step)
    ensures Exec(j, steps).nStages == j.nStages && NoneDropped(j.nStages, Exec(j, steps).nodes)
  {
    if steps != [] {
      var init := steps[..|steps| - 1];
      RunInv(j, init);
      RunDropsNothing(j, init);
      StepDropsNothing(Exec(j, init), steps[|steps| - 1]);
    }
  }

  ghost predicate OutputsDurable(j: Job, node: Node, id: string) {
    id in node.task.outputs && forall o :: o in node.task.outputs[id] ==> DurableAt(j.nodes, node.stage + 1, o.id)
  }

  lemma SettledOutputs(j: Job, node: Node, id: string)
    requires TaskRuns.MemoryMatchesLog(node.task) && node.task.mgr.sent == map[] && node.dropped == {}
    requires AllAccounted(j, node, node.task.Log())
    requires id in node.task.mgr.received && node.task.mgr.received[id].processed
    ensures OutputsDurable(j, node, id)
  {
    assert Replay(EMPTY, node.task.Log()).sent.Keys == {};
    assert id in TaskRuns.Processed(node.task.mgr.received);
  }

  /** When a task has nothing left to resend, and every output found an address, each output of every
      tuple it has processed is durably received one stage on. */
  lemma SettledTaskIsComplete(nStages: nat, steps: seq<Step>, name: string)
    requires Legal(Init(nStages), steps) && LateDuplicates(Init(nStages), steps)
    requires forall step :: step in steps ==> Addressed(step)
    requires var j := Exec(Init(nStages), steps);
             name in j.nodes && j.nodes[name].stage != j.nStages && j.nodes[name].task.mgr.sent == map[]
    ensures var j := Exec(Init(nStages), steps);
            forall id :: id in j.nodes[name].task.mgr.received && j.nodes[name].task.mgr.received[id].processed ==>
              OutputsDurable(j, j.nodes[name], id)
  {
    var j := Exec(Init(nStages), steps);
    var node := j.nodes[name];
    RunInv(Init(nStages), steps);
    RunDropsNothing(Init(nStages), steps);
    NoOutputLost(nStages, steps, name, |node.task.Log()|);
    assert node.task.Log()[..|node.task.Log()|] == node.task.Log();
    forall id | id in node.task.mgr.received && node.task.mgr.received[id].processed
      ensures OutputsDurable(j, node, id)
    {
      SettledOutputs(j, node, id);
    }
  }
}
