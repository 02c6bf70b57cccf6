/** The staged task graph, what it means for it to be wired, and its two mutations
    (leader.go, resource_manager.go, task.go). */
module Topology {
  import opened Names

  /** `inputs` maps upstream IDs to ACK addresses, `outputs` maps downstream IDs to send addresses. */
  datatype Task = Task(
    id: string, stage: nat, node: Node, address: string, inputs: map<string, string>, outputs: map<string, string>)

  datatype Graph = Graph(nStages: nat, source: string, tasks: map<string, Task>, assignments: map<string, Node>)

  function AddressesOf(tasks: map<string, Task>, stage: int): map<string, string> {
    map u | u in tasks && tasks[u].stage == stage :: tasks[u].address
  }

  function LeaderInput(source: string): map<string, string> {
    if source == "" then map[] else map["leader" := source]
  }

  ghost predicate Named(id: string, stage: nat) {
    exists index: nat, timestamp: nat :: id == TaskId(stage, index, timestamp)
  }

  ghost predicate PlaceOk(g: Graph, t: Task) {
    1 <= t.stage <= g.nStages && t.address == TaskAddress(t.node)
  }

  ghost predicate OutputsOk(g: Graph, t: Task) {
    t.outputs == AddressesOf(g.tasks, t.stage + 1)
  }

  ghost predicate InputsOk(g: Graph, t: Task) {
    t.inputs == if t.stage == 1 then LeaderInput(g.source) else AddressesOf(g.tasks, t.stage - 1)
  }

  ghost predicate TaskOk(g: Graph, t: Task) {
    PlaceOk(g, t) && OutputsOk(g, t) && InputsOk(g, t)
  }

  predicate Populated(tasks: map<string, Task>, stage: nat) {
    exists t :: t in tasks && tasks[t].stage == stage
  }

  ghost predicate TasksOk(g: Graph) {
    forall t {:trigger TaskOk(g, g.tasks[t])} :: t in g.tasks ==> TaskOk(g, g.tasks[t])
  }

  ghost predicate NamesOk(g: Graph) {
    forall t {:trigger Named(t, g.tasks[t].stage)} :: t in g.tasks ==> g.tasks[t].id == t && Named(t, g.tasks[t].stage)
  }

  ghost predicate AssignmentsOk(g: Graph) {
    && g.assignments.Keys == g.tasks.Keys
    && forall t :: t in g.tasks ==> g.assignments[t] == g.tasks[t].node
  }

  ghost predicate StagesOk(g: Graph) {
    forall stage :: 1 <= stage <= g.nStages ==> Populated(g.tasks, stage)
  }

  ghost predicate Wired(g: Graph) {
    TasksOk(g) && NamesOk(g) && AssignmentsOk(g) && StagesOk(g)
  }

  /** The wiring pair by pair: t feeds u, at u's address, exactly when u ACKs t, at t's address,
      exactly when u's stage follows t's. */
  lemma WiringIsSymmetric(g: Graph, t: string, u: string)
    requires Wired(g) && t in g.tasks && u in g.tasks
    ensures var a, b := g.tasks[t], g.tasks[u];
            && (u in a.outputs <==> b.stage == a.stage + 1)
            && (t in b.inputs <==> b.stage == a.stage + 1)
            && (u in a.outputs ==> a.outputs[u] == b.address && t in b.inputs && b.inputs[t] == a.address)
  {
    assert TaskOk(g, g.tasks[t]) && TaskOk(g, g.tasks[u]);
    assert Named(t, g.tasks[t].stage);
    LeaderIsNoTask(g.tasks[t].stage);
  }

  /** Nothing but tasks and the leader is ever listed; the last stage sends nowhere, the others do. */
  lemma WiringIsClosed(g: Graph, t: string)
    requires Wired(g) && t in g.tasks
    ensures var a := g.tasks[t];
            && a.outputs.Keys <= g.tasks.Keys
            && (forall u :: u in a.outputs ==> a.outputs[u] != "")
            && (a.stage == 1 ==> a.inputs == LeaderInput(g.source))
            && (a.stage == 1 ==> ("leader" in a.inputs <==> g.source != "") && forall u :: u in a.inputs ==> u == "leader" && a.inputs[u] == g.source)
            && (forall u :: u in a.inputs ==> a.inputs[u] != "")
            && (a.stage > 1 ==> a.inputs.Keys <= g.tasks.Keys && a.inputs != map[])
            && (a.outputs == map[] <==> a.stage == g.nStages)
  {
    var a := g.tasks[t];
    assert TaskOk(g, a);
    if a.stage < g.nStages {
      var u := SomeTask(g, a.stage + 1);
      assert u in a.outputs;
    } else {
      NoTasksAbove(g);
    }
    if a.stage > 1 {
      var u := SomeTask(g, a.stage - 1);
      assert u in a.inputs;
    }
    forall u | u in a.outputs ensures a.outputs[u] != "" { assert TaskOk(g, g.tasks[u]); }
    forall u | u in a.inputs && a.stage > 1 ensures a.inputs[u] != "" { assert TaskOk(g, g.tasks[u]); }
  }

  lemma SomeTask(g: Graph, stage: nat) returns (t: string)
    requires StagesOk(g) && 1 <= stage <= g.nStages
    ensures t in g.tasks && g.tasks[t].stage == stage
  {
    assert Populated(g.tasks, stage);
    t :| t in g.tasks && g.tasks[t].stage == stage;
  }

  lemma LeaderIsNoTask(stage: nat)
    ensures !Named("leader", stage)
  {
    forall index: nat, timestamp: nat
      ensures "leader" != TaskId(stage, index, timestamp)
    {
      TaskIdIsNotLeader(stage, index, timestamp);
    }
  }

  // ---- Adding one task ----

  function Welcomed(g: Graph, t: Task, stage: nat, id: string, address: string): Task {
    if stage > 1 && t.stage == stage - 1 then t.(outputs := t.outputs[id := address])
    else if stage < g.nStages && t.stage == stage + 1 then t.(inputs := t.inputs[id := address])
    else t
  }

  function WelcomedAll(g: Graph, stage: nat, id: string, address: string): map<string, Task> {
    map t | t in g.tasks :: Welcomed(g, g.tasks[t], stage, id, address)
  }

  function Newcomer(g: Graph, stage: nat, id: string, node: Node): Task {
    Task(id, stage, node, TaskAddress(node),
         if stage == 1 then LeaderInput(g.source) else AddressesOf(g.tasks, stage - 1),
         if stage < g.nStages then AddressesOf(g.tasks, stage + 1) else map[])
  }

  function ScaledUp(g: Graph, stage: nat, id: string, node: Node): Graph {
    g.(tasks := WelcomedAll(g, stage, id, TaskAddress(node))[id := Newcomer(g, stage, id, node)], assignments := g.assignments[id := node])
  }

  lemma NamesKeepStages(id: string, stage: nat, other: nat)
    requires Named(id, stage) && Named(id, other)
    ensures stage == other
  {
    var i: nat, ts: nat :| id == TaskId(stage, i, ts);
    var i': nat, ts': nat :| id == TaskId(other, i', ts');
    TaskIdInjective(stage, i, ts, other, i', ts');
  }

  lemma ScaledUpAddresses(g: Graph, stage: nat, id: string, node: Node, s: int)
    requires id in g.tasks ==> g.tasks[id].stage == stage
    ensures AddressesOf(ScaledUp(g, stage, id, node).tasks, s) ==
              if s == stage then AddressesOf(g.tasks, s)[id := TaskAddress(node)] else AddressesOf(g.tasks, s)
  {
  }

  lemma WelcomedOk(g: Graph, h: Graph, t: Task, stage: nat, id: string, address: string)
    requires TaskOk(g, t) && 1 <= stage <= g.nStages && h.nStages == g.nStages && h.source == g.source
    requires forall s: int :: AddressesOf(h.tasks, s) ==
               if s == stage then AddressesOf(g.tasks, s)[id := address] else AddressesOf(g.tasks, s)
    ensures TaskOk(h, Welcomed(g, t, stage, id, address))
  {
    var below, above := t.stage - 1, t.stage + 1;
    assert AddressesOf(h.tasks, below) ==
             if below == stage then AddressesOf(g.tasks, below)[id := address] else AddressesOf(g.tasks, below);
    assert AddressesOf(h.tasks, above) ==
             if above == stage then AddressesOf(g.tasks, above)[id := address] else AddressesOf(g.tasks, above);
  }

  lemma ScaledUpTasksOk(g: Graph, stage: nat, id: string, node: Node)
    requires TasksOk(g) && 1 <= stage <= g.nStages
    requires id in g.tasks ==> g.tasks[id].stage == stage
    ensures TasksOk(ScaledUp(g, stage, id, node))
  {
    var h := ScaledUp(g, stage, id, node);
    forall s: int
      ensures AddressesOf(h.tasks, s) ==
                if s == stage then AddressesOf(g.tasks, s)[id := TaskAddress(node)] else AddressesOf(g.tasks, s)
    {
      ScaledUpAddresses(g, stage, id, node, s);
    }
    forall t | t in h.tasks
      ensures TaskOk(h, h.tasks[t])
    {
      if t != id {
        assert TaskOk(g, g.tasks[t]);
        WelcomedOk(g, h, g.tasks[t], stage, id, TaskAddress(node));
      } else {
        NewcomerOk(g, h, stage, id, node);
      }
    }
  }

  lemma NoTasksAbove(g: Graph)
    requires TasksOk(g)
    ensures AddressesOf(g.tasks, g.nStages + 1) == map[]
  {
    forall t | t in g.tasks ensures g.tasks[t].stage <= g.nStages { assert TaskOk(g, g.tasks[t]); }
  }

  lemma NewcomerOk(g: Graph, h: Graph, stage: nat, id: string, node: Node)
    requires TasksOk(g) && 1 <= stage <= g.nStages && h.nStages == g.nStages && h.source == g.source
    requires AddressesOf(h.tasks, stage - 1) == AddressesOf(g.tasks, stage - 1)
    requires AddressesOf(h.tasks, stage + 1) == AddressesOf(g.tasks, stage + 1)
    ensures TaskOk(h, Newcomer(g, stage, id, node))
  {
    if stage == g.nStages {
      NoTasksAbove(g);
    }
  }

  lemma ScaledUpNamesOk(g: Graph, stage: nat, id: string, node: Node)
    requires NamesOk(g) && Named(id, stage)
    ensures NamesOk(ScaledUp(g, stage, id, node))
  {
    var h := ScaledUp(g, stage, id, node);
    forall t | t in h.tasks ensures h.tasks[t].id == t && Named(t, h.tasks[t].stage) {
      assert t != id ==> Named(t, g.tasks[t].stage);
    }
  }

  lemma ScaledUpAssignmentsOk(g: Graph, stage: nat, id: string, node: Node)
    requires AssignmentsOk(g)
    ensures AssignmentsOk(ScaledUp(g, stage, id, node))
    ensures ScaledUp(g, stage, id, node).tasks.Keys == g.tasks.Keys + {id}
  {
  }

  lemma ScaledUpPopulated(g: Graph, stage: nat, id: string, node: Node, s: nat)
    requires Populated(g.tasks, s)
    requires id in g.tasks ==> g.tasks[id].stage == stage
    ensures Populated(ScaledUp(g, stage, id, node).tasks, s)
  {
    var t :| t in g.tasks && g.tasks[t].stage == s;
    var h := ScaledUp(g, stage, id, node);
    assert t in h.tasks && h.tasks[t].stage == s;
  }

  /** Scale-up keeps the wiring, even when the new task's ID repeats an existing one. */
  lemma ScaleUpKeepsWiring(g: Graph, stage: nat, id: string, node: Node)
    requires Wired(g) && 1 <= stage <= g.nStages && Named(id, stage)
    ensures Wired(ScaledUp(g, stage, id, node))
    ensures ScaledUp(g, stage, id, node).tasks.Keys == g.tasks.Keys + {id}
  {
    var h := ScaledUp(g, stage, id, node);
    if id in g.tasks {
      assert Named(id, g.tasks[id].stage);
      NamesKeepStages(id, stage, g.tasks[id].stage);
    }
    ScaledUpTasksOk(g, stage, id, node);
    ScaledUpNamesOk(g, stage, id, node);
    ScaledUpAssignmentsOk(g, stage, id, node);
    forall s | 1 <= s <= h.nStages
      ensures Populated(h.tasks, s)
    {
      ScaledUpPopulated(g, stage, id, node, s);
    }
  }

  // ---- Removing one task ----

  function Deprived(g: Graph, t: Task, stage: nat, id: string): Task {
    if stage > 1 && t.stage == stage - 1 then t.(outputs := t.outputs - {id})
    else if stage < g.nStages && t.stage == stage + 1 then t.(inputs := t.inputs - {id})
    else t
  }

  function DeprivedAll(g: Graph, stage: nat, id: string): map<string, Task> {
    map t | t in g.tasks :: Deprived(g, g.tasks[t], stage, id)
  }

  function ScaledDown(g: Graph, stage: nat, id: string): Graph {
    g.(tasks := DeprivedAll(g, stage, id) - {id}, assignments := g.assignments - {id})
  }

  lemma ScaledDownAddresses(g: Graph, stage: nat, id: string, s: int)
    requires id in g.tasks && g.tasks[id].stage == stage
    ensures AddressesOf(ScaledDown(g, stage, id).tasks, s) ==
              if s == stage then AddressesOf(g.tasks, s) - {id} else AddressesOf(g.tasks, s)
  {
  }

  lemma DeprivedOk(g: Graph, h: Graph, t: Task, stage: nat, id: string)
    requires TaskOk(g, t) && 1 <= stage <= g.nStages && h.nStages == g.nStages && h.source == g.source
    requires forall s: int :: AddressesOf(h.tasks, s) ==
               if s == stage then AddressesOf(g.tasks, s) - {id} else AddressesOf(g.tasks, s)
    ensures TaskOk(h, Deprived(g, t, stage, id))
  {
    var below, above := t.stage - 1, t.stage + 1;
    assert AddressesOf(h.tasks, below) ==
             if below == stage then AddressesOf(g.tasks, below) - {id} else AddressesOf(g.tasks, below);
    assert AddressesOf(h.tasks, above) ==
             if above == stage then AddressesOf(g.tasks, above) - {id} else AddressesOf(g.tasks, above);
  }

  lemma ScaledDownTasksOk(g: Graph, stage: nat, id: string)
    requires TasksOk(g) && 1 <= stage <= g.nStages && id in g.tasks && g.tasks[id].stage == stage
    ensures TasksOk(ScaledDown(g, stage, id))
  {
    var h := ScaledDown(g, stage, id);
    forall s: int
      ensures AddressesOf(h.tasks, s) ==
                if s == stage then AddressesOf(g.tasks, s) - {id} else AddressesOf(g.tasks, s)
    {
      ScaledDownAddresses(g, stage, id, s);
    }
    forall t | t in h.tasks
      ensures TaskOk(h, h.tasks[t])
    {
      assert TaskOk(g, g.tasks[t]);
      DeprivedOk(g, h, g.tasks[t], stage, id);
    }
  }

  lemma ScaledDownNamesOk(g: Graph, stage: nat, id: string)
    requires NamesOk(g)
    ensures NamesOk(ScaledDown(g, stage, id))
  {
    var h := ScaledDown(g, stage, id);
    forall t | t in h.tasks ensures h.tasks[t].id == t && Named(t, h.tasks[t].stage) {
      assert Named(t, g.tasks[t].stage);
    }
  }

  lemma ScaledDownPopulated(g: Graph, stage: nat, id: string, keep: string, s: nat)
    requires Populated(g.tasks, s)
    requires id in g.tasks && g.tasks[id].stage == stage
    requires keep in g.tasks && g.tasks[keep].stage == stage && keep != id
    ensures Populated(ScaledDown(g, stage, id).tasks, s)
  {
    var h := ScaledDown(g, stage, id);
    var t :| t in g.tasks && g.tasks[t].stage == s;
    var u := if t == id then keep else t;
    assert u in h.tasks && h.tasks[u].stage == s;
  }

  /** Scale-down keeps the wiring as long as the stage keeps another task. */
  lemma ScaleDownKeepsWiring(g: Graph, stage: nat, id: string, keep: string)
    requires Wired(g) && 1 <= stage <= g.nStages
    requires id in g.tasks && g.tasks[id].stage == stage
    requires keep in g.tasks && g.tasks[keep].stage == stage && keep != id
    ensures Wired(ScaledDown(g, stage, id))
    ensures ScaledDown(g, stage, id).tasks.Keys == g.tasks.Keys - {id}
  {
    var h := ScaledDown(g, stage, id);
    ScaledDownTasksOk(g, stage, id);
    ScaledDownNamesOk(g, stage, id);
    forall s | 1 <= s <= h.nStages
      ensures Populated(h.tasks, s)
    {
      ScaledDownPopulated(g, stage, id, keep, s);
    }
  }

  // ---- Any sequence of scale operations ----

  datatype Op = Up(stage: nat, index: nat, timestamp: nat, node: Node) | Down(stage: nat, id: string)

  ghost predicate Allowed(g: Graph, op: Op) {
    && 1 <= op.stage <= g.nStages
    && (op.Down? ==>
          && op.id in g.tasks && g.tasks[op.id].stage == op.stage
          && exists keep :: keep in g.tasks && g.tasks[keep].stage == op.stage && keep != op.id)
  }

  /** An operation the code refuses leaves the graph as it is. */
  ghost function Scaled(g: Graph, op: Op): Graph {
    if !Allowed(g, op) then g
    else
      match op
      case Up(stage, index, timestamp, node) => ScaledUp(g, stage, TaskId(stage, index, timestamp), node)
      case Down(stage, id) => ScaledDown(g, stage, id)
  }

  ghost function ScaledAll(g: Graph, ops: seq<Op>): Graph {
    if ops == [] then g else Scaled(ScaledAll(g, ops[..|ops| - 1]), ops[|ops| - 1])
  }

  lemma {:induction false} ScalingKeepsWiring(g: Graph, ops: seq<Op>)
    requires Wired(g)
    ensures Wired(ScaledAll(g, ops))
  {
    if ops != [] {
      var init, op := ops[..|ops| - 1], ops[|ops| - 1];
      ScalingKeepsWiring(g, init);
      var h := ScaledAll(g, init);
      if Allowed(h, op) {
        match op
        case Up(stage, index, timestamp, node) =>
          ScaleUpKeepsWiring(h, stage, TaskId(stage, index, timestamp), node);
        case Down(stage, id) =>
          var keep :| keep in h.tasks && h.tasks[keep].stage == stage && keep != id;
          ScaleDownKeepsWiring(h, stage, id, keep);
      }
    }
  }
}
