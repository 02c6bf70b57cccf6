/** The leader's bookkeeping of the task graph: building it for a job, and scaling a stage up or
    down by one task in place (leader.go, resource_manager.go). */
module Leading {
  import opened Names
  import opened Topology

  function IdsOf(stage: nat, perStage: nat, timestamp: nat): set<string> {
    set i: nat | i < perStage :: TaskId(stage, i, timestamp)
  }

  /** Targets whose addresses are filled in once tasks are placed. */
  function Unplaced(ids: set<string>): map<string, string> {
    map id | id in ids :: ""
  }

  function Draft(nStages: nat, perStage: nat, source: string, timestamp: nat, stage: nat, index: nat): Task
    requires stage >= 1
  {
    Task(TaskId(stage, index, timestamp), stage, Node("", 0), "",
         if stage == 1 then LeaderInput(source) else Unplaced(IdsOf(stage - 1, perStage, timestamp)),
         if stage < nStages then Unplaced(IdsOf(stage + 1, perStage, timestamp)) else map[])
  }

  /** The drafts of all stages before `stage`, and of the first `index` tasks of it. */
  predicate Before(perStage: nat, s: nat, i: nat, stage: nat, index: nat) {
    1 <= s && i < perStage && (s < stage || (s == stage && i < index))
  }

  ghost predicate Drafted(tasks: map<string, Task>, nStages: nat, perStage: nat, source: string, timestamp: nat,
                          stage: nat, index: nat)
  {
    && (forall s: nat, i: nat {:trigger TaskId(s, i, timestamp)} :: Before(perStage, s, i, stage, index) ==>
          TaskId(s, i, timestamp) in tasks
          && tasks[TaskId(s, i, timestamp)] == Draft(nStages, perStage, source, timestamp, s, i))
    && (forall t :: t in tasks ==>
          exists s: nat, i: nat :: Before(perStage, s, i, stage, index) && t == TaskId(s, i, timestamp))
  }

  function Filled(targets: map<string, string>, tasks: map<string, Task>): map<string, string> {
    map u | u in targets :: if u in tasks then tasks[u].address else targets[u]
  }

  function Placed(tasks: map<string, Task>, assignments: map<string, Node>): map<string, Task>
    requires tasks.Keys <= assignments.Keys
  {
    map t | t in tasks :: tasks[t].(node := assignments[t], address := TaskAddress(assignments[t]))
  }

  function Assigned(tasks: map<string, Task>, assignments: map<string, Node>): map<string, Task>
    requires tasks.Keys <= assignments.Keys
  {
    AllFilled(Placed(tasks, assignments))
  }

  function AllFilled(tasks: map<string, Task>): map<string, Task> {
    map t | t in tasks :: tasks[t].(inputs := Filled(tasks[t].inputs, tasks), outputs := Filled(tasks[t].outputs, tasks))
  }

  // ---- Drafting and placing gives a wired graph ----

  lemma DraftOf(tasks: map<string, Task>, nStages: nat, perStage: nat, source: string, timestamp: nat, t: string)
    returns (stage: nat, index: nat)
    requires Drafted(tasks, nStages, perStage, source, timestamp, nStages + 1, 0) && t in tasks
    ensures 1 <= stage <= nStages && index < perStage && t == TaskId(stage, index, timestamp)
    ensures tasks[t] == Draft(nStages, perStage, source, timestamp, stage, index)
  {
    stage, index :| Before(perStage, stage, index, nStages + 1, 0) && t == TaskId(stage, index, timestamp);
  }

  lemma StageIds(tasks: map<string, Task>, nStages: nat, perStage: nat, source: string, timestamp: nat, stage: nat)
    requires Drafted(tasks, nStages, perStage, source, timestamp, nStages + 1, 0) && 1 <= stage <= nStages
    ensures forall t :: t in IdsOf(stage, perStage, timestamp) <==> t in tasks && tasks[t].stage == stage
  {
    forall t | t in tasks && tasks[t].stage == stage
      ensures t in IdsOf(stage, perStage, timestamp)
    {
      var s, i := DraftOf(tasks, nStages, perStage, source, timestamp, t);
    }
    forall t | t in IdsOf(stage, perStage, timestamp)
      ensures t in tasks && tasks[t].stage == stage
    {
      var j: nat :| j < perStage && t == TaskId(stage, j, timestamp);
      assert Before(perStage, stage, j, nStages + 1, 0);
    }
  }

  /** A drafted graph, described without its numbering: targets are whole neighbouring stages. */
  ghost predicate Shaped(tasks: map<string, Task>, nStages: nat, source: string, t: Task) {
    && 1 <= t.stage <= nStages
    && (forall u :: u in t.outputs <==> u in tasks && tasks[u].stage == t.stage + 1)
    && (if t.stage == 1 then t.inputs == LeaderInput(source)
        else forall u :: u in t.inputs <==> u in tasks && tasks[u].stage == t.stage - 1)
  }

  lemma NoDraftsAbove(tasks: map<string, Task>, nStages: nat, perStage: nat, source: string, timestamp: nat)
    requires Drafted(tasks, nStages, perStage, source, timestamp, nStages + 1, 0)
    ensures forall u :: u in tasks ==> tasks[u].stage <= nStages
  {
    forall u | u in tasks
      ensures tasks[u].stage <= nStages
    {
      var s, i := DraftOf(tasks, nStages, perStage, source, timestamp, u);
    }
  }

  lemma DraftedIsShaped(tasks: map<string, Task>, nStages: nat, perStage: nat, source: string, timestamp: nat, t: string)
    requires Drafted(tasks, nStages, perStage, source, timestamp, nStages + 1, 0) && t in tasks
    ensures Shaped(tasks, nStages, source, tasks[t]) && tasks[t].id == t && Named(t, tasks[t].stage)
  {
    var stage, index := DraftOf(tasks, nStages, perStage, source, timestamp, t);
    if stage < nStages {
      StageIds(tasks, nStages, perStage, source, timestamp, stage + 1);
    } else {
      NoDraftsAbove(tasks, nStages, perStage, source, timestamp);
    }
    if stage > 1 {
      StageIds(tasks, nStages, perStage, source, timestamp, stage - 1);
    }
  }

  lemma FilledIsAddresses(tasks: map<string, Task>, assignments: map<string, Node>, targets: map<string, string>, stage: nat)
    requires tasks.Keys <= assignments.Keys
    requires forall u :: u in targets <==> u in tasks && tasks[u].stage == stage
    ensures Filled(targets, Placed(tasks, assignments)) == AddressesOf(Assigned(tasks, assignments), stage)
  {
  }

  lemma AssignedAt(tasks: map<string, Task>, assignments: map<string, Node>, t: string)
    requires tasks.Keys <= assignments.Keys && t in tasks
    ensures var placed := Placed(tasks, assignments);
            && t in placed && placed[t] == tasks[t].(node := assignments[t], address := TaskAddress(assignments[t]))
            && Assigned(tasks, assignments)[t] ==
                 placed[t].(inputs := Filled(tasks[t].inputs, placed), outputs := Filled(tasks[t].outputs, placed))
  {
  }

  lemma LeaderStays(source: string, tasks: map<string, Task>)
    requires "leader" !in tasks
    ensures Filled(LeaderInput(source), tasks) == LeaderInput(source)
  {
  }

  function Placement(tasks: map<string, Task>, assignments: map<string, Node>, nStages: nat, source: string): Graph
    requires tasks.Keys <= assignments.Keys
  {
    Graph(nStages, source, Assigned(tasks, assignments), assignments)
  }

  lemma PlacedLaterOutputs(tasks: map<string, Task>, assignments: map<string, Node>, t: string)
    requires tasks.Keys == assignments.Keys && t in tasks
    requires forall u :: u in tasks[t].outputs <==> u in tasks && tasks[u].stage == tasks[t].stage + 1
    ensures Assigned(tasks, assignments)[t].outputs == AddressesOf(Assigned(tasks, assignments), tasks[t].stage + 1)
  {
    AssignedAt(tasks, assignments, t);
    FilledIsAddresses(tasks, assignments, tasks[t].outputs, tasks[t].stage + 1);
  }

  lemma PlacedPlace(tasks: map<string, Task>, assignments: map<string, Node>, nStages: nat, source: string, t: string)
    requires tasks.Keys == assignments.Keys && t in tasks && 1 <= tasks[t].stage <= nStages
    ensures var g := Placement(tasks, assignments, nStages, source);
            t in g.tasks && PlaceOk(g, g.tasks[t])
  {
    AssignedAt(tasks, assignments, t);
  }

  lemma AssignedStage(tasks: map<string, Task>, assignments: map<string, Node>, t: string)
    requires tasks.Keys == assignments.Keys && t in tasks
    ensures t in Assigned(tasks, assignments) && Assigned(tasks, assignments)[t].stage == tasks[t].stage
  {
  }

  lemma OutputsFrom(g: Graph, h: map<string, Task>, t: string, next: nat)
    requires g.tasks == h && t in h && h[t].stage + 1 == next && h[t].outputs == AddressesOf(h, next)
    ensures t in g.tasks && OutputsOk(g, g.tasks[t])
  {
  }

  lemma PlacedOutputs(tasks: map<string, Task>, assignments: map<string, Node>, nStages: nat, source: string, t: string)
    requires tasks.Keys == assignments.Keys && t in tasks
    requires forall u :: u in tasks[t].outputs <==> u in tasks && tasks[u].stage == tasks[t].stage + 1
    ensures var g := Placement(tasks, assignments, nStages, source);
            t in g.tasks && OutputsOk(g, g.tasks[t])
  {
    AssignedStage(tasks, assignments, t);
    PlacedLaterOutputs(tasks, assignments, t);
    OutputsFrom(Placement(tasks, assignments, nStages, source), Assigned(tasks, assignments), t, tasks[t].stage + 1);
  }

  lemma PlacedFirstInputs(tasks: map<string, Task>, assignments: map<string, Node>, nStages: nat, source: string, t: string)
    requires tasks.Keys == assignments.Keys && "leader" !in tasks && t in tasks && tasks[t].stage == 1
    requires tasks[t].inputs == LeaderInput(source)
    ensures Assigned(tasks, assignments)[t].inputs == LeaderInput(source)
  {
    AssignedAt(tasks, assignments, t);
    LeaderStays(source, Placed(tasks, assignments));
  }

  lemma PlacedLaterInputs(tasks: map<string, Task>, assignments: map<string, Node>, t: string)
    requires tasks.Keys == assignments.Keys && t in tasks && tasks[t].stage > 1
    requires forall u :: u in tasks[t].inputs <==> u in tasks && tasks[u].stage == tasks[t].stage - 1
    ensures Assigned(tasks, assignments)[t].inputs == AddressesOf(Assigned(tasks, assignments), tasks[t].stage - 1)
  {
    AssignedAt(tasks, assignments, t);
    FilledIsAddresses(tasks, assignments, tasks[t].inputs, tasks[t].stage - 1);
  }

  lemma PlacedInputs(tasks: map<string, Task>, assignments: map<string, Node>, nStages: nat, source: string, t: string)
    requires tasks.Keys == assignments.Keys && "leader" !in tasks && t in tasks
    requires Shaped(tasks, nStages, source, tasks[t])
    ensures var g := Placement(tasks, assignments, nStages, source);
            t in g.tasks && InputsOk(g, g.tasks[t])
  {
    if tasks[t].stage == 1 {
      PlacedFirstInputs(tasks, assignments, nStages, source, t);
    } else {
      PlacedLaterInputs(tasks, assignments, t);
    }
  }

  /** What placement needs of a drafted graph. */
  ghost predicate Placeable(tasks: map<string, Task>, nStages: nat, source: string) {
    && (forall t {:trigger Shaped(tasks, nStages, source, tasks[t])} :: t in tasks ==>
          Shaped(tasks, nStages, source, tasks[t]))
    && (forall t {:trigger Named(t, tasks[t].stage)} :: t in tasks ==> tasks[t].id == t && Named(t, tasks[t].stage))
  }

  ghost predicate EveryStage(tasks: map<string, Task>, nStages: nat) {
    forall stage :: 1 <= stage <= nStages ==> Populated(tasks, stage)
  }

  lemma DraftedIsPlaceable(tasks: map<string, Task>, nStages: nat, perStage: nat, source: string, timestamp: nat)
    requires Drafted(tasks, nStages, perStage, source, timestamp, nStages + 1, 0)
    ensures Placeable(tasks, nStages, source)
    ensures perStage >= 1 ==> EveryStage(tasks, nStages)
  {
    forall t | t in tasks
      ensures Shaped(tasks, nStages, source, tasks[t]) && tasks[t].id == t && Named(t, tasks[t].stage)
    {
      DraftedIsShaped(tasks, nStages, perStage, source, timestamp, t);
    }
    forall s: nat | 1 <= s <= nStages && perStage >= 1
      ensures Populated(tasks, s)
    {
      var id := TaskId(s, 0, timestamp);
      assert Before(perStage, s, 0, nStages + 1, 0);
      assert id in tasks && tasks[id].stage == s;
    }
  }

  lemma PlacedTasksOk(tasks: map<string, Task>, assignments: map<string, Node>, nStages: nat, source: string)
    requires Placeable(tasks, nStages, source) && tasks.Keys == assignments.Keys
    ensures TasksOk(Placement(tasks, assignments, nStages, source))
  {
    var g := Placement(tasks, assignments, nStages, source);
    if "leader" in tasks {
      assert Named("leader", tasks["leader"].stage);
      LeaderIsNoTask(tasks["leader"].stage);
    }
    forall t | t in g.tasks
      ensures TaskOk(g, g.tasks[t])
    {
      assert Shaped(tasks, nStages, source, tasks[t]);
      PlacedPlace(tasks, assignments, nStages, source, t);
      PlacedOutputs(tasks, assignments, nStages, source, t);
      PlacedInputs(tasks, assignments, nStages, source, t);
    }
  }

  lemma AssignedKeepsIdentity(tasks: map<string, Task>, assignments: map<string, Node>)
    requires tasks.Keys == assignments.Keys
    ensures Assigned(tasks, assignments).Keys == tasks.Keys
    ensures forall t :: t in tasks ==>
      var u := Assigned(tasks, assignments)[t];
      u.id == tasks[t].id && u.stage == tasks[t].stage && u.node == assignments[t]
  {
  }

  lemma AssignedIsWired(tasks: map<string, Task>, assignments: map<string, Node>, nStages: nat, source: string)
    requires Placeable(tasks, nStages, source) && EveryStage(tasks, nStages) && tasks.Keys == assignments.Keys
    ensures Wired(Placement(tasks, assignments, nStages, source))
  {
    var g := Placement(tasks, assignments, nStages, source);
    PlacedTasksOk(tasks, assignments, nStages, source);
    AssignedKeepsIdentity(tasks, assignments);
    forall t | t in g.tasks ensures g.tasks[t].id == t && Named(t, g.tasks[t].stage) {
      assert Named(t, tasks[t].stage);
    }
    forall s: nat | 1 <= s <= nStages
      ensures Populated(g.tasks, s)
    {
      assert Populated(tasks, s);
      var t :| t in tasks && tasks[t].stage == s;
      assert t in g.tasks && g.tasks[t].stage == s;
    }
  }

  lemma NextIdIsFresh(stage: nat, count: nat, timestamp: nat)
    ensures TaskId(stage, count, timestamp) !in IdsOf(stage, count, timestamp)
  {
    if TaskId(stage, count, timestamp) in IdsOf(stage, count, timestamp) {
      var i: nat :| i < count && TaskId(stage, i, timestamp) == TaskId(stage, count, timestamp);
      TaskIdInjective(stage, i, timestamp, stage, count, timestamp);
    }
  }

  lemma {:induction false} CountIds(stage: nat, count: nat, timestamp: nat)
    ensures |IdsOf(stage, count, timestamp)| == count
  {
    if count > 0 {
      CountIds(stage, count - 1, timestamp);
      NextIdIsFresh(stage, count - 1, timestamp);
      assert IdsOf(stage, count, timestamp) == IdsOf(stage, count - 1, timestamp) + {TaskId(stage, count - 1, timestamp)};
    }
  }

  ghost predicate StageSizes(tasks: map<string, Task>, nStages: nat, perStage: nat) {
    forall stage :: 1 <= stage <= nStages ==> |StageTasks(tasks, stage)| == perStage
  }

  lemma DraftSizes(tasks: map<string, Task>, nStages: nat, perStage: nat, source: string, timestamp: nat)
    requires Drafted(tasks, nStages, perStage, source, timestamp, nStages + 1, 0)
    ensures StageSizes(tasks, nStages, perStage)
  {
    forall stage | 1 <= stage <= nStages
      ensures |StageTasks(tasks, stage)| == perStage
    {
      StageIds(tasks, nStages, perStage, source, timestamp, stage);
      assert StageTasks(tasks, stage) == IdsOf(stage, perStage, timestamp);
      CountIds(stage, perStage, timestamp);
    }
  }

  lemma SameSizes(a: map<string, Task>, b: map<string, Task>, nStages: nat, perStage: nat)
    requires StageSizes(a, nStages, perStage) && a.Keys == b.Keys
    requires forall t :: t in a ==> a[t].stage == b[t].stage
    ensures StageSizes(b, nStages, perStage)
  {
    assert forall stage :: StageTasks(a, stage) == StageTasks(b, stage);
  }

  lemma AssignedKeepsSizes(tasks: map<string, Task>, assignments: map<string, Node>, nStages: nat, perStage: nat)
    requires StageSizes(tasks, nStages, perStage) && tasks.Keys == assignments.Keys
    ensures StageSizes(Assigned(tasks, assignments), nStages, perStage)
  {
    AssignedKeepsIdentity(tasks, assignments);
    SameSizes(tasks, Assigned(tasks, assignments), nStages, perStage);
  }

  /** A task of one stage fed to, then a task of another: together the welcome of a new task. */
  ghost predicate Fed(before: map<string, Task>, after: map<string, Task>, stage: int, id: string, address: string) {
    after.Keys == before.Keys && forall t :: t in after ==>
      after[t] == if before[t].stage == stage then before[t].(outputs := before[t].outputs[id := address]) else before[t]
  }

  ghost predicate Heard(before: map<string, Task>, after: map<string, Task>, stage: int, id: string, address: string) {
    after.Keys == before.Keys && forall t :: t in after ==>
      after[t] == if before[t].stage == stage then before[t].(inputs := before[t].inputs[id := address]) else before[t]
  }

  lemma FedAndHeard(g: Graph, mid: map<string, Task>, after: map<string, Task>, stage: nat, id: string, address: string)
    requires stage >= 1
    requires if stage > 1 then Fed(g.tasks, mid, stage - 1, id, address) else mid == g.tasks
    requires if stage < g.nStages then Heard(mid, after, stage + 1, id, address) else after == mid
    ensures after == WelcomedAll(g, stage, id, address)
  {
    var all := WelcomedAll(g, stage, id, address);
    forall t | t in g.tasks
      ensures t in after && t in all && after[t] == all[t]
    {
    }
  }

  lemma FedKeepsAddresses(before: map<string, Task>, mid: map<string, Task>, stage: int, id: string, address: string, other: int)
    requires Fed(before, mid, stage, id, address)
    ensures AddressesOf(mid, other) == AddressesOf(before, other)
  {
    assert forall t :: t in mid ==> mid[t].stage == before[t].stage && mid[t].address == before[t].address;
  }

  lemma FilledByAddress(targets: map<string, string>, a: map<string, Task>, b: map<string, Task>)
    requires a.Keys == b.Keys && forall t :: t in a ==> a[t].address == b[t].address
    ensures Filled(targets, a) == Filled(targets, b)
  {
  }

  lemma OneMore(todo: set<string>, all: set<string>, of: set<string>, t: string)
    requires t in todo && of <= all
    ensures |of - (todo - {t})| == |of - todo| + (if t in of then 1 else 0)
  {
    assert of - (todo - {t}) == of - todo + (if t in of then {t} else {});
  }

  lemma ListedOneMore(stage: nat, i: nat, timestamp: nat)
    ensures Unplaced(IdsOf(stage, i, timestamp))[TaskId(stage, i, timestamp) := ""] ==
            Unplaced(IdsOf(stage, i + 1, timestamp))
  {
    assert IdsOf(stage, i + 1, timestamp) == IdsOf(stage, i, timestamp) + {TaskId(stage, i, timestamp)};
  }

  function StageTasks(tasks: map<string, Task>, stage: nat): set<string> {
    set t | t in tasks && tasks[t].stage == stage
  }

  datatype JobSpec = JobSpec(nStages: nat, perStage: nat, source: string)

  datatype Submission = Submitted | NoMembers | NotPlaced

  /** After a submission that found no member the old graph stands under the new job's spec. Its wiring
      survives if and only if the new job has as many stages and, if any, the same source. */
  lemma FailedSubmissionKeepsWiringIff(g: Graph, job: JobSpec)
    requires Wired(g)
    ensures Wired(g.(nStages := job.nStages, source := job.source)) <==>
            job.nStages == g.nStages && (g.nStages == 0 || job.source == g.source)
  {
    var h := g.(nStages := job.nStages, source := job.source);
    forall t | t in g.tasks ensures 1 <= g.tasks[t].stage <= g.nStages { StageBounds(g, t); }
    if Wired(h) {
      SameStageCount(g, h);
      if g.nStages >= 1 {
        var first := SomeTask(g, 1);
        assert TaskOk(g, g.tasks[first]) && TaskOk(h, h.tasks[first]);
        SourceIsRead(g.source, job.source);
      }
    } else if job.nStages == g.nStages == 0 {
      assert TasksOk(h) && NamesOk(h) && AssignmentsOk(h) && StagesOk(h);
    }
  }

  lemma SameStageCount(g: Graph, h: Graph)
    requires Wired(g) && Wired(h) && h.tasks == g.tasks
    ensures h.nStages == g.nStages
  {
    if g.nStages >= 1 {
      var last := SomeTask(g, g.nStages);
      StageBounds(h, last);
    }
    if h.nStages >= 1 {
      var last := SomeTask(h, h.nStages);
      StageBounds(g, last);
    }
  }

  lemma StageBounds(g: Graph, t: string)
    requires TasksOk(g) && t in g.tasks
    ensures 1 <= g.tasks[t].stage <= g.nStages
  {
    assert TaskOk(g, g.tasks[t]);
  }

  lemma SourceIsRead(a: string, b: string)
    requires LeaderInput(a) == LeaderInput(b)
    ensures a == b
  {
    assert a != "" ==> LeaderInput(a)["leader"] == a;
    assert b != "" ==> LeaderInput(b)["leader"] == b;
  }

  /** Tasks dealt out one after the other round the nodes. */
  function Dealt(order: seq<string>, alive: seq<Node>): map<string, Node>
    requires alive != []
  {
    if order == [] then map[]
    else Dealt(order[..|order| - 1], alive)[order[|order| - 1] := alive[(|order| - 1) % |alive|]]
  }

  lemma {:induction false} DealtToAlive(order: seq<string>, alive: seq<Node>)
    requires alive != []
    ensures |Dealt(order, alive).Keys| <= |order|
    ensures forall t :: t in Dealt(order, alive) ==> Dealt(order, alive)[t] in alive
  {
    if order != [] {
      var init := order[..|order| - 1];
      DealtToAlive(init, alive);
      assert Dealt(order, alive).Keys == Dealt(init, alive).Keys + {order[|order| - 1]};
    }
  }

  lemma LastIsFresh(order: seq<string>, alive: seq<Node>)
    requires alive != [] && order != [] && |Dealt(order, alive).Keys| == |order|
    ensures var init, last := order[..|order| - 1], order[|order| - 1];
            last !in init && |Dealt(init, alive).Keys| == |init|
  {
    var init, last := order[..|order| - 1], order[|order| - 1];
    DealtToAlive(init, alive);
    DealtHas(init, alive);
    assert Dealt(order, alive).Keys == Dealt(init, alive).Keys + {last};
  }

  lemma DealOneMore(order: seq<string>, alive: seq<Node>, t: string)
    requires alive != []
    ensures Dealt(order + [t], alive) == Dealt(order, alive)[t := alive[|order| % |alive|]]
  {
    assert (order + [t])[..|order|] == order;
  }

  lemma DealStep(order: seq<string>, alive: seq<Node>, all: set<string>, todo: set<string>, t: string)
    requires alive != [] && todo <= all && t in todo
    requires Dealt(order, alive).Keys == all - todo && |order| == |all - todo|
    ensures Dealt(order + [t], alive) == Dealt(order, alive)[t := alive[|order| % |alive|]]
    ensures Dealt(order + [t], alive).Keys == all - (todo - {t}) && |order + [t]| == |all - (todo - {t})|
  {
    DealOneMore(order, alive, t);
    OneMore(todo, all, all, t);
  }

  /** When no task is dealt twice, the i-th task gets the i-th node, going round. */
  lemma {:induction false} DealtInTurn(order: seq<string>, alive: seq<Node>, i: nat)
    requires alive != [] && |Dealt(order, alive).Keys| == |order| && i < |order|
    ensures order[i] in Dealt(order, alive) && Dealt(order, alive)[order[i]] == alive[i % |alive|]
  {
    var init, last := order[..|order| - 1], order[|order| - 1];
    LastIsFresh(order, alive);
    assert order == init + [last];
    DealOneMore(init, alive, last);
    if i < |init| {
      DealtInTurn(init, alive, i);
      assert order[i] in init;
    }
  }

  lemma {:induction false} DealtHas(order: seq<string>, alive: seq<Node>)
    requires alive != []
    ensures forall t :: t in order <==> t in Dealt(order, alive)
  {
    if order != [] {
      DealtHas(order[..|order| - 1], alive);
    }
  }

  class Leader {
    var nStages: nat
    var perStage: nat
    var source: string
    var hasTopology: bool
    var tasks: map<string, Task>
    var assignments: map<string, Node>
    var nextScaleNode: nat

    ghost function View(): Graph
      reads this
    {
      Graph(nStages, source, tasks, assignments)
    }

    constructor ()
      ensures !hasTopology && View() == Graph(0, "", map[], map[]) && nextScaleNode == 0
    {
      nStages, perStage, source, hasTopology := 0, 0, "", false;
      tasks, assignments, nextScaleNode := map[], map[], 0;
    }

    /** SubmitJob up to the point where tasks are sent to their nodes. The alive members, the leader
        left out, are looked up twice: `alive` before drafting, `aliveLater` before placing. The job
        spec is replaced before either can fail. */
    method SubmitJob(job: JobSpec, timestamp: nat, alive: seq<Node>, aliveLater: seq<Node>) returns (outcome: Submission)
      modifies this
      ensures nStages == job.nStages && perStage == job.perStage && source == job.source
      ensures outcome == NoMembers <==> alive == []
      ensures outcome == NotPlaced <==> alive != [] && aliveLater == []
      ensures outcome == NoMembers ==>
        hasTopology == old(hasTopology) && tasks == old(tasks) && assignments == old(assignments)
      ensures outcome == NotPlaced ==> hasTopology && Placeable(tasks, nStages, source) && assignments == old(assignments)
      ensures outcome == Submitted ==>
        && hasTopology && (perStage >= 1 ==> Wired(View())) && StageSizes(tasks, nStages, perStage)
        && forall t :: t in assignments ==> assignments[t] in aliveLater
    {
      nStages, perStage, source := job.nStages, job.perStage, job.source;
      if alive == [] {
        return NoMembers;
      }
      tasks := CreateTopology(timestamp);
      hasTopology := true;
      if aliveLater == [] {
        return NotPlaced;
      }
      PlaceDrafts(aliveLater);
      return Submitted;
    }

    method PlaceDrafts(alive: seq<Node>)
      requires alive != [] && Placeable(tasks, nStages, source) && StageSizes(tasks, nStages, perStage)
      requires perStage >= 1 ==> EveryStage(tasks, nStages)
      modifies `tasks, `assignments, `nextScaleNode
      ensures perStage >= 1 ==> Wired(View())
      ensures StageSizes(tasks, nStages, perStage)
      ensures forall t :: t in assignments ==> assignments[t] in alive
    {
      ghost var drafts := tasks;
      var _ := ComputeTaskAssignments(alive);
      AssignedKeepsSizes(drafts, assignments, nStages, perStage);
      if perStage >= 1 {
        AssignedIsWired(drafts, assignments, nStages, source);
      }
    }

    method CreateTopology(timestamp: nat) returns (drafts: map<string, Task>)
      ensures Placeable(drafts, nStages, source)
      ensures perStage >= 1 ==> EveryStage(drafts, nStages)
      ensures StageSizes(drafts, nStages, perStage)
    {
      drafts := DraftAll(timestamp);
      DraftedIsPlaceable(drafts, nStages, perStage, source, timestamp);
      DraftSizes(drafts, nStages, perStage, source, timestamp);
    }

    method DraftAll(timestamp: nat) returns (drafts: map<string, Task>)
      ensures Drafted(drafts, nStages, perStage, source, timestamp, nStages + 1, 0)
    {
      drafts := map[];
      var stage := 1;
      while stage <= nStages
        invariant 1 <= stage <= nStages + 1
        invariant Drafted(drafts, nStages, perStage, source, timestamp, stage, 0)
      {
        var index := 0;
        while index < perStage
          invariant 0 <= index <= perStage
          invariant Drafted(drafts, nStages, perStage, source, timestamp, stage, index)
        {
          var task := DraftTask(stage, index, timestamp);
          ghost var before := drafts;
          drafts := drafts[task.id := task];
          DraftedNext(before, nStages, perStage, source, timestamp, stage, index);
          index := index + 1;
        }
        DraftedStage(drafts, nStages, perStage, source, timestamp, stage);
        stage := stage + 1;
      }
    }

    method DraftTask(stage: nat, index: nat, timestamp: nat) returns (task: Task)
      requires stage >= 1
      ensures task == Draft(nStages, perStage, source, timestamp, stage, index)
    {
      var inputs, outputs: map<string, string> := map[], map[];
      if stage == 1 {
        if source != "" {
          inputs := inputs["leader" := source];
        }
      } else {
        inputs := ListStage(stage - 1, timestamp);
      }
      if stage < nStages {
        outputs := ListStage(stage + 1, timestamp);
      }
      task := Task(TaskId(stage, index, timestamp), stage, Node("", 0), "", inputs, outputs);
    }

    method ListStage(stage: nat, timestamp: nat) returns (targets: map<string, string>)
      ensures targets == Unplaced(IdsOf(stage, perStage, timestamp))
    {
      targets := map[];
      for i := 0 to perStage
        invariant targets == Unplaced(IdsOf(stage, i, timestamp))
      {
        ListedOneMore(stage, i, timestamp);
        targets := targets[TaskId(stage, i, timestamp) := ""];
      }
    }

    /** Round-robin placement, then addresses, then targets, each pass over the tasks in any order. */
    method ComputeTaskAssignments(alive: seq<Node>) returns (ghost order: seq<string>)
      requires alive != []
      modifies `tasks, `assignments, `nextScaleNode
      ensures assignments.Keys == old(tasks).Keys && tasks == Assigned(old(tasks), assignments)
      ensures assignments == Dealt(order, alive) && |order| == |assignments.Keys|
      ensures forall t :: t in assignments ==> assignments[t] in alive
      ensures nextScaleNode == |old(tasks).Keys| % |alive|
    {
      var nodeIndex;
      nodeIndex, order := AssignNodes(alive);
      DealtToAlive(order, alive);
      SetAddresses();
      ghost var placed := tasks;
      assert placed == Placed(old(tasks), assignments);
      FillTargets();
      assert tasks == AllFilled(placed);
      nextScaleNode := nodeIndex % |alive|;
    }

    method AssignNodes(alive: seq<Node>) returns (nodeIndex: nat, ghost order: seq<string>)
      requires alive != []
      modifies `assignments
      ensures assignments.Keys == tasks.Keys && nodeIndex == |tasks.Keys|
      ensures assignments == Dealt(order, alive) && |order| == |assignments.Keys|
    {
      nodeIndex, order := 0, [];
      assignments := map[];
      ghost var all := tasks.Keys;
      var todo := tasks.Keys;
      while todo != {}
        invariant todo <= all
        invariant Dealt(order, alive).Keys == all - todo && nodeIndex == |order| == |all - todo|
        invariant assignments == Dealt(order, alive)
      {
        var t :| t in todo;
        DealStep(order, alive, all, todo, t);
        assignments := assignments[t := alive[nodeIndex % |alive|]];
        order := order + [t];
        nodeIndex := nodeIndex + 1;
        todo := todo - {t};
      }
      assert all - todo == all;
    }

    method SetAddresses()
      requires tasks.Keys == assignments.Keys
      modifies `tasks
      ensures tasks == Placed(old(tasks), assignments)
    {
      ghost var placed := Placed(tasks, assignments);
      var todo := tasks.Keys;
      while todo != {}
        invariant todo <= tasks.Keys == old(tasks).Keys
        invariant forall t :: t in tasks ==> tasks[t] == if t in todo then old(tasks)[t] else placed[t]
      {
        var t :| t in todo;
        tasks := tasks[t := tasks[t].(node := assignments[t], address := TaskAddress(assignments[t]))];
        todo := todo - {t};
      }
    }

    method FillTargets()
      requires tasks.Keys == assignments.Keys
      modifies `tasks
      ensures tasks == AllFilled(old(tasks))
    {
      ghost var placed, done := tasks, AllFilled(tasks);
      var todo := tasks.Keys;
      while todo != {}
        invariant todo <= tasks.Keys == placed.Keys
        invariant forall t :: t in tasks ==> tasks[t] == if t in todo then placed[t] else done[t]
      {
        var t :| t in todo;
        FilledByAddress(tasks[t].inputs, tasks, placed);
        FilledByAddress(tasks[t].outputs, tasks, placed);
        var inputs := FillAddresses(tasks[t].inputs);
        var outputs := FillAddresses(tasks[t].outputs);
        tasks := tasks[t := tasks[t].(inputs := inputs, outputs := outputs)];
        todo := todo - {t};
      }
    }

    method FillAddresses(targets: map<string, string>) returns (filled: map<string, string>)
      requires tasks.Keys == assignments.Keys
      ensures filled == Filled(targets, tasks)
    {
      filled := targets;
      var todo := targets.Keys;
      while todo != {}
        invariant todo <= targets.Keys == filled.Keys
        invariant forall u :: u in filled ==> filled[u] == if u in todo then targets[u] else Filled(targets, tasks)[u]
      {
        var u :| u in todo;
        if u in assignments && u in tasks {
          filled := filled[u := tasks[u].address];
        }
        todo := todo - {u};
      }
    }

    /** One new task, placed on the next alive node, wired to both neighbouring stages. */
    method ScaleUpStage(stage: nat, timestamp: nat, alive: seq<Node>) returns (ok: bool)
      modifies `tasks, `assignments, `nextScaleNode
      ensures ok <==> hasTopology && 1 <= stage <= nStages && alive != []
      ensures !ok ==> View() == old(View()) && nextScaleNode == old(nextScaleNode)
      ensures ok ==>
        var node := alive[old(nextScaleNode) % |alive|];
        && View() == ScaledUp(old(View()), stage, TaskId(stage, |StageTasks(old(tasks), stage)|, timestamp), node)
        && nextScaleNode == (old(nextScaleNode) % |alive| + 1) % |alive|
      ensures old(Wired(View())) ==> Wired(View())
    {
      if !hasTopology || stage < 1 || stage > nStages || alive == [] {
        return false;
      }
      ghost var g := View();
      var count := CountStage(stage);
      var id := TaskId(stage, count, timestamp);
      assert Named(id, stage);
      var at := nextScaleNode % |alive|;
      var node := alive[at];
      nextScaleNode := (at + 1) % |alive|;
      var inputs, outputs := WireNeighbours(stage, id, TaskAddress(node));
      tasks := tasks[id := Task(id, stage, node, TaskAddress(node), inputs, outputs)];
      assignments := assignments[id := node];
      assert View() == ScaledUp(g, stage, id, node);
      if Wired(g) {
        ScaleUpKeepsWiring(g, stage, id, node);
      }
      return true;
    }

    /** Lists the new task with its neighbours, and returns its own targets. */
    method WireNeighbours(stage: nat, id: string, address: string)
      returns (inputs: map<string, string>, outputs: map<string, string>)
      requires 1 <= stage <= nStages
      modifies `tasks
      ensures tasks == WelcomedAll(old(View()), stage, id, address)
      ensures inputs == if stage == 1 then LeaderInput(source) else AddressesOf(old(tasks), stage - 1)
      ensures outputs == if stage < nStages then AddressesOf(old(tasks), stage + 1) else map[]
    {
      ghost var g := View();
      inputs, outputs := map[], map[];
      if stage == 1 {
        if source != "" {
          inputs := inputs["leader" := source];
        }
      } else {
        inputs := FeedFrom(stage - 1, id, address);
        FedKeepsAddresses(g.tasks, tasks, stage - 1, id, address, stage + 1);
      }
      ghost var mid := tasks;
      if stage < nStages {
        outputs := FeedInto(stage + 1, id, address);
      }
      FedAndHeard(g, mid, tasks, stage, id, address);
    }

    method CountStage(stage: nat) returns (count: nat)
      ensures count == |StageTasks(tasks, stage)|
    {
      count := 0;
      ghost var members := StageTasks(tasks, stage);
      var todo := tasks.Keys;
      while todo != {}
        invariant todo <= tasks.Keys && count == |members - todo|
      {
        var t :| t in todo;
        OneMore(todo, tasks.Keys, members, t);
        if tasks[t].stage == stage {
          count := count + 1;
        }
        todo := todo - {t};
      }
      assert members - todo == members;
    }

    /** Makes every task of `stage` send to the new task; returns them as its inputs. */
    method FeedFrom(stage: nat, id: string, address: string) returns (inputs: map<string, string>)
      modifies `tasks
      ensures inputs == AddressesOf(old(tasks), stage)
      ensures Fed(old(tasks), tasks, stage, id, address)
    {
      inputs := map[];
      ghost var g := tasks;
      var todo := tasks.Keys;
      while todo != {}
        invariant todo <= tasks.Keys == g.Keys
        invariant forall t :: t in inputs <==> t in g && t !in todo && g[t].stage == stage
        invariant forall t :: t in inputs ==> inputs[t] == g[t].address
        invariant forall t :: t in tasks ==>
          tasks[t] == if t !in todo && g[t].stage == stage then g[t].(outputs := g[t].outputs[id := address]) else g[t]
      {
        var t :| t in todo;
        if tasks[t].stage == stage {
          inputs := inputs[t := tasks[t].address];
          tasks := tasks[t := tasks[t].(outputs := tasks[t].outputs[id := address])];
        }
        todo := todo - {t};
      }
    }

    /** Makes every task of `stage` ACK to the new task; returns them as its targets. */
    method FeedInto(stage: nat, id: string, address: string) returns (outputs: map<string, string>)
      modifies `tasks
      ensures outputs == AddressesOf(old(tasks), stage)
      ensures Heard(old(tasks), tasks, stage, id, address)
    {
      outputs := map[];
      ghost var g := tasks;
      var todo := tasks.Keys;
      while todo != {}
        invariant todo <= tasks.Keys == g.Keys
        invariant forall t :: t in outputs <==> t in g && t !in todo && g[t].stage == stage
        invariant forall t :: t in outputs ==> outputs[t] == g[t].address
        invariant forall t :: t in tasks ==>
          tasks[t] == if t !in todo && g[t].stage == stage then g[t].(inputs := g[t].inputs[id := address]) else g[t]
      {
        var t :| t in todo;
        if tasks[t].stage == stage {
          outputs := outputs[t := tasks[t].address];
          tasks := tasks[t := tasks[t].(inputs := tasks[t].inputs[id := address])];
        }
        todo := todo - {t};
      }
    }

    /** Removes some task of the stage, unless it is the only one, and names a survivor for its WAL. */
    method ScaleDownStage(stage: nat) returns (ok: bool, removed: string, keep: string)
      modifies `tasks, `assignments
      ensures ok ==> hasTopology && 1 <= stage <= nStages && |StageTasks(old(tasks), stage)| > 1
      ensures old(Wired(View())) ==>
        (ok <==> hasTopology && 1 <= stage <= nStages && |StageTasks(old(tasks), stage)| > 1)
      ensures !ok ==> View() == old(View())
      ensures ok ==>
        && removed in StageTasks(old(tasks), stage) && keep in StageTasks(old(tasks), stage) && keep != removed
        && View() == ScaledDown(old(View()), stage, removed)
        && keep in tasks && (old(Wired(View())) ==> keep in assignments)
      ensures old(Wired(View())) ==> Wired(View())
    {
      removed, keep := "", "";
      if !hasTopology || stage < 1 || stage > nStages {
        return false, removed, keep;
      }
      var count := CountStage(stage);
      if count <= 1 {
        return false, removed, keep;
      }
      ghost var g := View();
      var members := StageTasks(tasks, stage);
      removed :| removed in members;
      assert |members - {removed}| == |members| - 1;
      keep :| keep in members - {removed};
      if removed !in assignments {
        return false, removed, keep;
      }
      Detach(stage, removed);
      tasks := tasks - {removed};
      assignments := assignments - {removed};
      assert View() == ScaledDown(g, stage, removed);
      if Wired(g) {
        ScaleDownKeepsWiring(g, stage, removed, keep);
      }
      return true, removed, keep;
    }

    method Detach(stage: nat, id: string)
      modifies `tasks
      ensures tasks == DeprivedAll(old(View()), stage, id)
    {
      ghost var g := View();
      var todo := tasks.Keys;
      while todo != {}
        invariant todo <= tasks.Keys == g.tasks.Keys
        invariant forall t :: t in tasks ==>
          tasks[t] == if t in todo then g.tasks[t] else Deprived(g, g.tasks[t], stage, id)
      {
        var t :| t in todo;
        if stage > 1 && tasks[t].stage == stage - 1 {
          tasks := tasks[t := tasks[t].(outputs := tasks[t].outputs - {id})];
        } else if stage < nStages && tasks[t].stage == stage + 1 {
          tasks := tasks[t := tasks[t].(inputs := tasks[t].inputs - {id})];
        }
        todo := todo - {t};
      }
    }
  }

  lemma DraftedNext(tasks: map<string, Task>, nStages: nat, perStage: nat, source: string, timestamp: nat,
                    stage: nat, index: nat)
    requires Drafted(tasks, nStages, perStage, source, timestamp, stage, index) && stage >= 1 && index < perStage
    ensures var task := Draft(nStages, perStage, source, timestamp, stage, index);
            Drafted(tasks[task.id := task], nStages, perStage, source, timestamp, stage, index + 1)
  {
    var task := Draft(nStages, perStage, source, timestamp, stage, index);
    var next := tasks[task.id := task];
    forall s: nat, i: nat | Before(perStage, s, i, stage, index + 1)
      ensures TaskId(s, i, timestamp) in next
      ensures next[TaskId(s, i, timestamp)] == Draft(nStages, perStage, source, timestamp, s, i)
    {
      if TaskId(s, i, timestamp) == task.id {
        TaskIdInjective(s, i, timestamp, stage, index, timestamp);
      } else {
        assert Before(perStage, s, i, stage, index);
      }
    }
    forall t | t in next
      ensures exists s: nat, i: nat :: Before(perStage, s, i, stage, index + 1) && t == TaskId(s, i, timestamp)
    {
      if t == task.id {
        assert Before(perStage, stage, index, stage, index + 1);
      } else {
        var s: nat, i: nat :| Before(perStage, s, i, stage, index) && t == TaskId(s, i, timestamp);
        assert Before(perStage, s, i, stage, index + 1);
      }
    }
  }

  lemma DraftedStage(tasks: map<string, Task>, nStages: nat, perStage: nat, source: string, timestamp: nat, stage: nat)
    requires Drafted(tasks, nStages, perStage, source, timestamp, stage, perStage)
    ensures Drafted(tasks, nStages, perStage, source, timestamp, stage + 1, 0)
  {
    assert forall s: nat, i: nat :: Before(perStage, s, i, stage, perStage) <==> Before(perStage, s, i, stage + 1, 0);
  }
}
