/** All tasks of a job on one wired graph, with the leader as the source: every tuple reaches the
    task its key selects, and what a stage of aggregate tasks counts. */
module Pipeline {
  import opened Wal
  import opened ExactlyOnce
  import opened Counting
  import opened Orders
  import opened Routing
  import opened Topology
  import TaskRuns
  import TaskOutput

  /** What moving tuples depends on: each task's stage, address and last-stage flag, where a task sends
      a key (`hop`), where the leader sends it (`entry`), where a key belongs at a stage (`home`), and
      the key a tuple ID carries at a stage. */
  datatype Routes = Routes(
    stages: map<string, nat>, addresses: map<string, string>, last: nat,
    hop: string -> string -> (string, string), entry: string -> (string, string),
    home: nat -> string -> (string, string), keyOf: nat -> string -> string)

  type Message = TaskRuns.Message

  /** Messages stay on the wire: each may be delivered late, never or many times. */
  datatype Net = Net(tasks: map<string, TaskRuns.Task>, wire: set<Message>, delivered: set<Message>)

  datatype Step =
    | LeaderSend(tuple: Tuple)
    | Run(task: string, step: TaskRuns.Step)
    | Deliver(message: Message)

  predicate Keyed(batch: seq<Tuple>, keyOf: string -> string) {
    forall o :: o in batch ==> o.key == keyOf(o.id)
  }

  /** What a worker running a task does of its own accord: it forwards to where the key goes, and a
      retry goes to where the key goes now or went before. Outputs carry their IDs' keys. */
  ghost predicate Steered(
    s: TaskRuns.Task, step: TaskRuns.Step, hop: string -> (string, string), keyOf: string -> string)
    requires TaskRuns.Enabled(s, step)
  {
    match step
    case Receive(_, _) => false
    case Crash(_) => false
    case Merge(_, _) => false
    case ReadLine(_, batch) => Keyed(batch, keyOf)
    case Forward(target, _) =>
      var (id, address) := hop(s.driver.batch[s.driver.next].key);
      target == TaskRuns.To(id, address)
    case RetryRedirect(id, taskId) =>
      var t := s.retrying[id].tuple;
      taskId == t.taskId || taskId == hop(t.key).0
    case RetrySend(id, address, _) =>
      var st := s.retrying[id];
      address == st.destination || address == hop(st.tuple.key).1
    case _ => true
  }

  /** A message finds its task only at the task's own address. */
  predicate Arrives(r: Routes, m: Message) {
    m.tuple.taskId in r.addresses && r.addresses[m.tuple.taskId] == m.address
  }

  ghost predicate Enabled(r: Routes, n: Net, step: Step) {
    match step
    case LeaderSend(t) => t.key == r.keyOf(1)(t.id)
    case Run(u, s) =>
      && u in n.tasks && u in r.stages && TaskRuns.Enabled(n.tasks[u], s)
      && Steered(n.tasks[u], s, r.hop(u), r.keyOf(r.stages[u] + 1))
    case Deliver(m) => m in n.wire
  }

  ghost function Next(r: Routes, n: Net, step: Step): Net
    requires Enabled(r, n, step)
  {
    match step
    case LeaderSend(t) =>
      var (id, address) := r.entry(t.key);
      if id == "" then n else n.(wire := n.wire + {TaskRuns.Message(address, t.(senderId := "leader", taskId := id))})
    case Run(u, s) =>
      n.(tasks := n.tasks[u := TaskRuns.Next(n.tasks[u], s)], wire := n.wire + (set m | m in TaskRuns.Posted(n.tasks[u], s)))
    case Deliver(m) =>
      var u := m.tuple.taskId;
      if u in n.tasks && Arrives(r, m) then
        n.(tasks := n.tasks[u := TaskRuns.Next(n.tasks[u], TaskRuns.Receive(m.tuple, true))],
           delivered := n.delivered + {m})
      else n
  }

  ghost predicate Legal(r: Routes, n: Net, steps: seq<Step>)
    decreases |steps|, 0
  {
    steps == [] ||
    (Legal(r, n, steps[..|steps| - 1]) && Enabled(r, Exec(r, n, steps[..|steps| - 1]), steps[|steps| - 1]))
  }

  ghost function Exec(r: Routes, n: Net, steps: seq<Step>): Net
    requires Legal(r, n, steps)
    decreases |steps|, 1
  {
    if steps == [] then n else Next(r, Exec(r, n, steps[..|steps| - 1]), steps[|steps| - 1])
  }

  function Started(r: Routes): Net {
    Net(map u | u in r.stages :: TaskRuns.Init(u, r.stages[u] == r.last), {}, {})
  }

  // ---- Where a graph sends its keys ----

  ghost function Hop(g: Graph, u: string, hash: nat): (string, string) {
    if u in g.tasks then Select(g.tasks[u].outputs, hash) else ("", "")
  }

  /** Every task picks from its own targets, the leader from the tasks of stage 1. */
  ghost function RoutesOf(g: Graph, hash: string -> nat, keyOf: nat -> string -> string): Routes {
    Routes(
      map u | u in g.tasks :: g.tasks[u].stage, map u | u in g.tasks :: g.tasks[u].address, g.nStages,
      (u: string) => (key: string) => Hop(g, u, hash(key)),
      (key: string) => Home(g, 1, hash(key)),
      (stage: nat) => (key: string) => Home(g, stage, hash(key)),
      keyOf)
  }

  ghost predicate HomeOk(r: Routes, stage: nat, key: string) {
    1 <= stage <= r.last ==>
      var (id, address) := r.home(stage)(key);
      id in r.stages && r.stages[id] == stage && id in r.addresses && r.addresses[id] == address && id != ""
  }

  ghost predicate HopOk(r: Routes, u: string, key: string) {
    u in r.stages ==>
      1 <= r.stages[u] <= r.last && r.hop(u)(key) == r.home(r.stages[u] + 1)(key)
  }

  ghost predicate EntryOk(r: Routes, key: string) {
    if r.last >= 1 then r.entry(key) == r.home(1)(key) else r.entry(key).0 == ""
  }

  /** Whoever sends a key to a stage sends it to its home there, a current task at its own address. */
  ghost predicate Coherent(r: Routes) {
    && r.stages.Keys == r.addresses.Keys
    && (forall stage: nat, key: string {:trigger HomeOk(r, stage, key)} :: HomeOk(r, stage, key))
    && (forall u: string, key: string {:trigger HopOk(r, u, key)} :: HopOk(r, u, key))
    && (forall key: string {:trigger EntryOk(r, key)} :: EntryOk(r, key))
  }

  lemma HopIsHome(g: Graph, u: string, hash: nat)
    requires Wired(g) && u in g.tasks
    ensures 1 <= g.tasks[u].stage <= g.nStages
    ensures Hop(g, u, hash) == Home(g, g.tasks[u].stage + 1, hash)
  {
    assert TaskOk(g, g.tasks[u]);
  }

  lemma HomeIsCurrent(g: Graph, hash: string -> nat, keyOf: nat -> string -> string, stage: nat, key: string)
    requires Wired(g)
    ensures HomeOk(RoutesOf(g, hash, keyOf), stage, key)
  {
    if 1 <= stage <= g.nStages {
      StageHasHome(g, stage, hash(key));
    }
  }

  lemma HopOnRoutes(g: Graph, hash: string -> nat, keyOf: nat -> string -> string, u: string, key: string)
    requires u in g.tasks && Hop(g, u, hash(key)) == Home(g, g.tasks[u].stage + 1, hash(key))
    ensures var r := RoutesOf(g, hash, keyOf);
            r.hop(u)(key) == r.home(g.tasks[u].stage + 1)(key)
  {
  }

  lemma SameStage(g: Graph, hash: string -> nat, keyOf: nat -> string -> string, r: Routes, u: string, key: string)
    requires r == RoutesOf(g, hash, keyOf) && u in g.tasks && 1 <= g.tasks[u].stage <= g.nStages
    requires r.hop(u)(key) == r.home(g.tasks[u].stage + 1)(key)
    ensures HopOk(r, u, key)
  {
    assert r.stages[u] == g.tasks[u].stage;
  }

  lemma HopLeadsHome(g: Graph, hash: string -> nat, keyOf: nat -> string -> string, u: string, key: string)
    requires Wired(g)
    ensures u in g.tasks ==> HopOk(RoutesOf(g, hash, keyOf), u, key)
  {
    if u in g.tasks {
      HopIsHome(g, u, hash(key));
      HopOnRoutes(g, hash, keyOf, u, key);
      SameStage(g, hash, keyOf, RoutesOf(g, hash, keyOf), u, key);
    }
  }

  lemma EntryLeadsHome(g: Graph, hash: string -> nat, keyOf: nat -> string -> string, key: string)
    requires Wired(g)
    ensures EntryOk(RoutesOf(g, hash, keyOf), key)
  {
    if g.nStages == 0 {
      NoTasksAbove(g);
      assert Home(g, 1, hash(key)) == ("", "");
    }
  }

  /** On a wired graph the reading loop of a task before the last stage drops no output: each goes to where its key
      belongs in the next stage. */
  lemma WiredTaskDropsNothing(g: Graph, u: string, hash: string -> nat, now: int, t: Tuple, next: nat)
    requires u in g.tasks && g.tasks[u].stage + 1 == next <= g.nStages
    requires Wired(g)
    ensures var target := TaskOutput.TargetOf(TaskOutput.Route(u, g.tasks[u].outputs, hash, now), t);
            TaskRuns.HasAddress(target) && (target.taskId, target.address) == Home(g, next, hash(t.key))
  {
    SendsHome(g, u, next, hash(t.key));
    HomeIsServed(g, next, hash(t.key));
  }

  /** With every stage-1 task running, the leader's choice is the entry the routes use, at the task's own
      address, and it does not depend on the candidates it is given. */
  lemma EntryIsLeaderChoice(g: Graph, statuses: map<string, TaskStatus>, candidates: set<string>, hash: nat)
    requires Wired(g) && g.nStages >= 1
    requires forall t :: t in g.tasks && g.tasks[t].stage == 1 && t in statuses ==> statuses[t] == Running
    ensures var id := LeaderChoice(true, g.tasks, statuses, candidates, hash);
            id in g.tasks && (id, g.tasks[id].address) == Home(g, 1, hash)
  {
    assert Eligible(g.tasks, statuses) == AddressesOf(g.tasks, 1).Keys;
    StageHasHome(g, 1, hash);
  }

  /** The wiring invariant makes the routing coherent. */
  lemma WiredIsCoherent(g: Graph, hash: string -> nat, keyOf: nat -> string -> string)
    requires Wired(g)
    ensures Coherent(RoutesOf(g, hash, keyOf))
  {
    var r := RoutesOf(g, hash, keyOf);
    forall stage: nat, key: string ensures HomeOk(r, stage, key) { HomeIsCurrent(g, hash, keyOf, stage, key); }
    forall u: string, key: string ensures HopOk(r, u, key) { HopLeadsHome(g, hash, keyOf, u, key); }
    forall key: string ensures EntryOk(r, key) { EntryLeadsHome(g, hash, keyOf, key); }
  }

  // ---- The invariant ----

  ghost predicate AtHome(home: string -> (string, string), keyOf: string -> string, address: string, t: Tuple) {
    (t.taskId, address) == home(t.key) && t.key == keyOf(t.id)
  }

  ghost predicate RoutedSends(home: string -> (string, string), keyOf: string -> string, sends: map<string, SentTuple>) {
    forall id :: id in sends ==>
      sends[id].tuple.id == id && AtHome(home, keyOf, sends[id].destination, sends[id].tuple)
  }

  /** Everything a task tracks or is about to send is on its key's way. */
  ghost predicate SendsOk(s: TaskRuns.Task, home: string -> (string, string), keyOf: string -> string) {
    && (s.mgr.isFinalStage ==> s.mgr.sent == map[] && s.retrying == map[])
    && RoutedSends(home, keyOf, s.mgr.sent) && RoutedSends(home, keyOf, s.retrying)
    && (s.driver.Emitting? ==> Keyed(s.driver.batch, keyOf))
  }

  ghost predicate Routed(r: Routes, m: Message) {
    && m.tuple.taskId in r.stages
    && var stage := r.stages[m.tuple.taskId];
       1 <= stage <= r.last && AtHome(r.home(stage), r.keyOf(stage), m.address, m.tuple)
  }

  ghost predicate WireOk(r: Routes, n: Net) {
    (forall m :: m in n.wire ==> Routed(r, m)) && n.delivered <= n.wire
  }

  function DeliveredTo(delivered: set<Message>, u: string): set<string> {
    set m | m in delivered && m.tuple.taskId == u :: m.tuple.id
  }

  ghost predicate StdinIs(s: TaskRuns.Task, ids: set<string>) {
    (forall id :: id in s.stdin <==> id in ids) && (forall id :: id in s.mgr.received <==> id in ids)
  }

  ghost predicate TaskGood(r: Routes, u: string, s: TaskRuns.Task, ids: set<string>)
    requires u in r.stages
  {
    && TaskRuns.Inv(s)
    && (s.mgr.isFinalStage <==> r.stages[u] == r.last)
    && SendsOk(s, r.hop(u), r.keyOf(r.stages[u] + 1))
    && StdinIs(s, ids)
  }

  ghost predicate GoodAt(r: Routes, n: Net, u: string) {
    u in n.tasks && u in r.stages && TaskGood(r, u, n.tasks[u], DeliveredTo(n.delivered, u))
  }

  ghost predicate AllGood(r: Routes, n: Net) {
    && n.tasks.Keys == r.stages.Keys
    && forall u {:trigger GoodAt(r, n, u)} :: u in n.tasks ==> GoodAt(r, n, u)
  }

  ghost predicate Inv(r: Routes, n: Net) {
    WireOk(r, n) && AllGood(r, n)
  }

  // ---- A task's own steps keep its sends on their way ----

  lemma QuietStep(s: TaskRuns.Task, step: TaskRuns.Step)
    requires TaskRuns.DriverOk(s) && TaskRuns.Enabled(s, step)
    requires !step.Receive? && !step.Crash? && !step.Merge?
    ensures TaskRuns.Next(s, step).stdin == s.stdin
    ensures TaskRuns.Next(s, step).mgr.received.Keys == s.mgr.received.Keys
  {
    QuietStdin(s, step);
  }

  lemma QuietStdin(s: TaskRuns.Task, step: TaskRuns.Step)
    requires TaskRuns.Enabled(s, step) && !step.Receive? && !step.Crash?
    ensures TaskRuns.Next(s, step).stdin == s.stdin
  {
  }

  lemma ReceiveStep(s: TaskRuns.Task, t: Tuple, ids: set<string>)
    requires TaskRuns.Inv(s) && StdinIs(s, ids)
    ensures StdinIs(TaskRuns.Next(s, TaskRuns.Receive(t, true)), ids + {t.id})
  {
  }

  lemma ReceiveKeepsSends(s: TaskRuns.Task, t: Tuple, hop: string -> (string, string), keyOf: string -> string)
    requires SendsOk(s, hop, keyOf)
    ensures SendsOk(TaskRuns.Next(s, TaskRuns.Receive(t, true)), hop, keyOf)
    ensures TaskRuns.Next(s, TaskRuns.Receive(t, true)).mgr.isFinalStage == s.mgr.isFinalStage
  {
  }

  ghost predicate PostedAtHome(
    s: TaskRuns.Task, step: TaskRuns.Step, hop: string -> (string, string), keyOf: string -> string)
    requires TaskRuns.Enabled(s, step)
  {
    forall m :: m in TaskRuns.Posted(s, step) ==> !s.mgr.isFinalStage && AtHome(hop, keyOf, m.address, m.tuple)
  }

  lemma ForwardIsRouted(s: TaskRuns.Task, step: TaskRuns.Step, hop: string -> (string, string), keyOf: string -> string)
    requires SendsOk(s, hop, keyOf) && step.Forward? && TaskRuns.Enabled(s, step) && Steered(s, step, hop, keyOf)
    ensures SendsOk(TaskRuns.Next(s, step), hop, keyOf) && PostedAtHome(s, step, hop, keyOf)
  {
    assert s.driver.batch[s.driver.next] in s.driver.batch;
  }

  lemma RetryIsRouted(s: TaskRuns.Task, step: TaskRuns.Step, hop: string -> (string, string), keyOf: string -> string)
    requires SendsOk(s, hop, keyOf) && TaskRuns.Enabled(s, step) && Steered(s, step, hop, keyOf)
    requires step.RetryRedirect? || step.RetrySend?
    ensures SendsOk(TaskRuns.Next(s, step), hop, keyOf) && PostedAtHome(s, step, hop, keyOf)
  {
    assert AtHome(hop, keyOf, s.retrying[step.id].destination, s.retrying[step.id].tuple);
  }

  lemma OtherStepIsRouted(s: TaskRuns.Task, step: TaskRuns.Step, hop: string -> (string, string), keyOf: string -> string)
    requires SendsOk(s, hop, keyOf) && TaskRuns.Enabled(s, step) && Steered(s, step, hop, keyOf)
    requires !step.Forward? && !step.RetryRedirect? && !step.RetrySend?
    ensures SendsOk(TaskRuns.Next(s, step), hop, keyOf) && PostedAtHome(s, step, hop, keyOf)
  {
  }

  lemma TaskStepIsRouted(s: TaskRuns.Task, step: TaskRuns.Step, hop: string -> (string, string), keyOf: string -> string)
    requires SendsOk(s, hop, keyOf) && TaskRuns.Enabled(s, step) && Steered(s, step, hop, keyOf)
    ensures SendsOk(TaskRuns.Next(s, step), hop, keyOf) && PostedAtHome(s, step, hop, keyOf)
  {
    if step.Forward? {
      ForwardIsRouted(s, step, hop, keyOf);
    } else if step.RetryRedirect? || step.RetrySend? {
      RetryIsRouted(s, step, hop, keyOf);
    } else {
      OtherStepIsRouted(s, step, hop, keyOf);
    }
  }

  // ---- ... and so does the net ----

  /** A message on its key's way from a task is at the key's home in the next stage. */
  lemma PostedIsRouted(r: Routes, u: string, m: Message)
    requires Coherent(r) && u in r.stages && r.stages[u] != r.last
    requires AtHome(r.hop(u), r.keyOf(r.stages[u] + 1), m.address, m.tuple)
    ensures Routed(r, m)
  {
    assert HopOk(r, u, m.tuple.key) && HomeOk(r, r.stages[u] + 1, m.tuple.key);
  }

  lemma PostedAreRouted(r: Routes, u: string, s: TaskRuns.Task, step: TaskRuns.Step)
    requires Coherent(r) && u in r.stages && (s.mgr.isFinalStage <==> r.stages[u] == r.last)
    requires TaskRuns.Enabled(s, step) && PostedAtHome(s, step, r.hop(u), r.keyOf(r.stages[u] + 1))
    ensures forall m :: m in TaskRuns.Posted(s, step) ==> Routed(r, m)
  {
    forall m | m in TaskRuns.Posted(s, step)
      ensures Routed(r, m)
    {
      PostedIsRouted(r, u, m);
    }
  }

  lemma RunStepInv(r: Routes, n: Net, u: string, step: TaskRuns.Step)
    requires Coherent(r) && Inv(r, n) && Enabled(r, n, Run(u, step))
    ensures Inv(r, Next(r, n, Run(u, step)))
  {
    var after := Next(r, n, Run(u, step));
    assert GoodAt(r, n, u);
    StepKeepsTask(r, u, n.tasks[u], step, DeliveredTo(n.delivered, u));
    assert GoodAt(r, after, u);
    OneTaskMoves(r, n, after, u);
  }

  lemma StepKeepsInv(r: Routes, u: string, s: TaskRuns.Task, step: TaskRuns.Step, ids: set<string>)
    requires u in r.stages && TaskRuns.Enabled(s, step)
    ensures TaskGood(r, u, s, ids) ==> TaskRuns.Inv(TaskRuns.Next(s, step))
  {
    if TaskGood(r, u, s, ids) {
      TaskRuns.StepInv(s, step);
    }
  }

  lemma StepKeepsStdin(r: Routes, u: string, s: TaskRuns.Task, step: TaskRuns.Step, ids: set<string>)
    requires u in r.stages && TaskRuns.Enabled(s, step) && !step.Receive? && !step.Crash? && !step.Merge?
    ensures TaskGood(r, u, s, ids) ==> StdinIs(TaskRuns.Next(s, step), ids)
  {
    if TaskGood(r, u, s, ids) {
      QuietStep(s, step);
    }
  }

  lemma StepKeepsSends(r: Routes, u: string, s: TaskRuns.Task, step: TaskRuns.Step, ids: set<string>)
    requires Coherent(r) && u in r.stages && TaskRuns.Enabled(s, step)
    requires Steered(s, step, r.hop(u), r.keyOf(r.stages[u] + 1))
    ensures TaskGood(r, u, s, ids) ==> SendsOk(TaskRuns.Next(s, step), r.hop(u), r.keyOf(r.stages[u] + 1))
    ensures TaskGood(r, u, s, ids) ==> forall m :: m in TaskRuns.Posted(s, step) ==> Routed(r, m)
  {
    if TaskGood(r, u, s, ids) {
      TaskStepIsRouted(s, step, r.hop(u), r.keyOf(r.stages[u] + 1));
      PostedAreRouted(r, u, s, step);
    }
  }

  lemma StepKeepsTask(r: Routes, u: string, s: TaskRuns.Task, step: TaskRuns.Step, ids: set<string>)
    requires Coherent(r) && u in r.stages && TaskRuns.Enabled(s, step)
    requires Steered(s, step, r.hop(u), r.keyOf(r.stages[u] + 1))
    ensures TaskGood(r, u, s, ids) ==> TaskGood(r, u, TaskRuns.Next(s, step), ids)
    ensures TaskGood(r, u, s, ids) ==> forall m :: m in TaskRuns.Posted(s, step) ==> Routed(r, m)
  {
    StepKeepsInv(r, u, s, step, ids);
    StepKeepsStdin(r, u, s, step, ids);
    StepKeepsSends(r, u, s, step, ids);
    TaskRuns.FinalStageStays(s, step);
  }

  lemma ReceiveKeepsTask(r: Routes, u: string, s: TaskRuns.Task, t: Tuple, ids: set<string>)
    requires u in r.stages
    ensures TaskGood(r, u, s, ids) ==> TaskGood(r, u, TaskRuns.Next(s, TaskRuns.Receive(t, true)), ids + {t.id})
  {
    if TaskGood(r, u, s, ids) {
      TaskRuns.StepInv(s, TaskRuns.Receive(t, true));
      ReceiveStep(s, t, ids);
      ReceiveKeepsSends(s, t, r.hop(u), r.keyOf(r.stages[u] + 1));
    }
  }

  lemma DeliveredOneMore(delivered: set<Message>, m: Message, u: string)
    ensures DeliveredTo(delivered + {m}, u) ==
            if m.tuple.taskId == u then DeliveredTo(delivered, u) + {m.tuple.id} else DeliveredTo(delivered, u)
  {
  }

  /** A step that touches one task, posts routed messages and delivers some of the wire's keeps the rest. */
  lemma OneTaskMoves(r: Routes, n: Net, after: Net, u: string)
    requires Inv(r, n) && u in n.tasks && u in after.tasks && after.tasks == n.tasks[u := after.tasks[u]]
    requires n.wire <= after.wire && after.delivered <= n.wire
    requires forall m :: m in after.wire ==> m in n.wire || Routed(r, m)
    requires forall v :: v != u ==> DeliveredTo(after.delivered, v) == DeliveredTo(n.delivered, v)
    ensures GoodAt(r, after, u) ==> Inv(r, after)
  {
    forall v | v in n.tasks && v != u
      ensures GoodAt(r, after, v)
    {
      assert GoodAt(r, n, v);
    }
  }

  lemma RoutedArrives(r: Routes, m: Message)
    requires Coherent(r) && Routed(r, m)
    ensures Arrives(r, m)
  {
    assert HomeOk(r, r.stages[m.tuple.taskId], m.tuple.key);
  }

  lemma DeliverInv(r: Routes, n: Net, m: Message)
    requires Coherent(r) && Inv(r, n) && m in n.wire
    ensures Inv(r, Next(r, n, Deliver(m))) && m in Next(r, n, Deliver(m)).delivered
  {
    var u, after := m.tuple.taskId, Next(r, n, Deliver(m));
    assert Routed(r, m);
    RoutedArrives(r, m);
    assert GoodAt(r, n, u);
    ReceiveKeepsTask(r, u, n.tasks[u], m.tuple, DeliveredTo(n.delivered, u));
    forall v ensures v != u ==> DeliveredTo(after.delivered, v) == DeliveredTo(n.delivered, v) {
      DeliveredOneMore(n.delivered, m, v);
    }
    DeliveredOneMore(n.delivered, m, u);
    assert GoodAt(r, after, u);
    OneTaskMoves(r, n, after, u);
  }

  lemma LeaderSendInv(r: Routes, n: Net, t: Tuple)
    requires Coherent(r) && Inv(r, n) && Enabled(r, n, LeaderSend(t))
    ensures Inv(r, Next(r, n, LeaderSend(t)))
  {
    var after := Next(r, n, LeaderSend(t));
    var (id, address) := r.entry(t.key);
    assert EntryOk(r, t.key) && HomeOk(r, 1, t.key);
    assert after.tasks == n.tasks && after.delivered == n.delivered;
    forall m | m in after.wire
      ensures Routed(r, m)
    {
      if m !in n.wire {
        assert m == TaskRuns.Message(address, t.(senderId := "leader", taskId := id));
      }
    }
    forall u | u in after.tasks
      ensures GoodAt(r, after, u)
    {
      assert GoodAt(r, n, u);
    }
  }

  lemma StartedInv(r: Routes)
    ensures Inv(r, Started(r))
  {
    var n := Started(r);
    forall u | u in n.tasks
      ensures GoodAt(r, n, u)
    {
      TaskRuns.InitInv(u, r.stages[u] == r.last);
      assert DeliveredTo(n.delivered, u) == {};
    }
  }

  lemma {:induction false} RunInv(r: Routes, steps: seq<Step>)
    requires Coherent(r) && Legal(r, Started(r), steps)
    ensures Inv(r, Exec(r, Started(r), steps))
  {
    if steps == [] {
      StartedInv(r);
    } else {
      RunInv(r, steps[..|steps| - 1]);
      var n := Exec(r, Started(r), steps[..|steps| - 1]);
      match steps[|steps| - 1]
      case LeaderSend(t) => LeaderSendInv(r, n, t);
      case Run(u, s) => RunStepInv(r, n, u, s);
      case Deliver(m) => DeliverInv(r, n, m);
    }
  }

  // ---- The theorems ----

  /** The distinct IDs with a key delivered to the tasks of a stage, whichever of them. */
  function DeliveredIds(r: Routes, delivered: set<Message>, stage: nat, key: string): set<string> {
    set m | m in delivered && m.tuple.taskId in r.stages && r.stages[m.tuple.taskId] == stage && m.tuple.key == key
      :: m.tuple.id
  }

  lemma DeliveredAtHome(r: Routes, n: Net, name: string, key: string)
    requires Inv(r, n) && name in r.stages
    ensures var stage := r.stages[name];
            WithKey(DeliveredTo(n.delivered, name), r.keyOf(stage), key) ==
            if name == r.home(stage)(key).0 then DeliveredIds(r, n.delivered, stage, key) else {}
  {
    forall m | m in n.delivered
      ensures Routed(r, m)
    {
      assert m in n.wire;
    }
  }

  lemma CountsOnRoutes(r: Routes, n: Net, name: string, key: string)
    requires Inv(r, n) && name in r.stages
    ensures var stage := r.stages[name];
            && name in n.tasks
            && LastValue(Emitted(ItemsOf(n.tasks[name].stdin, r.keyOf(stage))), key) ==
               if name == r.home(stage)(key).0 then |DeliveredIds(r, n.delivered, stage, key)| else 0
  {
    var s, stage := n.tasks[name], r.stages[name];
    assert GoodAt(r, n, name);
    LastValueCountsDistinct(s.stdin, r.keyOf(stage), key);
    assert Elements(s.stdin) == DeliveredTo(n.delivered, name);
    DeliveredAtHome(r, n, name, key);
  }

  /** Every message ever sent, however late or repeated, goes to one task for its key and stage: the one
      the sorted tasks of the stage and the hash select, current and listening at that address. */
  lemma EveryTupleGoesHome(
    g: Graph, hash: string -> nat, keyOf: nat -> string -> string, steps: seq<Step>, m: Message)
    requires var r := RoutesOf(g, hash, keyOf);
             Wired(g) && Legal(r, Started(r), steps) && m in Exec(r, Started(r), steps).wire
    ensures m.tuple.taskId in g.tasks && m.address == g.tasks[m.tuple.taskId].address
    ensures (m.tuple.taskId, m.address) ==
            Home(g, g.tasks[m.tuple.taskId].stage, hash(m.tuple.key))
    ensures var r := RoutesOf(g, hash, keyOf);
            m in Next(r, Exec(r, Started(r), steps), Deliver(m)).delivered
  {
    var r := RoutesOf(g, hash, keyOf);
    WiredIsCoherent(g, hash, keyOf);
    RunInv(r, steps);
    var n := Exec(r, Started(r), steps);
    assert Routed(r, m);
    RoutedArrives(r, m);
    DeliverInv(r, n, m);
  }

  /** Under any deliveries, repeats and retries, an aggregate task counts key k only if routing selects
      it, and then the last value it emits for k is the number of distinct IDs with k delivered to its
      stage. */
  lemma EndToEndCounts(
    g: Graph, hash: string -> nat, keyOf: nat -> string -> string, steps: seq<Step>, name: string, key: string)
    requires var r := RoutesOf(g, hash, keyOf); Wired(g) && Legal(r, Started(r), steps)
    requires name in g.tasks
    ensures var r, stage := RoutesOf(g, hash, keyOf), g.tasks[name].stage;
            var n := Exec(r, Started(r), steps);
            && name in n.tasks
            && LastValue(Emitted(ItemsOf(n.tasks[name].stdin, keyOf(stage))), key) ==
               if name == Home(g, stage, hash(key)).0
               then |DeliveredIds(r, n.delivered, stage, key)| else 0
  {
    var r := RoutesOf(g, hash, keyOf);
    WiredIsCoherent(g, hash, keyOf);
    RunInv(r, steps);
    CountsOnRoutes(r, Exec(r, Started(r), steps), name, key);
  }
}
