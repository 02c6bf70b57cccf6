/** Which downstream task a key goes to (nodemanager.go). The key hash is a parameter. */
module Routing {
  import opened Names
  import opened Orders
  import opened Topology

  datatype TaskStatus = Running | Failed | Stopped

  /** The hash-th ID of the sorted list, wrapping; "" when there is none. */
  ghost function Pick(ids: set<string>, hash: nat): string {
    if ids == {} then "" else Sorted(ids)[hash % |Sorted(ids)|]
  }

  lemma PickIsMember(ids: set<string>, hash: nat)
    requires ids != {}
    ensures Pick(ids, hash) in ids
  {
    assert Pick(ids, hash) in Elements(Sorted(ids));
  }

  lemma IndexOf(xs: seq<string>, x: string) returns (i: nat)
    requires x in xs
    ensures i < |xs| && xs[i] == x
  {
    i :| 0 <= i < |xs| && xs[i] == x;
  }

  lemma SmallMod(i: nat, n: nat)
    requires i < n
    ensures i % n == i
  {
  }

  /** Every target is reached by some hash. */
  lemma PickReachesAll(ids: set<string>, id: string) returns (hash: nat)
    requires id in ids
    ensures hash < |ids| && Pick(ids, hash) == id
  {
    var xs := Sorted(ids);
    assert id in Elements(xs);
    hash := IndexOf(xs, id);
    SmallMod(hash, |xs|);
  }

  /** The choice in terms of the set alone: hash modulo its size, counting from the smallest ID up. */
  lemma PickRank(ids: set<string>, hash: nat)
    requires ids != {}
    ensures |set x | x in ids && Less(x, Pick(ids, hash))| == hash % |ids|
  {
    var xs := Sorted(ids);
    var i := hash % |xs|;
    assert forall x :: x in ids <==> x in Elements(xs);
    LessThanAt(xs, i);
    SortedSize(xs[..i]);
    assert (set x | x in ids && Less(x, xs[i])) == (set x | x in xs && Less(x, xs[i]));
  }

  ghost function Select(targets: map<string, string>, hash: nat): (string, string) {
    if targets == map[] then ("", "")
    else
      PickIsMember(targets.Keys, hash);
      var id := Pick(targets.Keys, hash);
      (id, targets[id])
  }

  method SelectDownstreamTask(targets: map<string, string>, key: string, hash: string -> nat)
    returns (id: string, address: string)
    ensures (id, address) == Select(targets, hash(key))
  {
    if targets == map[] {
      return "", "";
    }
    var ids := SortKeys(targets.Keys);
    PickIsMember(targets.Keys, hash(key));
    assert ids == [] ==> |targets.Keys| == 0;
    id := ids[hash(key) % |ids|];
    address := targets[id];
  }

  /** Stage-1 tasks not reported as anything but running. */
  function Eligible(tasks: map<string, Task>, statuses: map<string, TaskStatus>): set<string> {
    set t | t in tasks && tasks[t].stage == 1 && (t in statuses ==> statuses[t] == Running)
  }

  method ListEligible(tasks: map<string, Task>, statuses: map<string, TaskStatus>) returns (running: set<string>)
    ensures running == Eligible(tasks, statuses)
  {
    running := {};
    var todo := tasks.Keys;
    while todo != {}
      invariant todo <= tasks.Keys
      invariant running == Eligible(tasks, statuses) - todo
    {
      var t :| t in todo;
      if tasks[t].stage == 1 && (t in statuses ==> statuses[t] == Running) {
        running := running + {t};
      }
      todo := todo - {t};
    }
  }

  /** The leader's choice among stage-1 tasks; without autoscaling, or with no eligible task, it
      falls back to the given candidates. */
  ghost function LeaderChoice(autoscale: bool, tasks: map<string, Task>, statuses: map<string, TaskStatus>,
                              candidates: set<string>, hash: nat): string {
    Pick(if autoscale && Eligible(tasks, statuses) != {} then Eligible(tasks, statuses) else candidates, hash)
  }

  method SelectTaskByKey(key: string, hash: string -> nat, candidates: set<string>, autoscale: bool,
                         tasks: map<string, Task>, statuses: map<string, TaskStatus>) returns (id: string)
    ensures id == LeaderChoice(autoscale, tasks, statuses, candidates, hash(key))
  {
    var chosen := candidates;
    if autoscale {
      var running := ListEligible(tasks, statuses);
      if running != {} {
        chosen := running;
      }
    }
    if chosen == {} {
      return "";
    }
    var ids := SortKeys(chosen);
    assert ids == [] ==> |chosen| == 0;
    id := ids[hash(key) % |ids|];
  }

  ghost predicate InService(tasks: map<string, Task>, statuses: map<string, TaskStatus>, id: string) {
    id in tasks && tasks[id].stage == 1 && !(id in statuses && statuses[id] != Running)
  }

  /** While some stage-1 task is in service, the leader with autoscaling sends to one that is, and every one that is
      gets the tuples of some hash; otherwise it sends to a candidate, if there is one. */
  lemma LeaderSendsToServing(tasks: map<string, Task>, statuses: map<string, TaskStatus>, candidates: set<string>, hash: nat)
    ensures (exists t :: InService(tasks, statuses, t)) ==>
              InService(tasks, statuses, LeaderChoice(true, tasks, statuses, candidates, hash))
    ensures !(exists t :: InService(tasks, statuses, t)) && candidates != {} ==>
              LeaderChoice(true, tasks, statuses, candidates, hash) in candidates
  {
    var eligible := Eligible(tasks, statuses);
    assert forall t :: InService(tasks, statuses, t) <==> t in eligible;
    if eligible != {} {
      PickIsMember(eligible, hash);
    } else {
      assert forall t :: InService(tasks, statuses, t) ==> t in eligible;
      if candidates != {} {
        PickIsMember(candidates, hash);
      }
    }
  }

  lemma ServingIsReached(tasks: map<string, Task>, statuses: map<string, TaskStatus>, candidates: set<string>, t: string)
    returns (hash: nat)
    requires InService(tasks, statuses, t)
    ensures LeaderChoice(true, tasks, statuses, candidates, hash) == t
  {
    hash := PickReachesAll(Eligible(tasks, statuses), t);
  }

  /** Where a key belongs at a stage. */
  ghost function Home(g: Graph, stage: nat, hash: nat): (string, string) {
    Select(AddressesOf(g.tasks, stage), hash)
  }

  lemma StageHasHome(g: Graph, stage: nat, hash: nat)
    requires Wired(g) && 1 <= stage <= g.nStages
    ensures var (id, address) := Home(g, stage, hash);
            && id in g.tasks && g.tasks[id].stage == stage && address == g.tasks[id].address && id != ""
  {
    var targets := AddressesOf(g.tasks, stage);
    var t := SomeTask(g, stage);
    assert t in targets;
    PickIsMember(targets.Keys, hash);
    assert Named(Pick(targets.Keys, hash), stage);
  }

  lemma OutputsAreNextStage(g: Graph, t: string)
    ensures Wired(g) && t in g.tasks ==> g.tasks[t].outputs == AddressesOf(g.tasks, g.tasks[t].stage + 1)
  {
    if Wired(g) && t in g.tasks {
      assert TaskOk(g, g.tasks[t]);
    }
  }

  ghost predicate CurrentAt(g: Graph, stage: nat, target: (string, string)) {
    && target.0 in g.tasks && g.tasks[target.0].stage == stage
    && target.1 == g.tasks[target.0].address && target.1 != "" && target.0 != ""
  }

  lemma HomeIsServed(g: Graph, stage: nat, hash: nat)
    requires 1 <= stage <= g.nStages
    ensures Wired(g) ==> CurrentAt(g, stage, Home(g, stage, hash))
  {
    if Wired(g) {
      StageHasHome(g, stage, hash);
      assert TaskOk(g, g.tasks[Home(g, stage, hash).0]);
    }
  }

  lemma SendsHome(g: Graph, t: string, next: nat, hash: nat)
    requires t in g.tasks && g.tasks[t].stage + 1 == next
    ensures Wired(g) ==> Select(g.tasks[t].outputs, hash) == Home(g, next, hash)
  {
    OutputsAreNextStage(g, t);
  }

  /** Two tasks of one stage send equal keys to the same place: a current task of the next stage,
      at its own non-empty address. */
  lemma RoutingIsKeyAffine(g: Graph, t: string, u: string, hash: nat)
    requires Wired(g) && t in g.tasks && u in g.tasks
    requires g.tasks[t].stage == g.tasks[u].stage < g.nStages
    ensures var (id, address) := Select(g.tasks[t].outputs, hash);
            && Select(g.tasks[u].outputs, hash) == (id, address)
            && id in g.tasks && g.tasks[id].stage == g.tasks[t].stage + 1
            && address == g.tasks[id].address && address != "" && id != ""
  {
    var next := g.tasks[t].stage + 1;
    SendsHome(g, t, next, hash);
    SendsHome(g, u, next, hash);
    HomeIsServed(g, next, hash);
  }

  /** A routed output moves only when its stage's downstream tasks change: scaling a stage that is
      not the next one re-addresses nothing. */
  lemma RoutingIgnoresOtherStages(g: Graph, op: Op, t: string, hash: nat)
    requires Wired(g) && t in g.tasks && t in Scaled(g, op).tasks
    requires op.stage != g.tasks[t].stage && op.stage != g.tasks[t].stage + 1
    ensures Scaled(g, op).tasks[t].stage == g.tasks[t].stage
    ensures Select(Scaled(g, op).tasks[t].outputs, hash) == Select(g.tasks[t].outputs, hash)
  {
    if Allowed(g, op) && op.Up? {
      var id := TaskId(op.stage, op.index, op.timestamp);
      if id in g.tasks {
        assert Named(id, g.tasks[id].stage);
        NamesKeepStages(id, op.stage, g.tasks[id].stage);
      }
    }
  }
}
