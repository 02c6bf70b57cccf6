/** The whole cluster under gossip: incarnation numbers over every run, and what a refutation does.

    Each server may switch protocol and suspicion at any time. One loop iteration of a merge is one
    step. Snapshots are taken in steps of their own and stay usable, so merges, sends and leaves of one
    server overlap in every possible way; a message once sent stays on the wire, so it may be delivered
    never, late or often. */
module Clusters {
  import opened Members
  import opened MembershipLists
  import opened GossipMerge

  datatype Process = Process(node: Node, snapshots: set<map<string, Member>>)

  datatype Cluster = Cluster(processes: map<string, Process>, wire: set<seq<Member>>)

  datatype Step =
    | TakeSnapshot(at: string)
    | Beat(at: string, own: Member)
    | SendList(at: string, snapshot: map<string, Member>, list: seq<Member>)
    | AskToJoin(at: string, own: Member)
    | Admit(at: string, list: seq<Member>, joiner: Member, hash: nat, now: int)
    | MergeEntryOf(at: string, cfg: Config, snapshot: map<string, Member>, list: seq<Member>, r: Member, senderId: string, now: int)
    | Sweep(at: string, cfg: Config, now: int)
    | Leave(at: string, snapshot: map<string, Member>, now: int)

  /** The entry a server writes or announces about itself. Its number may have been read earlier. */
  predicate OwnEntry(p: Process, m: Member) {
    m.id == p.node.self && m.status.Alive? && m.incarnation <= p.node.incarnation
  }

  /** A sent list copies snapshot entries; heartbeats and time stamps may be left out. */
  predicate CopiedFrom(snapshot: map<string, Member>, list: seq<Member>) {
    forall m :: m in list ==>
      m.id in snapshot && m == snapshot[m.id].(heartbeat := m.heartbeat, lastUpdated := m.lastUpdated)
  }

  predicate Enabled(c: Cluster, s: Step) {
    s.at in c.processes &&
    var p := c.processes[s.at];
    match s
    case TakeSnapshot(_) => true
    case Beat(_, own) => OwnEntry(p, own)
    case SendList(_, snapshot, list) => snapshot in p.snapshots && CopiedFrom(snapshot, list)
    case AskToJoin(_, own) => OwnEntry(p, own)
    case Admit(_, list, joiner, _, _) => list in c.wire && joiner in list
    case MergeEntryOf(_, _, snapshot, list, r, _, _) => snapshot in p.snapshots && list in c.wire && r in list
    case Sweep(_, _, _) => true
    case Leave(_, snapshot, _) => snapshot in p.snapshots && s.at in snapshot
  }

  function NextNode(n: Node, s: Step): Node {
    match s
    case Beat(_, own) => n.(members := n.members[own.id := own])
    case Admit(_, _, joiner, hash, now) => n.(members := n.members[joiner.id := joiner.(hash := hash, lastUpdated := now)])
    case MergeEntryOf(_, cfg, snapshot, _, r, senderId, now) => MergeOne(cfg, n, snapshot, r, senderId, now)
    case Sweep(_, cfg, now) => SweepNode(cfg, n, now)
    case Leave(at, snapshot, now) =>
      if at in snapshot then
        var leaving := snapshot[at].(status := VoluntaryLeave, incarnation := n.incarnation, lastUpdated := now);
        n.(members := n.members[at := leaving])
      else n
    case _ => n
  }

  function Next(c: Cluster, s: Step): Cluster
    requires Enabled(c, s)
  {
    var p := c.processes[s.at];
    var q := Process(NextNode(p.node, s), if s.TakeSnapshot? then p.snapshots + {p.node.members} else p.snapshots);
    Cluster(c.processes[s.at := q],
            match s
            case SendList(_, _, list) => c.wire + {list}
            case AskToJoin(_, own) => c.wire + {[own]}
            case _ => c.wire)
  }

  predicate Legal(c: Cluster, run: seq<Step>)
    decreases |run|
  {
    run == [] || (Enabled(c, run[0]) && Legal(Next(c, run[0]), run[1..]))
  }

  function Exec(c: Cluster, run: seq<Step>): Cluster
    requires Legal(c, run)
    decreases |run|
  {
    if run == [] then c else Exec(Next(c, run[0]), run[1..])
  }

  /** A started server knows itself only, with incarnation 1. */
  predicate Started(id: string, p: Process) {
    p.node.self == id && p.node.incarnation == 1 && p.snapshots == {} && p.node.members.Keys == {id} &&
    p.node.members[id].id == id && p.node.members[id].status.Alive? && p.node.members[id].incarnation == 1
  }

  predicate Init(c: Cluster) {
    c.wire == {} && forall id :: id in c.processes ==> Started(id, c.processes[id])
  }

  // ---- No one knows a higher incarnation than the member itself ----

  predicate Sound(c: Cluster, m: Member) {
    m.id in c.processes && m.incarnation <= c.processes[m.id].node.incarnation
  }

  predicate SoundMap(c: Cluster, ms: map<string, Member>) {
    forall id :: id in ms ==> ms[id].id == id && Sound(c, ms[id])
  }

  predicate SoundList(c: Cluster, list: seq<Member>) {
    forall m :: m in list ==> Sound(c, m)
  }

  predicate SoundProcess(c: Cluster, id: string, p: Process) {
    p.node.self == id && SoundMap(c, p.node.members) && forall s :: s in p.snapshots ==> SoundMap(c, s)
  }

  predicate Inv(c: Cluster) {
    (forall id :: id in c.processes ==> SoundProcess(c, id, c.processes[id])) &&
    (forall list :: list in c.wire ==> SoundList(c, list))
  }

  predicate Grows(c: Cluster, d: Cluster) {
    c.processes.Keys == d.processes.Keys &&
    forall id :: id in c.processes ==> c.processes[id].node.incarnation <= d.processes[id].node.incarnation
  }

  lemma SoundGrows(c: Cluster, d: Cluster)
    requires Grows(c, d)
    ensures forall m :: Sound(c, m) ==> Sound(d, m)
    ensures forall ms :: SoundMap(c, ms) ==> SoundMap(d, ms)
    ensures forall list :: SoundList(c, list) ==> SoundList(d, list)
  {
    forall ms | SoundMap(c, ms) ensures SoundMap(d, ms) {
    }
  }

  lemma StepGrows(c: Cluster, s: Step)
    requires Inv(c) && Enabled(c, s)
    ensures Grows(c, Next(c, s))
  {
    assert SoundProcess(c, s.at, c.processes[s.at]);
  }

  /** A merge step writes at most one entry, of an incarnation it has seen or has just taken. */
  lemma MergeWrites(cfg: Config, n: Node, snapshot: map<string, Member>, r: Member, senderId: string, now: int)
    returns (x: Member)
    requires IdsMatch(snapshot)
    ensures var after := MergeOne(cfg, n, snapshot, r, senderId, now);
            && after.self == n.self
            && (after.members == n.members || after.members == n.members[x.id := x])
            && x.id == r.id
            && (|| x.incarnation == r.incarnation
                || (r.id in snapshot && x.incarnation == snapshot[r.id].incarnation)
                || (r.id == n.self && x.incarnation == after.incarnation))
  {
    var after := MergeOne(cfg, n, snapshot, r, senderId, now);
    x := if r.id in after.members then after.members[r.id] else r;
    if after.members == n.members {
      x := r;
    }
  }

  lemma MergedIsSound(c: Cluster, d: Cluster, s: Step)
    requires Inv(c) && Enabled(c, s) && s.MergeEntryOf? && d == Next(c, s) && Grows(c, d)
    ensures SoundMap(d, d.processes[s.at].node.members) && d.processes[s.at].node.self == s.at
  {
    var p := c.processes[s.at];
    assert SoundProcess(c, s.at, p) && SoundList(c, s.list) && SoundMap(c, s.snapshot);
    assert Sound(c, s.r);
    SoundGrows(c, d);
    assert SoundMap(d, p.node.members) && SoundMap(d, s.snapshot) && Sound(d, s.r);
    var x := MergeWrites(s.cfg, p.node, s.snapshot, s.r, s.senderId, s.now);
    assert Sound(d, x);
  }

  lemma StepMapSound(c: Cluster, s: Step)
    requires Inv(c) && Enabled(c, s)
    ensures var d := Next(c, s);
            Grows(c, d) && SoundMap(d, d.processes[s.at].node.members) && d.processes[s.at].node.self == s.at
  {
    var d := Next(c, s);
    StepGrows(c, s);
    SoundGrows(c, d);
    var p := c.processes[s.at];
    assert SoundProcess(c, s.at, p);
    assert SoundMap(d, p.node.members);
    match s {
      case MergeEntryOf(_, _, _, _, _, _, _) => MergedIsSound(c, d, s);
      case Admit(_, list, joiner, _, _) => assert SoundList(d, list) && Sound(d, joiner);
      case Leave(_, snapshot, _) => assert SoundMap(d, snapshot);
      case _ =>
    }
  }

  lemma StepInv(c: Cluster, s: Step)
    requires Inv(c) && Enabled(c, s)
    ensures Inv(Next(c, s))
  {
    var d := Next(c, s);
    StepMapSound(c, s);
    SoundGrows(c, d);
    forall id | id in d.processes
      ensures SoundProcess(d, id, d.processes[id])
    {
      assert SoundProcess(c, id, c.processes[id]);
    }
    forall list | list in d.wire
      ensures SoundList(d, list)
    {
      if list !in c.wire {
        match s {
          case SendList(at, snapshot, _) =>
            assert SoundProcess(c, at, c.processes[at]);
            assert SoundMap(d, snapshot);
          case AskToJoin(at, own) =>
            assert SoundProcess(c, at, c.processes[at]);
            assert list == [own];
        }
      }
    }
  }

  lemma {:induction false} RunInv(c: Cluster, run: seq<Step>)
    requires Inv(c) && Legal(c, run)
    ensures Inv(Exec(c, run)) && Grows(c, Exec(c, run))
    decreases |run|
  {
    if run != [] {
      StepGrows(c, run[0]);
      StepInv(c, run[0]);
      RunInv(Next(c, run[0]), run[1..]);
    }
  }

  lemma InitInv(c: Cluster)
    requires Init(c)
    ensures Inv(c)
  {
    forall id | id in c.processes
      ensures SoundProcess(c, id, c.processes[id])
    {
      assert Started(id, c.processes[id]);
    }
  }

  /** m is known somewhere: in a list, in a snapshot or in a message. */
  predicate Somewhere(c: Cluster, m: Member) {
    (exists id :: id in c.processes && m in c.processes[id].node.members.Values) ||
    (exists id, ms :: id in c.processes && ms in c.processes[id].snapshots && m in ms.Values) ||
    (exists list :: list in c.wire && m in list)
  }

  lemma SomewhereIsSound(c: Cluster, m: Member)
    requires Inv(c) && Somewhere(c, m)
    ensures Sound(c, m)
  {
    if id :| id in c.processes && m in c.processes[id].node.members.Values {
      assert SoundProcess(c, id, c.processes[id]);
    } else if id, ms :| id in c.processes && ms in c.processes[id].snapshots && m in ms.Values {
      assert SoundProcess(c, id, c.processes[id]);
    } else {
      var list :| list in c.wire && m in list;
      assert SoundList(c, list);
    }
  }

  /** In every reachable cluster state no list entry, snapshot or message carries an incarnation
      for a member above that member's own number. */
  lemma IncarnationBound(c: Cluster, run: seq<Step>, m: Member)
    requires Init(c) && Legal(c, run) && Somewhere(Exec(c, run), m)
    ensures var after := Exec(c, run);
            m.id in after.processes && m.incarnation <= after.processes[m.id].node.incarnation
  {
    InitInv(c);
    RunInv(c, run);
    SomewhereIsSound(Exec(c, run), m);
  }

  // ---- Refutation ----

  /** The step answers a suspicion of the server that takes it. */
  predicate Refutes(s: Step) {
    s.MergeEntryOf? && s.r.id == s.at && s.r.status.Suspect? &&
    s.at in s.snapshot && s.snapshot[s.at].status.Alive? && s.r.incarnation >= s.snapshot[s.at].incarnation
  }

  /** A self-refutation exceeds the suspicion it answers and every other entry for the server, and
      leaves the server's own entry Alive with the new number. */
  lemma RefutationExceedsEverySuspicion(c: Cluster, s: Step, m: Member)
    requires Inv(c) && Enabled(c, s) && Refutes(s) && Somewhere(c, m) && m.id == s.at
    ensures var n := Next(c, s).processes[s.at].node;
            && s.r.incarnation < n.incarnation && m.incarnation < n.incarnation
            && s.at in n.members && n.members[s.at].status.Alive? && n.members[s.at].incarnation == n.incarnation
  {
    SomewhereIsSound(c, m);
    assert Somewhere(c, s.r);
    SomewhereIsSound(c, s.r);
    assert SoundProcess(c, s.at, c.processes[s.at]);
    assert SoundMap(c, s.snapshot);
  }

  /** The refuting entry turns every entry that existed when it was made, unless terminal, into an
      Alive one: whatever the receiver's status for the member was. */
  lemma RefutationReplacesSuspicion(
    cfg: Config, c: Cluster, s: Step, known: Member, refuting: Member, senderId: string, now: int)
    requires cfg.suspicion && Inv(c) && Enabled(c, s) && Refutes(s)
    requires Somewhere(c, known) && known.id == s.at && !IsTerminal(known.status)
    requires refuting == Next(c, s).processes[s.at].node.members[s.at]
    ensures MergeEntry(cfg, known, refuting, senderId, now) == refuting.(lastUpdated := now)
    ensures MergeEntry(cfg, known, refuting, senderId, now).status.Alive?
  {
    RefutationExceedsEverySuspicion(c, s, known);
  }

  // ---- ... and it sticks, as long as merges of one server do not overlap ----

  /** What the step does to the entry of id at server q is no overwrite by an old snapshot, no
      clean-up and no join request; and q runs the protocol cfg. */
  predicate InOrder(cfg: Config, c: Cluster, s: Step, q: string, id: string)
    requires Enabled(c, s)
  {
    s.at == q ==>
      var ms := c.processes[q].node.members;
      match s
      case MergeEntryOf(_, local, snapshot, _, r, _, _) =>
        local == cfg && (r.id == id ==> KeyAt(cfg, snapshot, id) == KeyAt(cfg, ms, id))
      case Sweep(_, local, now) => local == cfg && (id in ms ==> id in Swept(cfg, ms, now))
      case Admit(_, _, joiner, _, _) => joiner.id != id
      case _ => true
  }

  predicate InOrderRun(cfg: Config, c: Cluster, run: seq<Step>, q: string, id: string)
    requires Legal(c, run)
    decreases |run|
  {
    run == [] || (InOrder(cfg, c, run[0], q, id) && InOrderRun(cfg, Next(c, run[0]), run[1..], q, id))
  }

  function KeyOf(cfg: Config, c: Cluster, q: string, id: string): Key
    requires q in c.processes
  {
    KeyAt(cfg, c.processes[q].node.members, id)
  }

  lemma StepNeverLowers(cfg: Config, c: Cluster, s: Step, q: string, id: string)
    requires cfg.protocol.Gossip? && Inv(c) && Enabled(c, s) && q in c.processes && id != q
    requires InOrder(cfg, c, s, q, id)
    ensures AtMost(KeyOf(cfg, c, q, id), KeyOf(cfg, Next(c, s), q, id))
  {
    var p := c.processes[q];
    assert SoundProcess(c, q, p);
    var before := KeyOf(cfg, c, q, id);
    MaxIsJoin(before, before, before);
    if s.at == q {
      match s {
        case MergeEntryOf(_, _, snapshot, _, r, senderId, now) =>
          assert SoundMap(c, snapshot);
          MergeOnePointwise(cfg, p.node, snapshot, r, senderId, now, id);
          MaxIsJoin(before, Rank(cfg, r), before);
        case Sweep(_, _, now) =>
          if id in p.node.members {
            SweepNeverLowers(cfg, p.node.members, now, id);
          }
        case _ =>
      }
    }
  }

  lemma {:induction false} RunNeverLowers(cfg: Config, c: Cluster, run: seq<Step>, q: string, id: string)
    requires cfg.protocol.Gossip? && Inv(c) && Legal(c, run) && q in c.processes && id != q
    requires InOrderRun(cfg, c, run, q, id)
    ensures q in Exec(c, run).processes
    ensures AtMost(KeyOf(cfg, c, q, id), KeyOf(cfg, Exec(c, run), q, id))
    decreases |run|
  {
    if run == [] {
      MaxIsJoin(KeyOf(cfg, c, q, id), KeyOf(cfg, c, q, id), Absent);
    } else {
      var d := Next(c, run[0]);
      StepInv(c, run[0]);
      StepNeverLowers(cfg, c, run[0], q, id);
      RunNeverLowers(cfg, d, run[1..], q, id);
      MaxIsJoin(KeyOf(cfg, c, q, id), KeyOf(cfg, d, q, id), KeyOf(cfg, Exec(d, run[1..]), q, id));
    }
  }

  /** Once a server has merged an Alive entry, it never again holds a Suspect entry of a lower
      incarnation, whatever else is delivered. */
  lemma RefutationSticks(cfg: Config, c: Cluster, s: Step, run: seq<Step>)
    requires cfg.protocol.Gossip? && cfg.suspicion && Inv(c) && Enabled(c, s)
    requires s.MergeEntryOf? && s.cfg == cfg && s.r.id != s.at && s.r.status.Alive?
    requires Legal(Next(c, s), run) && InOrderRun(cfg, Next(c, s), run, s.at, s.r.id)
    ensures var after := Exec(Next(c, s), run);
            && s.at in after.processes && s.r.id in after.processes[s.at].node.members
            && var m := after.processes[s.at].node.members[s.r.id];
            IsTerminal(m.status) || m.incarnation >= s.r.incarnation
  {
    var d := Next(c, s);
    assert SoundProcess(c, s.at, c.processes[s.at]) && SoundMap(c, s.snapshot);
    MergeOnePointwise(cfg, c.processes[s.at].node, s.snapshot, s.r, s.senderId, s.now, s.r.id);
    StepInv(c, s);
    RunNeverLowers(cfg, d, run, s.at, s.r.id);
    MaxIsJoin(KeyAt(cfg, s.snapshot, s.r.id), Rank(cfg, s.r), Absent);
    MaxIsJoin(Rank(cfg, s.r), KeyOf(cfg, d, s.at, s.r.id), KeyOf(cfg, Exec(d, run), s.at, s.r.id));
  }

  /** A merge lowers the entry exactly when both its snapshot and the received entry are out of date. */
  lemma MergeLowersIff(cfg: Config, n: Node, snapshot: map<string, Member>, r: Member, senderId: string, now: int)
    requires cfg.protocol.Gossip? && IdsMatch(n.members) && IdsMatch(snapshot) && r.id != n.self && !r.status.Dead?
    ensures !AtMost(KeyAt(cfg, n.members, r.id), KeyAt(cfg, MergeOne(cfg, n, snapshot, r, senderId, now).members, r.id)) <==>
            !AtMost(KeyAt(cfg, n.members, r.id), KeyAt(cfg, snapshot, r.id)) &&
            !AtMost(KeyAt(cfg, n.members, r.id), Rank(cfg, r))
  {
    MergeOnePointwise(cfg, n, snapshot, r, senderId, now, r.id);
    MaxIsJoin(KeyAt(cfg, snapshot, r.id), Rank(cfg, r), Absent);
    MaxIsJoin(KeyAt(cfg, n.members, r.id), Rank(cfg, r), Max(KeyAt(cfg, snapshot, r.id), Rank(cfg, r)));
    MaxIsJoin(KeyAt(cfg, n.members, r.id), KeyAt(cfg, snapshot, r.id), Max(KeyAt(cfg, snapshot, r.id), Rank(cfg, r)));
  }

  /** Two overlapping merges at one server: the second still works from the snapshot taken before
      the first, and brings the refuted suspicion back. */
  lemma OverlappingMergesLoseARefutation(
    cfg: Config, n: Node, suspect: Member, refuting: Member, senderId: string, now: int)
    requires cfg.protocol.Gossip? && cfg.suspicion && suspect.id != n.self
    requires suspect.id in n.members && n.members[suspect.id] == suspect && suspect.status.Suspect?
    requires refuting.id == suspect.id && refuting.status.Alive? && refuting.incarnation > suspect.incarnation
    ensures var first := MergeOne(cfg, n, n.members, refuting, senderId, now);
            && first.members[suspect.id] == refuting.(lastUpdated := now)
            && MergeOne(cfg, first, n.members, suspect, senderId, now).members[suspect.id] == suspect
  {
  }
}
