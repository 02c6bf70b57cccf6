/** Merging a received membership list into the local one (membership_merge.go). */
module GossipMerge {
  import opened Members
  import opened MembershipLists

  function Priority(s: Status): nat {
    match s
    case Dead => 3
    case VoluntaryLeave => 3
    case Suspect => 2
    case Alive => 1
  }

  predicate IsTerminal(s: Status) {
    s.Dead? || s.VoluntaryLeave?
  }

  function SuspicionMerge(cfg: Config, local: Member, received: Member, senderId: string, now: int): Member {
    if IsTerminal(received.status) then received
    else if IsTerminal(local.status) then local
    else if received.incarnation > local.incarnation then received.(lastUpdated := now)
    else if local.incarnation > received.incarnation then local
    else if received.status == local.status then
      match cfg.protocol
      case Gossip => if received.heartbeat > local.heartbeat then received.(lastUpdated := now) else local
      case PingAck => if received.id == senderId then received.(lastUpdated := now) else local
    else if Priority(received.status) > Priority(local.status) then received.(lastUpdated := now)
    else local
  }

  function NoSuspicionMerge(cfg: Config, local: Member, received: Member, senderId: string, now: int): Member {
    if IsTerminal(received.status) then received
    else if IsTerminal(local.status) then local
    else if received.status == local.status then
      match cfg.protocol
      case Gossip => if received.heartbeat > local.heartbeat then received.(lastUpdated := now) else local
      case PingAck => if received.id == senderId then received.(lastUpdated := now) else local
    else if Priority(received.status) > Priority(local.status) then received.(lastUpdated := now)
    else local
  }

  function MergeEntry(cfg: Config, local: Member, received: Member, senderId: string, now: int): Member {
    if cfg.suspicion then SuspicionMerge(cfg, local, received, senderId, now)
    else NoSuspicionMerge(cfg, local, received, senderId, now)
  }

  // ---- The merge order ----

  datatype Key = Absent | Live(incarnation: nat, priority: nat, heartbeat: nat) | Terminal

  function Rank(cfg: Config, m: Member): Key {
    if IsTerminal(m.status) then Terminal
    else Live(if cfg.suspicion then m.incarnation else 0, Priority(m.status), m.heartbeat)
  }

  predicate AtMost(a: Key, b: Key) {
    match (a, b)
    case (Absent, _) => true
    case (_, Terminal) => true
    case (Live(i, p, h), Live(i', p', h')) => i < i' || (i == i' && (p < p' || (p == p' && h <= h')))
    case (_, _) => false
  }

  function Max(a: Key, b: Key): Key {
    if AtMost(a, b) then b else a
  }

  /** Max is the join of a total order. */
  lemma MaxIsJoin(a: Key, b: Key, c: Key)
    ensures AtMost(a, b) || AtMost(b, a)
    ensures AtMost(a, b) && AtMost(b, a) ==> a == b
    ensures AtMost(a, b) && AtMost(b, c) ==> AtMost(a, c)
    ensures AtMost(a, Max(a, b)) && AtMost(b, Max(a, b)) && (AtMost(a, c) && AtMost(b, c) ==> AtMost(Max(a, b), c))
  {
  }

  /** Merging one entry of the same member takes the larger rank. */
  lemma EntryMergeIsMax(cfg: Config, local: Member, received: Member, senderId: string, now: int)
    requires cfg.protocol.Gossip?
    ensures Rank(cfg, MergeEntry(cfg, local, received, senderId, now)) == Max(Rank(cfg, local), Rank(cfg, received))
  {
  }

  /** A timeout sweep never lowers an entry it keeps. */
  lemma SweepNeverLowers(cfg: Config, ms: map<string, Member>, now: int, id: string)
    requires id in Swept(cfg, ms, now)
    ensures id in ms && AtMost(Rank(cfg, ms[id]), Rank(cfg, Swept(cfg, ms, now)[id]))
    ensures Swept(cfg, ms, now)[id].id == ms[id].id && Swept(cfg, ms, now)[id].incarnation == ms[id].incarnation
  {
  }

  // ---- Merging a whole list ----

  /** What a server holds that merging touches; the two pending maps as the sets of their keys. */
  datatype Node = Node(
    self: string, incarnation: nat, members: map<string, Member>, failed: set<string>, joined: set<string>)

  function MergeOne(cfg: Config, node: Node, snapshot: map<string, Member>, r: Member, senderId: string, now: int): Node {
    if cfg.protocol.Gossip? && r.status.Dead? then node
    else if r.id !in snapshot then
      if r.status.Dead? then node
      else node.(members := node.members[r.id := r.(lastUpdated := now)], joined := node.joined + {r.id})
    else
      var local := snapshot[r.id];
      var noted := if !IsTerminal(local.status) && IsTerminal(r.status) then node.(failed := node.failed + {r.id}) else node;
      if r.id == node.self && r.status.Suspect? && local.status.Alive? && r.incarnation >= local.incarnation then
        var raised := node.incarnation + 1;
        noted.(incarnation := raised,
               members := noted.members[local.id := local.(incarnation := raised, lastUpdated := now)])
      else if r.id == node.self && r.status.Dead? then noted
      else
        var merged := MergeEntry(cfg, local, r, senderId, now);
        noted.(members := noted.members[merged.id := merged],
               failed := if cfg.suspicion && IsTerminal(r.status) then noted.failed + {r.id} else noted.failed)
  }

  function MergeFrom(cfg: Config, node: Node, snapshot: map<string, Member>, rs: seq<Member>, senderId: string, now: int): Node {
    if rs == [] then node
    else MergeOne(cfg, MergeFrom(cfg, node, snapshot, rs[..|rs| - 1], senderId, now), snapshot, rs[|rs| - 1], senderId, now)
  }

  function Merge(cfg: Config, node: Node, rs: seq<Member>, senderId: string, now: int): Node {
    MergeFrom(cfg, node, node.members, rs, senderId, now)
  }

  /** A timeout sweep also notes whom it declares dead. */
  function SweepNode(cfg: Config, node: Node, now: int): Node {
    node.(members := Swept(cfg, node.members, now), failed := node.failed + Died(cfg, node.members, now))
  }

  class Server {
    const self: string
    const members: MembershipList
    var incarnation: nat
    var failed: set<string>
    var joined: set<string>

    ghost function View(): Node
      requires members.Valid()
      reads this, members
    {
      Node(self, incarnation, AsMap(members.nodes), failed, joined)
    }

    constructor (self: string, members: MembershipList, incarnation: nat)
      requires members.Valid()
      ensures this.members == members && members.Valid()
      ensures View() == Node(self, incarnation, AsMap(members.nodes), {}, {})
    {
      this.self, this.members, this.incarnation := self, members, incarnation;
      failed, joined := {}, {};
    }

    method CheckTimeouts(cfg: Config, now: int)
      requires members.Valid()
      modifies this, members
      ensures members.Valid() && View() == SweepNode(cfg, old(View()), now)
    {
      var changed, dead := members.MarkSuspectIfNeeded(cfg, now);
      failed := failed + dead;
    }

    method MergeMembership(cfg: Config, rs: seq<Member>, senderId: string, now: int)
      requires members.Valid()
      modifies this, members
      ensures members.Valid() && View() == Merge(cfg, old(View()), rs, senderId, now)
    {
      var snapshot := members.Snapshot();
      ghost var before := View();
      for i := 0 to |rs|
        invariant members.Valid()
        invariant View() == MergeFrom(cfg, before, snapshot, rs[..i], senderId, now)
      {
        assert rs[..i + 1][..i] == rs[..i];
        MergeEntryOf(cfg, snapshot, rs[i], senderId, now);
      }
      assert rs[..|rs|] == rs;
    }

    method MergeEntryOf(cfg: Config, snapshot: map<string, Member>, r: Member, senderId: string, now: int)
      requires members.Valid()
      modifies this, members
      ensures members.Valid() && View() == MergeOne(cfg, old(View()), snapshot, r, senderId, now)
    {
      if cfg.protocol.Gossip? && r.status.Dead? {
        return;
      }
      if r.id !in snapshot {
        if !r.status.Dead? {
          members.AddOrUpdate(r.(lastUpdated := now));
          joined := joined + {r.id};
        }
        return;
      }
      var local := snapshot[r.id];
      if !IsTerminal(local.status) && IsTerminal(r.status) {
        failed := failed + {r.id};
      }
      if r.id == self {
        if r.status.Suspect? && local.status.Alive? && r.incarnation >= local.incarnation {
          incarnation := incarnation + 1;
          members.AddOrUpdate(local.(incarnation := incarnation, lastUpdated := now));
          return;
        }
        if r.status.Dead? {
          return;
        }
      }
      if cfg.suspicion && IsTerminal(r.status) {
        failed := failed + {r.id};
      }
      members.AddOrUpdate(MergeEntry(cfg, local, r, senderId, now));
    }
  }

  // ---- Gossip merge is a join ----

  function KeyAt(cfg: Config, members: map<string, Member>, id: string): Key {
    if id in members then Rank(cfg, members[id]) else Absent
  }

  ghost predicate IdsMatch(members: map<string, Member>) {
    forall id :: id in members ==> members[id].id == id
  }

  /** What a received list says about a member; Dead entries are not listened to. */
  function KeyIn(cfg: Config, rs: seq<Member>, id: string): Key {
    if rs == [] then Absent
    else
      var last := rs[|rs| - 1];
      if last.id == id && !last.status.Dead? then Rank(cfg, last) else KeyIn(cfg, rs[..|rs| - 1], id)
  }

  lemma {:induction false} KeyInAbsent(cfg: Config, rs: seq<Member>, id: string)
    requires forall r :: r in rs ==> r.id != id
    ensures KeyIn(cfg, rs, id).Absent?
  {
    if rs != [] {
      KeyInAbsent(cfg, rs[..|rs| - 1], id);
    }
  }

  /** One entry moves its own member's key to a maximum and leaves every other key alone. */
  lemma MergeOnePointwise(cfg: Config, node: Node, snapshot: map<string, Member>, r: Member, senderId: string, now: int, id: string)
    requires cfg.protocol.Gossip? && IdsMatch(node.members) && IdsMatch(snapshot) && id != node.self
    ensures var after := MergeOne(cfg, node, snapshot, r, senderId, now);
            && IdsMatch(after.members) && after.self == node.self
            && (r.id != id || r.status.Dead? ==> KeyAt(cfg, after.members, id) == KeyAt(cfg, node.members, id))
            && (r.id == id && !r.status.Dead? ==>
                  KeyAt(cfg, after.members, id) == Max(KeyAt(cfg, snapshot, id), Rank(cfg, r)))
  {
    if r.id in snapshot {
      EntryMergeIsMax(cfg, snapshot[r.id], r, senderId, now);
    }
  }

  lemma {:induction false} MergeFromPointwise(cfg: Config, node: Node, rs: seq<Member>, senderId: string, now: int, id: string)
    requires cfg.protocol.Gossip? && DistinctIds(rs) && IdsMatch(node.members) && id != node.self
    ensures var after := MergeFrom(cfg, node, node.members, rs, senderId, now);
            && IdsMatch(after.members) && after.self == node.self
            && KeyAt(cfg, after.members, id) == Max(KeyAt(cfg, node.members, id), KeyIn(cfg, rs, id))
            && ((forall r :: r in rs ==> r.id != id) ==> KeyAt(cfg, after.members, id) == KeyAt(cfg, node.members, id))
  {
    if rs != [] {
      var init, last := rs[..|rs| - 1], rs[|rs| - 1];
      MergeFromPointwise(cfg, node, init, senderId, now, id);
      MergeOnePointwise(cfg, MergeFrom(cfg, node, node.members, init, senderId, now), node.members, last, senderId, now, id);
      if last.id == id {
        assert forall r :: r in init ==> r.id != id;
        KeyInAbsent(cfg, init, id);
      }
    }
  }

  /** One message moves each other member's entry to the maximum of the two ranks. */
  lemma MergeIsJoin(cfg: Config, node: Node, rs: seq<Member>, senderId: string, now: int, id: string)
    requires cfg.protocol.Gossip? && DistinctIds(rs) && IdsMatch(node.members) && id != node.self
    ensures var after := Merge(cfg, node, rs, senderId, now);
            && IdsMatch(after.members) && after.self == node.self
            && KeyAt(cfg, after.members, id) == Max(KeyAt(cfg, node.members, id), KeyIn(cfg, rs, id))
  {
    MergeFromPointwise(cfg, node, rs, senderId, now, id);
  }

  datatype Message = Message(members: seq<Member>, senderId: string, receivedAt: int)

  function DeliverAll(cfg: Config, node: Node, messages: seq<Message>): Node {
    if messages == [] then node
    else
      var m := messages[|messages| - 1];
      Merge(cfg, DeliverAll(cfg, node, messages[..|messages| - 1]), m.members, m.senderId, m.receivedAt)
  }

  /** The final entry is the least upper bound of the start and everything received. */
  lemma {:induction false} DeliveriesAreLeastUpperBound(cfg: Config, node: Node, messages: seq<Message>, id: string)
    requires cfg.protocol.Gossip? && IdsMatch(node.members) && id != node.self
    requires forall m :: m in messages ==> DistinctIds(m.members)
    ensures var after := DeliverAll(cfg, node, messages);
            && IdsMatch(after.members) && after.self == node.self
            && var k := KeyAt(cfg, after.members, id);
            && AtMost(KeyAt(cfg, node.members, id), k)
            && (forall m :: m in messages ==> AtMost(KeyIn(cfg, m.members, id), k))
            && (k == KeyAt(cfg, node.members, id) || exists m :: m in messages && k == KeyIn(cfg, m.members, id))
  {
    if messages != [] {
      var init, last := messages[..|messages| - 1], messages[|messages| - 1];
      assert messages == init + [last];
      DeliveriesAreLeastUpperBound(cfg, node, init, id);
      var mid := DeliverAll(cfg, node, init);
      MergeIsJoin(cfg, mid, last.members, last.senderId, last.receivedAt, id);
      var a, b := KeyAt(cfg, mid.members, id), KeyIn(cfg, last.members, id);
      MaxIsJoin(a, b, b);
      MaxIsJoin(KeyAt(cfg, node.members, id), a, Max(a, b));
      forall m | m in init
        ensures AtMost(KeyIn(cfg, m.members, id), Max(a, b))
      {
        MaxIsJoin(KeyIn(cfg, m.members, id), a, Max(a, b));
      }
    }
  }

  /** Every list of one sequence of messages is carried by some message of the other. */
  ghost predicate Carried(xs: seq<Message>, ys: seq<Message>) {
    forall i :: 0 <= i < |xs| ==> exists j :: 0 <= j < |ys| && ys[j].members == xs[i].members
  }

  lemma CarriedIsBelow(cfg: Config, a: Node, b: Node, xs: seq<Message>, ys: seq<Message>, id: string)
    requires cfg.protocol.Gossip? && IdsMatch(a.members) && IdsMatch(b.members) && id != a.self && id != b.self
    requires KeyAt(cfg, a.members, id) == KeyAt(cfg, b.members, id)
    requires forall m :: m in xs || m in ys ==> DistinctIds(m.members)
    requires Carried(xs, ys)
    ensures AtMost(KeyAt(cfg, DeliverAll(cfg, a, xs).members, id), KeyAt(cfg, DeliverAll(cfg, b, ys).members, id))
  {
    DeliveriesAreLeastUpperBound(cfg, a, xs, id);
    DeliveriesAreLeastUpperBound(cfg, b, ys, id);
    var k := KeyAt(cfg, DeliverAll(cfg, a, xs).members, id);
    if k != KeyAt(cfg, a.members, id) {
      var m :| m in xs && k == KeyIn(cfg, m.members, id);
      var i :| 0 <= i < |xs| && xs[i] == m;
      var j :| 0 <= j < |ys| && ys[j].members == xs[i].members;
      assert ys[j] in ys;
    }
  }

  /** Order, repetition, senders and arrival times do not matter: the same lists give the same keys. */
  lemma DeliveryOrderDoesNotMatter(cfg: Config, a: Node, b: Node, xs: seq<Message>, ys: seq<Message>, id: string)
    requires cfg.protocol.Gossip? && IdsMatch(a.members) && IdsMatch(b.members) && id != a.self && id != b.self
    requires KeyAt(cfg, a.members, id) == KeyAt(cfg, b.members, id)
    requires forall m :: m in xs || m in ys ==> DistinctIds(m.members)
    requires Carried(xs, ys) && Carried(ys, xs)
    ensures KeyAt(cfg, DeliverAll(cfg, a, xs).members, id) == KeyAt(cfg, DeliverAll(cfg, b, ys).members, id)
  {
    CarriedIsBelow(cfg, a, b, xs, ys, id);
    CarriedIsBelow(cfg, b, a, ys, xs, id);
    MaxIsJoin(KeyAt(cfg, DeliverAll(cfg, a, xs).members, id), KeyAt(cfg, DeliverAll(cfg, b, ys).members, id), Absent);
  }
}
