/** Time stamps of a membership list: over every run of one server, when an entry was last refreshed, and
    which timeouts that makes expire. */
module Freshness {
  import opened Members
  import opened MembershipLists
  import opened GossipMerge

  /** What decides between two entries about a member; only gossip looks at heartbeats. */
  function Standing(cfg: Config, m: Member): Key {
    if IsTerminal(m.status) then Terminal
    else Live(if cfg.suspicion then m.incarnation else 0, Priority(m.status), if cfg.protocol.Gossip? then m.heartbeat else 0)
  }

  function StandingAt(cfg: Config, ms: map<string, Member>, id: string): Key {
    if id in ms then Standing(cfg, ms[id]) else Absent
  }

  /** A member's own word about itself refreshes its entry where heartbeats do not. */
  predicate OwnWord(cfg: Config, local: Member, received: Member, senderId: string) {
    cfg.protocol.PingAck? && received.id == senderId && Standing(cfg, received) == Standing(cfg, local)
  }

  /** A live entry that stands higher, or is the member's own word, is stored under the time it came; any
      other leaves the local entry as it is. A final entry is stored as it came. */
  lemma MergeByStanding(cfg: Config, local: Member, received: Member, senderId: string, now: int)
    ensures var merged := MergeEntry(cfg, local, received, senderId, now);
            if IsTerminal(received.status) then merged == received
            else if !AtMost(Standing(cfg, received), Standing(cfg, local)) || OwnWord(cfg, local, received, senderId) then
              merged == received.(lastUpdated := now)
            else merged == local
  {
  }

  /** So the sender's clock plays no part in what is stored of a live entry. */
  lemma SenderClockDoesNotMatter(cfg: Config, local: Member, received: Member, senderId: string, now: int, stamp: int)
    requires !IsTerminal(received.status)
    ensures MergeEntry(cfg, local, received.(lastUpdated := stamp), senderId, now) ==
            MergeEntry(cfg, local, received, senderId, now)
  {
    MergeByStanding(cfg, local, received, senderId, now);
    MergeByStanding(cfg, local, received.(lastUpdated := stamp), senderId, now);
  }

  // ---- One list, one member ----

  datatype Report = Silence | About(entry: Member)

  /** What a list says about a member. */
  function ReportOn(rs: seq<Member>, id: string): Report {
    if rs == [] then Silence
    else if rs[|rs| - 1].id == id then About(rs[|rs| - 1])
    else ReportOn(rs[..|rs| - 1], id)
  }

  /** What a list makes of one member's entry. */
  ghost predicate EntryAfter(cfg: Config, before: map<string, Member>, after: map<string, Member>, report: Report,
                             id: string, senderId: string, now: int)
  {
    if report.Silence? || (report.entry.status.Dead? && (cfg.protocol.Gossip? || id !in before)) then
      (id in after <==> id in before) && (id in after ==> after[id] == before[id])
    else
      id in after &&
      after[id] == if id in before then MergeEntry(cfg, before[id], report.entry, senderId, now)
                   else report.entry.(lastUpdated := now)
  }

  lemma MergeOneEntry(cfg: Config, node: Node, snapshot: map<string, Member>, r: Member, senderId: string, now: int, id: string)
    requires IdsMatch(node.members) && IdsMatch(snapshot) && id != node.self
    ensures var after := MergeOne(cfg, node, snapshot, r, senderId, now);
            && IdsMatch(after.members) && after.self == node.self
            && (r.id != id ==> (id in after.members <==> id in node.members) &&
                               (id in after.members ==> after.members[id] == node.members[id]))
            && (r.id == id && (id in node.members <==> id in snapshot) && (id in snapshot ==> snapshot[id] == node.members[id]) ==>
                  EntryAfter(cfg, snapshot, after.members, About(r), id, senderId, now))
  {
    if r.id in snapshot {
      MergeByStanding(cfg, snapshot[r.id], r, senderId, now);
    }
  }

  lemma {:induction false} ReportIsSilent(rs: seq<Member>, id: string)
    requires forall r :: r in rs ==> r.id != id
    ensures ReportOn(rs, id).Silence?
  {
    if rs != [] {
      ReportIsSilent(rs[..|rs| - 1], id);
    }
  }

  lemma {:induction false} MergeFromEntry(cfg: Config, node: Node, rs: seq<Member>, senderId: string, now: int, id: string)
    requires DistinctIds(rs) && IdsMatch(node.members) && id != node.self
    ensures var after := MergeFrom(cfg, node, node.members, rs, senderId, now);
            && IdsMatch(after.members) && after.self == node.self
            && EntryAfter(cfg, node.members, after.members, ReportOn(rs, id), id, senderId, now)
  {
    if rs != [] {
      var init, last := rs[..|rs| - 1], rs[|rs| - 1];
      MergeFromEntry(cfg, node, init, senderId, now, id);
      if last.id == id {
        ReportIsSilent(init, id);
      }
      MergeOneEntry(cfg, MergeFrom(cfg, node, node.members, init, senderId, now), node.members, last, senderId, now, id);
    }
  }

  // ---- Runs of one server ----

  datatype Event = Heard(message: Message) | Sweep(at: int)

  function TimeOf(e: Event): int {
    match e
    case Heard(m) => m.receivedAt
    case Sweep(at) => at
  }

  function Next(cfg: Config, node: Node, e: Event): Node {
    match e
    case Heard(m) => Merge(cfg, node, m.members, m.senderId, m.receivedAt)
    case Sweep(at) => SweepNode(cfg, node, at)
  }

  function Run(cfg: Config, node: Node, events: seq<Event>): Node {
    if events == [] then node else Next(cfg, Run(cfg, node, events[..|events| - 1]), events[|events| - 1])
  }

  /** The event changed the member's standing, or was its own word. */
  predicate Refreshes(cfg: Config, node: Node, e: Event, id: string) {
    || StandingAt(cfg, Next(cfg, node, e).members, id) != StandingAt(cfg, node.members, id)
    || (e.Heard? && id in node.members && !IsTerminal(node.members[id].status) &&
        var report := ReportOn(e.message.members, id);
        report.About? && OwnWord(cfg, node.members[id], report.entry, e.message.senderId))
  }

  function LastRefresh(cfg: Config, node: Node, events: seq<Event>, id: string): int {
    if events == [] then if id in node.members then node.members[id].lastUpdated else 0
    else
      var init, last := events[..|events| - 1], events[|events| - 1];
      if Refreshes(cfg, Run(cfg, node, init), last, id) then TimeOf(last) else LastRefresh(cfg, node, init, id)
  }

  /** Entries whose time stamp is the server's own: all live ones, and in gossip also the dead ones. */
  predicate OwnStamp(cfg: Config, m: Member) {
    !IsTerminal(m.status) || (cfg.protocol.Gossip? && m.status.Dead?)
  }

  ghost predicate Stamped(cfg: Config, ms: map<string, Member>, id: string, at: int) {
    id in ms && OwnStamp(cfg, ms[id]) ==> ms[id].lastUpdated == at
  }

  lemma HeardStamps(cfg: Config, node: Node, m: Message, id: string, at: int)
    requires DistinctIds(m.members) && IdsMatch(node.members) && id != node.self && Stamped(cfg, node.members, id, at)
    ensures var after := Next(cfg, node, Heard(m));
            && IdsMatch(after.members) && after.self == node.self
            && Stamped(cfg, after.members, id, if Refreshes(cfg, node, Heard(m), id) then m.receivedAt else at)
  {
    MergeFromEntry(cfg, node, m.members, m.senderId, m.receivedAt, id);
    var report := ReportOn(m.members, id);
    if report.About? {
      ReportIsAbout(m.members, id);
      if id in node.members {
        MergeByStanding(cfg, node.members[id], report.entry, m.senderId, m.receivedAt);
      }
    }
  }

  lemma {:induction false} ReportIsAbout(rs: seq<Member>, id: string)
    requires ReportOn(rs, id).About?
    ensures ReportOn(rs, id).entry.id == id && ReportOn(rs, id).entry in rs
  {
    if rs[|rs| - 1].id != id {
      ReportIsAbout(rs[..|rs| - 1], id);
    }
  }

  lemma SweepStamps(cfg: Config, node: Node, now: int, id: string, at: int)
    requires IdsMatch(node.members) && Stamped(cfg, node.members, id, at)
    ensures var after := Next(cfg, node, Sweep(now));
            && IdsMatch(after.members) && after.self == node.self
            && Stamped(cfg, after.members, id, if Refreshes(cfg, node, Sweep(now), id) then now else at)
  {
  }

  ghost predicate WellFormed(events: seq<Event>) {
    forall e :: e in events && e.Heard? ==> DistinctIds(e.message.members)
  }

  /** In every run of merges and sweeps, under either protocol, an entry's time stamp is the time of the last
      event that changed its standing, or brought the member's own word. */
  lemma {:induction false} TimeStampIsLastRefresh(cfg: Config, node: Node, events: seq<Event>, id: string)
    requires IdsMatch(node.members) && id != node.self && WellFormed(events)
    ensures var after := Run(cfg, node, events);
            && IdsMatch(after.members) && after.self == node.self
            && Stamped(cfg, after.members, id, LastRefresh(cfg, node, events, id))
  {
    if events != [] {
      var init, last := events[..|events| - 1], events[|events| - 1];
      TimeStampIsLastRefresh(cfg, node, init, id);
      match last
      case Heard(m) => HeardStamps(cfg, Run(cfg, node, init), m, id, LastRefresh(cfg, node, init, id));
      case Sweep(now) => SweepStamps(cfg, Run(cfg, node, init), now, id, LastRefresh(cfg, node, init, id));
    }
  }

  /** What a sweep makes of an entry that has not been refreshed for so long. */
  predicate SweptByAge(cfg: Config, m: Member, age: int, after: map<string, Member>, now: int) {
    match m.status
    case Alive =>
      m.id in after &&
      after[m.id] ==
        if cfg.suspicion then
          if age > cfg.suspicionTimeout then m.(status := Suspect, lastUpdated := now) else m
        else
          if age > cfg.suspicionTimeout && age > cfg.deadTimeout then m.(status := Dead, lastUpdated := now) else m
    case Suspect =>
      m.id in after && after[m.id] == if age > cfg.deadTimeout then m.(status := Dead, lastUpdated := now) else m
    case Dead => if age > cfg.cleanUpTimeout then m.id !in after else m.id in after && after[m.id] == m
    case VoluntaryLeave => m.id in after && after[m.id] == m
  }

  predicate Exempt(cfg: Config, m: Member) {
    cfg.protocol.PingAck? && m.address == cfg.selfAddress
  }

  lemma SweepByAge(cfg: Config, node: Node, id: string, now: int, at: int)
    requires IdsMatch(node.members) && id in node.members && Stamped(cfg, node.members, id, at)
    ensures var m, after := node.members[id], Next(cfg, node, Sweep(now)).members;
            if Exempt(cfg, m) then id in after && after[id] == m
            else OwnStamp(cfg, m) || m.status.VoluntaryLeave? ==> SweptByAge(cfg, m, now - at, after, now)
  {
  }

  lemma SweepNotes(cfg: Config, node: Node, id: string, now: int)
    requires IdsMatch(node.members) && id in node.members
    ensures var after := Next(cfg, node, Sweep(now));
            id in after.failed <==>
              id in node.failed || (id in after.members && after.members[id].status.Dead? && !node.members[id].status.Dead?)
  {
  }

  /** In every run, a sweep suspects, declares dead or removes another member exactly when it has gone without
      a refresh for longer than the timeout that applies; under ping-ack the server's own address is exempt. */
  lemma TimeoutsCountFromLastRefresh(cfg: Config, node: Node, events: seq<Event>, id: string, now: int)
    requires IdsMatch(node.members) && id != node.self && WellFormed(events)
    requires id in Run(cfg, node, events).members
    ensures var before, after := Run(cfg, node, events), Next(cfg, Run(cfg, node, events), Sweep(now));
            var m := before.members[id];
            && m.id == id
            && (if Exempt(cfg, m) then id in after.members && after.members[id] == m
                else OwnStamp(cfg, m) || m.status.VoluntaryLeave? ==>
                       SweptByAge(cfg, m, now - LastRefresh(cfg, node, events, id), after.members, now))
            && (id in after.failed <==>
                  id in before.failed || (id in after.members && after.members[id].status.Dead? && !m.status.Dead?))
  {
    TimeStampIsLastRefresh(cfg, node, events, id);
    SweepByAge(cfg, Run(cfg, node, events), id, now, LastRefresh(cfg, node, events, id));
    SweepNotes(cfg, Run(cfg, node, events), id, now);
  }

  // ---- Members to stabilize for ----

  /** Whoever turns terminal is noted as failed, whoever is noted as failed is terminal, and exactly the new
      members are noted as joined. */
  ghost predicate Noted(cfg: Config, before: Node, after: Node, id: string) {
    && (StandingAt(cfg, before.members, id).Live? && StandingAt(cfg, after.members, id).Terminal? ==> id in after.failed)
    && before.failed <= after.failed && before.joined <= after.joined
    && (id in after.failed && id !in before.failed ==> StandingAt(cfg, after.members, id).Terminal?)
    && (id in after.joined && id !in before.joined ==> id !in before.members && id in after.members)
    && (id !in before.members && id in after.members ==> id in after.joined)
  }

  lemma MergeOneNotes(cfg: Config, node: Node, snapshot: map<string, Member>, r: Member, senderId: string, now: int, id: string)
    requires IdsMatch(node.members) && IdsMatch(snapshot) && id != node.self
    ensures var after := MergeOne(cfg, node, snapshot, r, senderId, now);
            && (r.id != id ==> (id in after.failed <==> id in node.failed) && (id in after.joined <==> id in node.joined))
            && (r.id == id && (id in node.members <==> id in snapshot) && (id in snapshot ==> snapshot[id] == node.members[id]) ==>
                  Noted(cfg, node, after, id))
            && node.failed <= after.failed && node.joined <= after.joined
  {
    MergeOneEntry(cfg, node, snapshot, r, senderId, now, id);
  }

  lemma {:induction false} MergeFromNotes(cfg: Config, node: Node, rs: seq<Member>, senderId: string, now: int, id: string)
    requires DistinctIds(rs) && IdsMatch(node.members) && id != node.self
    ensures Noted(cfg, node, MergeFrom(cfg, node, node.members, rs, senderId, now), id)
    ensures ReportOn(rs, id).Silence? ==>
      var after := MergeFrom(cfg, node, node.members, rs, senderId, now);
      (id in after.failed <==> id in node.failed) && (id in after.joined <==> id in node.joined)
  {
    if rs != [] {
      var init, last := rs[..|rs| - 1], rs[|rs| - 1];
      MergeFromNotes(cfg, node, init, senderId, now, id);
      MergeFromEntry(cfg, node, init, senderId, now, id);
      MergeFromEntry(cfg, node, rs, senderId, now, id);
      if last.id == id {
        ReportIsSilent(init, id);
      }
      MergeOneNotes(cfg, MergeFrom(cfg, node, node.members, init, senderId, now), node.members, last, senderId, now, id);
      MergeOneEntry(cfg, MergeFrom(cfg, node, node.members, init, senderId, now), node.members, last, senderId, now, id);
    }
  }

  lemma EveryChangeIsNoted(cfg: Config, node: Node, e: Event, id: string)
    requires IdsMatch(node.members) && id != node.self && (e.Heard? ==> DistinctIds(e.message.members))
    ensures Noted(cfg, node, Next(cfg, node, e), id)
  {
    if e.Heard? {
      MergeFromNotes(cfg, node, e.message.members, e.message.senderId, e.message.receivedAt, id);
    }
  }

  // ---- A server that refutes a suspicion ----

  /** A suspicion about the server itself is answered with a new incarnation under the present time, so that
      no sweep suspects the server before the timeout has passed again. */
  lemma RefutationIsFresh(cfg: Config, node: Node, snapshot: map<string, Member>, r: Member, senderId: string, now: int, at: int)
    requires IdsMatch(snapshot) && r.id == node.self && r.status.Suspect? && r.id in snapshot
    requires snapshot[r.id].status.Alive? && r.incarnation >= snapshot[r.id].incarnation
    ensures var after := MergeOne(cfg, node, snapshot, r, senderId, now);
            && after.incarnation > node.incarnation
            && node.self in after.members && after.members[node.self].incarnation == after.incarnation
            && (at - now <= cfg.suspicionTimeout ==>
                  var swept := Next(cfg, after, Sweep(at)).members;
                  node.self in swept && swept[node.self] == after.members[node.self] && swept[node.self].status.Alive?)
  {
  }
}
