/** The membership list (membership_list.go): a hash-sorted slice that behaves as a map from IDs. */
module MembershipLists {
  import opened Members

  datatype Protocol = Gossip | PingAck

  datatype Config = Config(
    protocol: Protocol, suspicion: bool, selfAddress: string,
    suspicionTimeout: int, deadTimeout: int, cleanUpTimeout: int)

  lemma SameId(ms: seq<Member>, a: Member, b: Member)
    requires DistinctIds(ms) && a in ms && b in ms && a.id == b.id
    ensures a == b
  {
    var i :| 0 <= i < |ms| && ms[i] == a;
    var j :| 0 <= j < |ms| && ms[j] == b;
  }

  /** The map the list stands for. */
  ghost function AsMap(ms: seq<Member>): map<string, Member>
    requires DistinctIds(ms)
  {
    assert forall a, b :: a in ms && b in ms && a.id == b.id ==> a == b by {
      forall a, b | a in ms && b in ms && a.id == b.id ensures a == b { SameId(ms, a, b); }
    }
    map m | m in ms :: m.id := m
  }

  // ---- Sorting by hash ----

  function InsertByHash(m: Member, ms: seq<Member>): (r: seq<Member>)
    requires HashSorted(ms)
    ensures HashSorted(r) && forall x :: x in r <==> x == m || x in ms
  {
    if ms == [] then [m]
    else if m.hash <= ms[0].hash then [m] + ms
    else
      var rest := InsertByHash(m, ms[1..]);
      assert ms == [ms[0]] + ms[1..];
      assert forall i :: 0 <= i < |rest| ==> ms[0].hash <= rest[i].hash by {
        forall i | 0 <= i < |rest| ensures ms[0].hash <= rest[i].hash {
          assert rest[i] in rest;
        }
      }
      [ms[0]] + rest
  }

  lemma {:induction false} InsertKeepsAll(m: Member, ms: seq<Member>)
    requires HashSorted(ms)
    ensures multiset(InsertByHash(m, ms)) == multiset(ms) + multiset{m}
  {
    if ms != [] {
      assert ms == [ms[0]] + ms[1..];
      if m.hash > ms[0].hash {
        InsertKeepsAll(m, ms[1..]);
      }
    }
  }

  function SortByHash(ms: seq<Member>): (r: seq<Member>)
    ensures HashSorted(r)
  {
    if ms == [] then [] else InsertByHash(ms[0], SortByHash(ms[1..]))
  }

  lemma {:induction false} SortKeepsAll(ms: seq<Member>)
    ensures multiset(SortByHash(ms)) == multiset(ms)
  {
    if ms != [] {
      assert ms == [ms[0]] + ms[1..];
      SortKeepsAll(ms[1..]);
      InsertKeepsAll(ms[0], SortByHash(ms[1..]));
    }
  }

  lemma PermutationKeepsMap(a: seq<Member>, b: seq<Member>)
    requires multiset(a) == multiset(b) && DistinctIds(a)
    ensures DistinctIds(b) && AsMap(b) == AsMap(a)
  {
    forall i, j | 0 <= i < j < |b|
      ensures b[i].id != b[j].id
    {
      if b[i].id == b[j].id {
        assert b[i] in multiset(b) && b[j] in multiset(b);
        assert b[i] in multiset(a) && b[j] in multiset(a);
        SameId(a, b[i], b[j]);
        TwiceInSequence(b, i, j);
        OnceInDistinct(a, b[i]);
      }
    }
    forall m ensures m in a <==> m in b {
      assert m in a <==> m in multiset(a);
      assert m in b <==> m in multiset(b);
    }
  }

  lemma TwiceInSequence(ms: seq<Member>, i: nat, j: nat)
    requires i < j < |ms| && ms[i] == ms[j]
    ensures multiset(ms)[ms[i]] >= 2
  {
    assert ms == ms[..i] + [ms[i]] + ms[i + 1..j] + [ms[j]] + ms[j + 1..];
  }

  lemma {:induction false} OnceInDistinct(ms: seq<Member>, m: Member)
    requires DistinctIds(ms)
    ensures multiset(ms)[m] <= 1
  {
    if ms != [] {
      assert ms == ms[..|ms| - 1] + [ms[|ms| - 1]];
      OnceInDistinct(ms[..|ms| - 1], m);
      if m == ms[|ms| - 1] {
        assert m !in ms[..|ms| - 1];
        assert m !in multiset(ms[..|ms| - 1]);
      }
    }
  }

  // ---- What one timeout sweep decides for one entry ----

  datatype Verdict = Keep | Suspicious | Deadly | CleanUp

  function Judge(cfg: Config, m: Member, now: int): Verdict {
    var elapsed := now - m.lastUpdated;
    if cfg.protocol.PingAck? && m.address == cfg.selfAddress then Keep
    else if m.status.Alive? && elapsed > cfg.suspicionTimeout then
      if cfg.suspicion then Suspicious else if elapsed > cfg.deadTimeout then Deadly else Keep
    else if m.status.Suspect? && elapsed > cfg.deadTimeout then Deadly
    else if m.status.Dead? && elapsed > cfg.cleanUpTimeout then CleanUp
    else Keep
  }

  function Marked(cfg: Config, m: Member, now: int): Member {
    match Judge(cfg, m, now)
    case Suspicious => m.(status := Suspect, lastUpdated := now)
    case Deadly => m.(status := Dead, lastUpdated := now)
    case _ => m
  }

  /** The sweep as one pointwise step on the map. */
  function Swept(cfg: Config, ms: map<string, Member>, now: int): map<string, Member> {
    map id | id in ms && !Judge(cfg, ms[id], now).CleanUp? :: Marked(cfg, ms[id], now)
  }

  /** The members a sweep declares dead. */
  function Died(cfg: Config, ms: map<string, Member>, now: int): set<string> {
    set id | id in ms && Judge(cfg, ms[id], now).Deadly?
  }

  function MarkedAt(cfg: Config, ms: seq<Member>, at: seq<nat>, now: int): seq<Member> {
    seq(|ms|, j requires 0 <= j < |ms| => if j in at then Marked(cfg, ms[j], now) else ms[j])
  }

  lemma MarkOneMore(cfg: Config, ms: seq<Member>, at: seq<nat>, i: nat, now: int)
    requires i < |ms|
    ensures MarkedAt(cfg, ms, at + [i], now) == MarkedAt(cfg, ms, at, now)[i := Marked(cfg, ms[i], now)]
  {
  }

  lemma DropOne(ms: seq<Member>, idx: nat)
    requires DistinctIds(ms) && idx < |ms|
    ensures var rest := ms[..idx] + ms[idx + 1..];
            DistinctIds(rest) && forall m :: m in rest <==> m in ms && m != ms[idx]
  {
    var rest := ms[..idx] + ms[idx + 1..];
    forall j | 0 <= j < |rest| ensures rest[j] in ms && rest[j] != ms[idx] {
      assert rest[j] == if j < idx then ms[j] else ms[j + 1];
    }
    forall m | m in ms && m != ms[idx] ensures m in rest {
      var j :| 0 <= j < |ms| && ms[j] == m;
      assert rest[if j < idx then j else j - 1] == m;
    }
  }

  lemma MapWithout(ms: seq<Member>, rest: seq<Member>, id: string)
    requires DistinctIds(ms) && DistinctIds(rest)
    requires forall m :: m in rest <==> m in ms && m.id != id
    ensures AsMap(rest) == AsMap(ms) - {id}
  {
  }

  lemma DropAt(ms: seq<Member>, idx: nat)
    requires DistinctIds(ms) && idx < |ms|
    ensures var rest := ms[..idx] + ms[idx + 1..];
            DistinctIds(rest) && AsMap(rest) == AsMap(ms) - {ms[idx].id}
  {
    DropOne(ms, idx);
    forall m | m in ms && m.id == ms[idx].id ensures m == ms[idx] { SameId(ms, m, ms[idx]); }
    MapWithout(ms, ms[..idx] + ms[idx + 1..], ms[idx].id);
  }

  lemma AbsentId(ms: seq<Member>, id: string)
    requires DistinctIds(ms) && forall j :: 0 <= j < |ms| ==> ms[j].id != id
    ensures id !in AsMap(ms) && AsMap(ms) - {id} == AsMap(ms)
  {
  }

  lemma UpdateAt(ms: seq<Member>, i: nat, member: Member)
    requires DistinctIds(ms) && i < |ms| && ms[i].id == member.id
    ensures DistinctIds(ms[i := member]) && AsMap(ms[i := member]) == AsMap(ms)[member.id := member]
  {
    var after := ms[i := member];
    forall m
      ensures m in after <==> m == member || (m in ms && m.id != member.id)
    {
      if m in ms && m.id != member.id {
        var j :| 0 <= j < |ms| && ms[j] == m;
        assert after[j] == m;
      }
      if m in after && m != member {
        var j :| 0 <= j < |after| && after[j] == m;
        assert ms[j] == m && j != i;
      }
      assert after[i] == member;
    }
  }

  lemma AddAtEnd(ms: seq<Member>, member: Member)
    requires DistinctIds(ms) && forall j :: 0 <= j < |ms| ==> ms[j].id != member.id
    ensures DistinctIds(ms + [member]) && AsMap(ms + [member]) == AsMap(ms)[member.id := member]
  {
  }

  /** Verdicts that remove an entry, or verdicts that change one. */
  predicate Selected(v: Verdict, cleanUp: bool) {
    if cleanUp then v.CleanUp? else v.Suspicious? || v.Deadly?
  }

  /** Where in the list a sweep removes an entry, or changes one. */
  function Positions(cfg: Config, ms: seq<Member>, now: int, cleanUp: bool): (r: seq<nat>)
    ensures forall k :: 0 <= k < |r| ==> r[k] < |ms|
  {
    if ms == [] then []
    else
      var last := |ms| - 1;
      Positions(cfg, ms[..last], now, cleanUp) + (if Selected(Judge(cfg, ms[last], now), cleanUp) then [last] else [])
  }

  /** The entries as a sweep changes them, in list order. */
  function Updates(cfg: Config, ms: seq<Member>, now: int): seq<Member> {
    if ms == [] then []
    else
      var last := ms[|ms| - 1];
      Updates(cfg, ms[..|ms| - 1], now) +
      (if Selected(Judge(cfg, last, now), false) then [Marked(cfg, last, now)] else [])
  }

  /** The updates are what the sweep makes of the entries at the listed positions. */
  ghost predicate AreMarked(cfg: Config, ms: seq<Member>, at: seq<nat>, updates: seq<Member>, now: int) {
    |updates| == |at| && forall k :: 0 <= k < |at| ==> at[k] < |ms| && updates[k] == Marked(cfg, ms[at[k]], now)
  }

  lemma {:induction false} UpdatesAreMarked(cfg: Config, ms: seq<Member>, now: int)
    ensures AreMarked(cfg, ms, Positions(cfg, ms, now, false), Updates(cfg, ms, now), now)
  {
    if ms != [] {
      UpdatesAreMarked(cfg, ms[..|ms| - 1], now);
    }
  }

  /** What the collecting loop has after the first i entries. */
  lemma CollectOneMore(cfg: Config, ms: seq<Member>, i: nat, now: int)
    requires i < |ms|
    ensures var before, after, v := ms[..i], ms[..i + 1], Judge(cfg, ms[i], now);
            && Updates(cfg, after, now) ==
                 Updates(cfg, before, now) + (if v == Suspicious || v == Deadly then [Marked(cfg, ms[i], now)] else [])
            && Positions(cfg, after, now, false) ==
                 Positions(cfg, before, now, false) + (if v == Suspicious || v == Deadly then [i] else [])
            && Positions(cfg, after, now, true) ==
                 Positions(cfg, before, now, true) + (if v == CleanUp then [i] else [])
            && DiedAmong(cfg, after, now) == DiedAmong(cfg, before, now) + (if v == Deadly then {ms[i].id} else {})
  {
    assert ms[..i + 1][..i] == ms[..i];
    DiedOneMore(cfg, ms, i, now);
  }

  lemma {:induction false} PositionsAreWhere(cfg: Config, ms: seq<Member>, now: int, cleanUp: bool)
    ensures var r := Positions(cfg, ms, now, cleanUp);
            && (forall k, l :: 0 <= k < l < |r| ==> r[k] < r[l])
            && (forall j :: 0 <= j < |ms| ==> (j in r <==> Selected(Judge(cfg, ms[j], now), cleanUp)))
  {
    if ms != [] {
      PositionsAreWhere(cfg, ms[..|ms| - 1], now, cleanUp);
    }
  }

  lemma PositionsIncrease(cfg: Config, ms: seq<Member>, now: int, cleanUp: bool)
    ensures Increasing(Positions(cfg, ms, now, cleanUp), |ms|)
  {
    PositionsAreWhere(cfg, ms, now, cleanUp);
  }

  ghost predicate Increasing(at: seq<nat>, bound: nat) {
    (forall k :: 0 <= k < |at| ==> at[k] < bound) && forall k, l :: 0 <= k < l < |at| ==> at[k] < at[l]
  }

  /** What is left of a list once the listed positions are removed. */
  ghost predicate Remaining(before: seq<Member>, removed: seq<nat>, after: seq<Member>) {
    forall m :: m in after <==> exists j :: 0 <= j < |before| && j !in removed && before[j] == m
  }

  lemma MarkedKeepsIds(cfg: Config, ms: seq<Member>, at: seq<nat>, now: int)
    requires DistinctIds(ms)
    ensures DistinctIds(MarkedAt(cfg, ms, at, now))
    ensures forall j :: 0 <= j < |ms| ==> MarkedAt(cfg, ms, at, now)[j].id == ms[j].id
  {
    assert forall j :: 0 <= j < |ms| ==> MarkedAt(cfg, ms, at, now)[j].id == ms[j].id;
  }

  lemma NothingMarked(cfg: Config, ms: seq<Member>, now: int)
    ensures MarkedAt(cfg, ms, [], now) == ms
  {
  }

  lemma {:induction false} NothingToDo(cfg: Config, ms: seq<Member>, now: int)
    ensures (exists m :: m in ms && Judge(cfg, m, now) != Keep) <==>
            Positions(cfg, ms, now, false) != [] || Positions(cfg, ms, now, true) != []
  {
    if ms != [] {
      var init, last := ms[..|ms| - 1], ms[|ms| - 1];
      assert ms == init + [last];
      NothingToDo(cfg, init, now);
    }
  }

  /** The same, from the listed members. */
  function DiedAmong(cfg: Config, ms: seq<Member>, now: int): set<string> {
    set m | m in ms && Judge(cfg, m, now).Deadly? :: m.id
  }

  lemma DiedOneMore(cfg: Config, ms: seq<Member>, i: nat, now: int)
    requires i < |ms|
    ensures DiedAmong(cfg, ms[..i + 1], now) ==
            DiedAmong(cfg, ms[..i], now) + (if Judge(cfg, ms[i], now).Deadly? then {ms[i].id} else {})
  {
    assert ms[..i + 1] == ms[..i] + [ms[i]];
  }

  lemma AmongIsDied(cfg: Config, ms: seq<Member>, now: int)
    requires DistinctIds(ms)
    ensures DiedAmong(cfg, ms, now) == Died(cfg, AsMap(ms), now)
  {
    forall id | id in AsMap(ms)
      ensures AsMap(ms)[id] in ms && AsMap(ms)[id].id == id
    {
    }
    forall m | m in ms
      ensures m.id in AsMap(ms) && AsMap(ms)[m.id] == m
    {
    }
  }

  class MembershipList {
    var nodes: seq<Member>

    ghost predicate Valid()
      reads this
    {
      HashSorted(nodes) && DistinctIds(nodes)
    }

    constructor ()
      ensures Valid() && nodes == []
    {
      nodes := [];
    }

    method AddOrUpdate(member: Member)
      requires Valid()
      modifies this
      ensures Valid() && AsMap(nodes) == old(AsMap(nodes))[member.id := member]
    {
      for i := 0 to |nodes|
        invariant nodes == old(nodes)
        invariant forall j :: 0 <= j < i ==> nodes[j].id != member.id
      {
        if nodes[i].id == member.id {
          UpdateAt(nodes, i, member);
          nodes := nodes[i := member];
          SortNodes();
          return;
        }
      }
      AddAtEnd(nodes, member);
      nodes := nodes + [member];
      SortNodes();
    }

    /** sort.Slice by hash: some hash-sorted permutation. */
    method SortNodes()
      requires DistinctIds(nodes)
      modifies this
      ensures Valid() && multiset(nodes) == old(multiset(nodes)) && AsMap(nodes) == old(AsMap(nodes))
    {
      if |nodes| > 1 {
        SortKeepsAll(nodes);
        nodes := SortByHash(nodes);
        PermutationKeepsMap(old(nodes), nodes);
      }
    }

    method Remove(nodeId: string)
      requires Valid()
      modifies this
      ensures Valid() && AsMap(nodes) == old(AsMap(nodes)) - {nodeId}
    {
      for i := 0 to |nodes|
        invariant nodes == old(nodes)
        invariant forall j :: 0 <= j < i ==> nodes[j].id != nodeId
      {
        if nodes[i].id == nodeId {
          DropAt(nodes, i);
          nodes := nodes[..i] + nodes[i + 1..];
          return;
        }
      }
      AbsentId(nodes, nodeId);
    }

    method Snapshot() returns (cp: map<string, Member>)
      requires Valid()
      ensures cp == AsMap(nodes)
    {
      cp := map[];
      for i := 0 to |nodes|
        invariant forall id :: id in cp <==> exists j :: 0 <= j < i && nodes[j].id == id
        invariant forall j :: 0 <= j < i ==> nodes[j].id in cp && cp[nodes[j].id] == nodes[j]
      {
        cp := cp[nodes[i].id := nodes[i]];
      }
    }

    /** Collect the verdicts, update by ID, remove by descending index, sort: the loops together
        are one pointwise step. */
    method MarkSuspectIfNeeded(cfg: Config, now: int) returns (changed: bool, dead: set<string>)
      requires Valid()
      modifies this
      ensures Valid() && AsMap(nodes) == Swept(cfg, old(AsMap(nodes)), now)
      ensures changed <==> exists m :: m in old(nodes) && Judge(cfg, m, now) != Keep
      ensures dead == Died(cfg, old(AsMap(nodes)), now)
    {
      ghost var before := nodes;
      ghost var at: seq<nat>;
      var toUpdate, toRemove;
      changed, dead, toUpdate, toRemove, at := CollectVerdicts(cfg, now);
      UpdatesAreMarked(cfg, before, now);
      ApplyUpdates(cfg, now, toUpdate, at);
      MarkedKeepsIds(cfg, before, at, now);
      PositionsIncrease(cfg, before, now, true);
      ApplyRemovals(toRemove);
      SweepIsPointwise(cfg, before, nodes, now);
      if changed {
        SortNodes();
      } else {
        NothingMarked(cfg, before, now);
      }
      AmongIsDied(cfg, before, now);
      NothingToDo(cfg, before, now);
    }

    method CollectVerdicts(cfg: Config, now: int)
      returns (changed: bool, dead: set<string>, toUpdate: seq<Member>, toRemove: seq<nat>, ghost at: seq<nat>)
      ensures at == Positions(cfg, nodes, now, false) && toUpdate == Updates(cfg, nodes, now)
      ensures toRemove == Positions(cfg, nodes, now, true) && dead == DiedAmong(cfg, nodes, now)
      ensures changed <==> at != [] || toRemove != []
    {
      changed, dead, toUpdate, toRemove, at := false, {}, [], [], [];
      for i := 0 to |nodes|
        invariant at == Positions(cfg, nodes[..i], now, false)
        invariant toRemove == Positions(cfg, nodes[..i], now, true)
        invariant toUpdate == Updates(cfg, nodes[..i], now) && dead == DiedAmong(cfg, nodes[..i], now)
        invariant changed <==> at != [] || toRemove != []
      {
        var m := nodes[i];
        CollectOneMore(cfg, nodes, i, now);
        match Judge(cfg, m, now) {
          case Keep =>
          case Suspicious => toUpdate, at, changed := toUpdate + [m.(status := Suspect, lastUpdated := now)], at + [i], true;
          case Deadly =>
            toUpdate, at, changed := toUpdate + [m.(status := Dead, lastUpdated := now)], at + [i], true;
            dead := dead + {m.id};
          case CleanUp => toRemove, changed := toRemove + [i], true;
        }
      }
      assert nodes[..|nodes|] == nodes;
    }

    method ApplyUpdates(cfg: Config, now: int, toUpdate: seq<Member>, ghost at: seq<nat>)
      requires DistinctIds(nodes) && AreMarked(cfg, nodes, at, toUpdate, now)
      modifies this
      ensures nodes == MarkedAt(cfg, old(nodes), at, now)
    {
      ghost var before := nodes;
      assert nodes == MarkedAt(cfg, before, [], now);
      for k := 0 to |toUpdate|
        invariant nodes == MarkedAt(cfg, before, at[..k], now)
      {
        assert at[..k + 1] == at[..k] + [at[k]];
        MarkOneMore(cfg, before, at[..k], at[k], now);
        MarkedKeepsIds(cfg, before, at[..k], now);
        ReplaceById(toUpdate[k], at[k]);
      }
      assert at[..|at|] == at;
    }

    method ReplaceById(member: Member, ghost i: nat)
      requires i < |nodes| && nodes[i].id == member.id
      requires forall j :: 0 <= j < |nodes| && j != i ==> nodes[j].id != member.id
      modifies this
      ensures nodes == old(nodes)[i := member]
    {
      for j := 0 to |nodes|
        invariant nodes == old(nodes) && j <= i
      {
        if nodes[j].id == member.id {
          nodes := nodes[j := member];
          return;
        }
      }
    }

    method ApplyRemovals(toRemove: seq<nat>)
      requires DistinctIds(nodes)
      requires Increasing(toRemove, |nodes|)
      modifies this
      ensures DistinctIds(nodes) && Remaining(old(nodes), toRemove, nodes)
      ensures toRemove == [] ==> nodes == old(nodes)
    {
      ghost var before := nodes;
      var r := |toRemove|;
      while r > 0
        invariant 0 <= r <= |toRemove|
        invariant DistinctIds(nodes) && |nodes| == |before| - (|toRemove| - r)
        invariant r == |toRemove| ==> nodes == before
        invariant r < |toRemove| ==> toRemove[r] <= |nodes| && nodes[..toRemove[r]] == before[..toRemove[r]]
        invariant forall m :: m in nodes <==> exists j :: 0 <= j < |before| && j !in toRemove[r..] && before[j] == m
      {
        r := r - 1;
        var idx := toRemove[r];
        assert idx in toRemove;
        assert idx < |nodes| && nodes[idx] == before[idx] by {
          if r + 1 < |toRemove| {
            assert idx < toRemove[r + 1];
            assert nodes[idx] == nodes[..toRemove[r + 1]][idx];
          }
        }
        assert toRemove[r..] == [idx] + toRemove[r + 1..];
        ghost var prior := nodes;
        DropOne(nodes, idx);
        nodes := nodes[..idx] + nodes[idx + 1..];
        forall m
          ensures m in nodes <==> exists j :: 0 <= j < |before| && j !in toRemove[r..] && before[j] == m
        {
          DroppedMembers(before, toRemove[r + 1..], idx, m);
        }
        assert nodes[..idx] == before[..idx] by {
          if r + 1 < |toRemove| {
            assert prior[..idx] == prior[..toRemove[r + 1]][..idx];
          }
        }
      }
    }
  }

  lemma DroppedMembers(before: seq<Member>, dropped: seq<nat>, idx: nat, m: Member)
    requires DistinctIds(before) && idx < |before|
    ensures (exists j :: 0 <= j < |before| && j !in [idx] + dropped && before[j] == m) <==>
            (exists j :: 0 <= j < |before| && j !in dropped && before[j] == m) && m != before[idx]
  {
    if (exists j :: 0 <= j < |before| && j !in dropped && before[j] == m) && m != before[idx] {
      var j :| 0 <= j < |before| && j !in dropped && before[j] == m;
      assert j !in [idx] + dropped;
    }
  }

  lemma SweepIsPointwise(cfg: Config, before: seq<Member>, after: seq<Member>, now: int)
    requires DistinctIds(before) && DistinctIds(after)
    requires Remaining(MarkedAt(cfg, before, Positions(cfg, before, now, false), now), Positions(cfg, before, now, true), after)
    ensures AsMap(after) == Swept(cfg, AsMap(before), now)
  {
    var at, removed := Positions(cfg, before, now, false), Positions(cfg, before, now, true);
    var marked := MarkedAt(cfg, before, at, now);
    PositionsAreWhere(cfg, before, now, false);
    PositionsAreWhere(cfg, before, now, true);
    assert Sweeps(cfg, before, marked, removed, now);
    SweptMembers(cfg, before, marked, removed, after, now);
  }

  ghost predicate Sweeps(cfg: Config, before: seq<Member>, marked: seq<Member>, removed: seq<nat>, now: int) {
    |marked| == |before| &&
    forall j :: 0 <= j < |before| ==>
      marked[j] == Marked(cfg, before[j], now) && (j in removed <==> Judge(cfg, before[j], now).CleanUp?)
  }

  lemma SurvivorOf(cfg: Config, before: seq<Member>, marked: seq<Member>, removed: seq<nat>, now: int, m: Member)
    requires DistinctIds(before) && Sweeps(cfg, before, marked, removed, now)
    requires exists j :: 0 <= j < |marked| && j !in removed && marked[j] == m
    ensures m.id in AsMap(before)
    ensures !Judge(cfg, AsMap(before)[m.id], now).CleanUp? && m == Marked(cfg, AsMap(before)[m.id], now)
  {
    var j :| 0 <= j < |marked| && j !in removed && marked[j] == m;
    assert before[j] in before && before[j].id == m.id;
    assert AsMap(before)[before[j].id] == before[j];
  }

  lemma SurvivesAs(cfg: Config, before: seq<Member>, marked: seq<Member>, removed: seq<nat>, now: int, id: string)
    returns (j: nat)
    requires DistinctIds(before) && Sweeps(cfg, before, marked, removed, now)
    requires id in AsMap(before) && !Judge(cfg, AsMap(before)[id], now).CleanUp?
    ensures j < |marked| && j !in removed && marked[j].id == id
  {
    var m := AsMap(before)[id];
    assert m in before && m.id == id;
    j :| 0 <= j < |before| && before[j] == m;
  }

  lemma SweptAll(cfg: Config, before: seq<Member>, marked: seq<Member>, removed: seq<nat>, after: seq<Member>, now: int)
    requires DistinctIds(before) && DistinctIds(after) && Sweeps(cfg, before, marked, removed, now)
    requires Remaining(marked, removed, after)
    ensures forall id :: id in Swept(cfg, AsMap(before), now) ==> id in AsMap(after)
  {
    forall id | id in Swept(cfg, AsMap(before), now)
      ensures id in AsMap(after)
    {
      var j := SurvivesAs(cfg, before, marked, removed, now, id);
      assert marked[j] in after;
    }
  }

  lemma SweptMembers(cfg: Config, before: seq<Member>, marked: seq<Member>, removed: seq<nat>, after: seq<Member>, now: int)
    requires DistinctIds(before) && DistinctIds(after) && Sweeps(cfg, before, marked, removed, now)
    requires Remaining(marked, removed, after)
    ensures AsMap(after) == Swept(cfg, AsMap(before), now)
  {
    forall id | id in AsMap(after)
      ensures id in Swept(cfg, AsMap(before), now) && AsMap(after)[id] == Swept(cfg, AsMap(before), now)[id]
    {
      var m := AsMap(after)[id];
      assert m in after && m.id == id;
      SurvivorOf(cfg, before, marked, removed, now, m);
    }
    SweptAll(cfg, before, marked, removed, after, now);
  }
}
