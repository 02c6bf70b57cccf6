/** Choosing the next nodes to gossip to or ping, round robin (protocols.go; section 4.3 of Das,
    Gupta and Motivala, SWIM, DSN 2002). */
module Probing {
  import opened Members
  import opened Orders

  datatype Prober = Prober(order: seq<string>, pointer: nat, lastCount: nat)
  {
    ghost predicate Valid() {
      |order| == lastCount && Distinct(order) && (order != [] ==> pointer < |order|)
    }
  }

  const NEW := Prober([], 0, 0)

  ghost predicate Distinct(xs: seq<string>) {
    forall i, j :: 0 <= i < j < |xs| ==> xs[i] != xs[j]
  }

  /** xs lists the set s, each element once. */
  ghost predicate Lists(xs: seq<string>, s: set<string>) {
    Distinct(xs) && Elements(xs) == s && |xs| == |s|
  }

  function Candidates(self: string, snapshot: map<string, Member>): set<string> {
    set id | id in snapshot && id != self && !snapshot[id].status.Dead?
  }

  /** One call: how many nodes are asked for, who is eligible, and the order a rebuild would draw. */
  datatype Call = Call(k: nat, candidates: set<string>, shuffled: seq<string>)

  predicate Rebuilds(p: Prober, c: Call) {
    c.candidates != {} && (|c.candidates| != p.lastCount || p.order == [])
  }

  ghost predicate Enabled(p: Prober, c: Call) {
    Rebuilds(p, c) ==> Lists(c.shuffled, c.candidates)
  }

  function Refreshed(p: Prober, c: Call): Prober {
    if Rebuilds(p, c) then Prober(c.shuffled, 0, |c.candidates|) else p
  }

  function Bump(order: seq<string>, at: nat): nat {
    if at + 1 == |order| then 0 else at + 1
  }

  /** n picks round the order, starting at the pointer. */
  function Walk(order: seq<string>, at: nat, n: nat): (r: seq<string>)
    requires at < |order|
    ensures |r| == n
    decreases n
  {
    if n == 0 then [] else [order[at]] + Walk(order, Bump(order, at), n - 1)
  }

  function End(order: seq<string>, at: nat, n: nat): (r: nat)
    requires at < |order|
    ensures r < |order|
    decreases n
  {
    if n == 0 then at else End(order, Bump(order, at), n - 1)
  }

  function Min(a: nat, b: nat): nat {
    if a < b then a else b
  }

  ghost function Picks(p: Prober, c: Call): seq<string>
    requires p.Valid() && Enabled(p, c)
  {
    if c.candidates == {} then []
    else
      var q := Refreshed(p, c);
      Walk(q.order, q.pointer, Min(c.k, |q.order|))
  }

  ghost function After(p: Prober, c: Call): (r: Prober)
    requires p.Valid() && Enabled(p, c)
    ensures r.Valid()
  {
    if c.candidates == {} then p
    else
      var q := Refreshed(p, c);
      q.(pointer := End(q.order, q.pointer, Min(c.k, |q.order|)))
  }

  lemma {:induction false} ListedCount(xs: seq<string>)
    requires Distinct(xs)
    ensures |Elements(xs)| == |xs|
  {
    if xs != [] {
      ListedCount(xs[1..]);
      assert Elements(xs) == Elements(xs[1..]) + {xs[0]};
      assert xs[0] !in Elements(xs[1..]);
    }
  }

  /** The globals behind selectNextKNodes. */
  class RoundRobin {
    var nodeOrder: seq<string>
    var currentPointer: nat
    var lastMemberCount: nat

    function View(): Prober
      reads this
    {
      Prober(nodeOrder, currentPointer, lastMemberCount)
    }

    constructor ()
      ensures View() == NEW && View().Valid()
    {
      nodeOrder, currentPointer, lastMemberCount := [], 0, 0;
    }

    method SelectNextKNodes(k: nat, self: string, snapshot: map<string, Member>, random: seq<nat>)
      returns (result: seq<string>, ghost call: Call)
      requires View().Valid()
      modifies this
      ensures call.k == k && call.candidates == Candidates(self, snapshot) && Enabled(old(View()), call)
      ensures result == Picks(old(View()), call) && View() == After(old(View()), call)
      ensures View().Valid()
    {
      var candidates := Collect(self, snapshot);
      NoElements(candidates);
      call := Call(k, Candidates(self, snapshot), candidates);
      if |candidates| == 0 {
        return [], call;
      }
      if |candidates| != lastMemberCount || |nodeOrder| == 0 {
        nodeOrder := candidates;
        Shuffle(random);
        currentPointer := 0;
        lastMemberCount := |candidates|;
        call := call.(shuffled := nodeOrder);
      }
      result := Advance(if k > |nodeOrder| then |nodeOrder| else k);
    }

    method Advance(wanted: nat) returns (result: seq<string>)
      requires currentPointer < |nodeOrder|
      modifies `currentPointer
      ensures result == Walk(nodeOrder, old(currentPointer), wanted)
      ensures currentPointer == End(nodeOrder, old(currentPointer), wanted)
    {
      result := [];
      ghost var from := currentPointer;
      for i := 0 to wanted
        invariant currentPointer < |nodeOrder|
        invariant result + Walk(nodeOrder, currentPointer, wanted - i) == Walk(nodeOrder, from, wanted)
        invariant End(nodeOrder, currentPointer, wanted - i) == End(nodeOrder, from, wanted)
      {
        NextIsBump(currentPointer, nodeOrder);
        result := result + [nodeOrder[currentPointer]];
        currentPointer := (currentPointer + 1) % |nodeOrder|;
      }
    }

    /** The candidates in whatever order the map iteration yields them. */
    method Collect(self: string, snapshot: map<string, Member>) returns (candidates: seq<string>)
      ensures Lists(candidates, Candidates(self, snapshot))
    {
      candidates := [];
      var todo := snapshot.Keys;
      while todo != {}
        invariant todo <= snapshot.Keys && Distinct(candidates)
        invariant Elements(candidates) == set id | id in Candidates(self, snapshot) && id !in todo
      {
        var id :| id in todo;
        assert id !in Elements(candidates);
        if id != self && !snapshot[id].status.Dead? {
          assert Elements(candidates + [id]) == Elements(candidates) + {id};
          candidates := candidates + [id];
        }
        todo := todo - {id};
      }
      assert Elements(candidates) == Candidates(self, snapshot);
      ListedCount(candidates);
    }

    /** rand.Shuffle: swap each position from the last down with a random one not after it. */
    method Shuffle(random: seq<nat>)
      modifies `nodeOrder
      ensures forall s :: Lists(old(nodeOrder), s) ==> Lists(nodeOrder, s)
    {
      var i := |nodeOrder|;
      while i > 1
        invariant forall s :: Lists(old(nodeOrder), s) ==> Lists(nodeOrder, s)
        invariant i <= |nodeOrder| || i == 0
      {
        i := i - 1;
        var j := (if i < |random| then random[i] else 0) % (i + 1);
        SwapLists(nodeOrder, i, j);
        nodeOrder := nodeOrder[i := nodeOrder[j]][j := nodeOrder[i]];
      }
    }
  }

  lemma SwapLists(xs: seq<string>, i: nat, j: nat)
    requires i < |xs| && j < |xs|
    ensures forall s :: Lists(xs, s) ==> Lists(xs[i := xs[j]][j := xs[i]], s)
  {
    var ys := xs[i := xs[j]][j := xs[i]];
    forall x
      ensures x in xs <==> x in ys
    {
      if x in xs {
        var a :| 0 <= a < |xs| && xs[a] == x;
        assert ys[if a == i then j else if a == j then i else a] == x;
      }
    }
    assert Elements(xs) == Elements(ys);
  }

  lemma NextIsBump(at: nat, order: seq<string>)
    requires at < |order|
    ensures (at + 1) % |order| == Bump(order, at)
  {
  }

  // ---- Runs of calls ----

  ghost predicate Legal(p: Prober, calls: seq<Call>)
    requires p.Valid()
    decreases |calls|
  {
    calls == [] || (Enabled(p, calls[0]) && Legal(After(p, calls[0]), calls[1..]))
  }

  ghost function AllPicks(p: Prober, calls: seq<Call>): seq<string>
    requires p.Valid() && Legal(p, calls)
    decreases |calls|
  {
    if calls == [] then [] else Picks(p, calls[0]) + AllPicks(After(p, calls[0]), calls[1..])
  }

  /** The number of candidates stays what it was: no rebuild happens. */
  predicate Steady(p: Prober, calls: seq<Call>) {
    forall i :: 0 <= i < |calls| ==> |calls[i].candidates| == p.lastCount
  }

  lemma {:induction false} WalkOn(order: seq<string>, at: nat, a: nat, b: nat)
    requires at < |order|
    ensures Walk(order, at, a) + Walk(order, End(order, at, a), b) == Walk(order, at, a + b)
    ensures End(order, End(order, at, a), b) == End(order, at, a + b)
    decreases a
  {
    if a > 0 {
      WalkOn(order, Bump(order, at), a - 1, b);
    }
  }

  lemma {:induction false} WalkToEnd(order: seq<string>, at: nat)
    requires at < |order|
    ensures Walk(order, at, |order| - at) == order[at..] && End(order, at, |order| - at) == 0
    decreases |order| - at
  {
    if at + 1 < |order| {
      WalkToEnd(order, at + 1);
    } else {
      assert order[at..] == [order[at]];
      assert Walk(order, 0, 0) == [];
    }
  }

  lemma {:induction false} WalkFromStart(order: seq<string>, n: nat)
    requires order != [] && n <= |order|
    ensures Walk(order, 0, n) == order[..n] && (n < |order| ==> End(order, 0, n) == n)
  {
    if n > 0 {
      WalkFromStart(order, n - 1);
      WalkOn(order, 0, n - 1, 1);
      assert order[..n] == order[..n - 1] + [order[n - 1]];
      assert Walk(order, n - 1, 1) == [order[n - 1]] + Walk(order, Bump(order, n - 1), 0);
    }
  }

  lemma Rotated(order: seq<string>, at: nat)
    requires at <= |order|
    ensures multiset(order[at..] + order[..at]) == multiset(order)
  {
    assert order == order[..at] + order[at..];
  }

  /** One lap visits the rest of the order, then its beginning. */
  lemma WalkLap(order: seq<string>, at: nat)
    requires at < |order|
    ensures Walk(order, at, |order|) == order[at..] + order[..at]
  {
    WalkOn(order, at, |order| - at, at);
    WalkToEnd(order, at);
    WalkFromStart(order, at);
  }

  /** A call without a rebuild walks on from the pointer. */
  lemma SteadyCall(p: Prober, c: Call)
    requires p.Valid() && p.order != [] && Enabled(p, c) && |c.candidates| == p.lastCount
    ensures var n := Min(c.k, |p.order|);
            && Picks(p, c) == Walk(p.order, p.pointer, n)
            && After(p, c) == p.(pointer := End(p.order, p.pointer, n))
  {
    assert c.candidates != {} && !Rebuilds(p, c);
  }

  /** Whatever the calls ask for, without a rebuild their results put together go round the order. */
  lemma {:induction false} PicksAreCyclic(p: Prober, calls: seq<Call>)
    requires p.Valid() && p.order != [] && Legal(p, calls) && Steady(p, calls)
    ensures AllPicks(p, calls) == Walk(p.order, p.pointer, |AllPicks(p, calls)|)
    decreases |calls|
  {
    if calls != [] {
      var q := After(p, calls[0]);
      SteadyCall(p, calls[0]);
      PicksAreCyclic(q, calls[1..]);
      WalkOn(p.order, p.pointer, Min(calls[0].k, |p.order|), |AllPicks(q, calls[1..])|);
    }
  }

  lemma WalkWindow(order: seq<string>, at: nat, n: nat, i: nat, m: nat)
    requires at < |order| && i + m <= n
    ensures Walk(order, at, n)[i..i + m] == Walk(order, End(order, at, i), m)
  {
    WalkOn(order, at, i, n - i);
    WalkOn(order, End(order, at, i), m, n - i - m);
  }

  /** A stretch of picks as long as the order. */
  predicate Window(w: seq<string>, picks: seq<string>, i: nat, n: nat) {
    i + n <= |picks| && w == picks[i..i + n]
  }

  lemma WindowIsLap(w: seq<string>, picks: seq<string>, order: seq<string>, at: nat, i: nat)
    requires at < |order| && Window(w, picks, i, |order|) && picks == Walk(order, at, |picks|)
    ensures multiset(w) == multiset(order)
  {
    WalkWindow(order, at, |picks|, i, |order|);
    WalkLap(order, End(order, at, i));
    Rotated(order, End(order, at, i));
  }

  /** Any n consecutive picks of any sequence of calls list the order exactly once. */
  lemma EveryWindowListsTheOrder(p: Prober, calls: seq<Call>, w: seq<string>, i: nat)
    requires p.Valid() && p.order != [] && Legal(p, calls) && Steady(p, calls)
    requires Window(w, AllPicks(p, calls), i, |p.order|)
    ensures multiset(w) == multiset(p.order)
  {
    PicksAreCyclic(p, calls);
    WindowIsLap(w, AllPicks(p, calls), p.order, p.pointer, i);
  }

  /** Probing is time-bounded: from a rebuild on, while the candidate set stays as it is, any n
      consecutive picks contain each of the n candidates exactly once. */
  lemma ProbingIsTimeBounded(p: Prober, calls: seq<Call>, w: seq<string>, i: nat, id: string)
    requires p.Valid() && Legal(p, calls) && calls != [] && Rebuilds(p, calls[0])
    requires forall j :: 0 <= j < |calls| ==> calls[j].candidates == calls[0].candidates
    requires id in calls[0].candidates && Window(w, AllPicks(p, calls), i, |calls[0].candidates|)
    ensures multiset(w)[id] == 1
  {
    var q := Refreshed(p, calls[0]);
    assert Legal(q, calls) && AllPicks(q, calls) == AllPicks(p, calls) by {
      assert Picks(q, calls[0]) == Picks(p, calls[0]) && After(q, calls[0]) == After(p, calls[0]);
    }
    EveryWindowListsTheOrder(q, calls, w, i);
    assert id in Elements(q.order);
    OnceInOrder(q.order, id);
  }

  lemma {:induction false} OnceInOrder(xs: seq<string>, x: string)
    requires Distinct(xs)
    ensures multiset(xs)[x] == if x in xs then 1 else 0
  {
    if xs != [] {
      OnceInOrder(xs[1..], x);
      assert xs == [xs[0]] + xs[1..];
      assert xs[0] !in xs[1..];
    }
  }

  /** n calls that ask for at least one node each are enough to reach everyone. */
  lemma {:induction false} EveryCallPicks(p: Prober, calls: seq<Call>)
    requires p.Valid() && p.order != [] && Legal(p, calls) && Steady(p, calls)
    requires forall i :: 0 <= i < |calls| ==> calls[i].k >= 1
    ensures |AllPicks(p, calls)| >= |calls|
    decreases |calls|
  {
    if calls != [] {
      var q := After(p, calls[0]);
      assert calls[0].candidates != {} && !Rebuilds(p, calls[0]);
      EveryCallPicks(q, calls[1..]);
    }
  }

  // ---- A change that keeps the number of candidates goes unnoticed ----

  lemma {:induction false} WalkStaysInOrder(order: seq<string>, at: nat, n: nat)
    requires at < |order|
    ensures forall x :: x in Walk(order, at, n) ==> x in order
    decreases n
  {
    if n > 0 {
      WalkStaysInOrder(order, Bump(order, at), n - 1);
    }
  }

  lemma LapCovers(picks: seq<string>, order: seq<string>, at: nat)
    requires at < |order| <= |picks| && picks == Walk(order, at, |picks|)
    ensures Elements(picks) == Elements(order)
  {
    WindowIsLap(picks[0..|order|], picks, order, at, 0);
    WalkStaysInOrder(order, at, |picks|);
    forall x | x in order
      ensures x in picks
    {
      assert x in multiset(order);
      assert x in multiset(picks[0..|order|]);
    }
  }

  /** The membership test compares counts only. So once n picks have been made without a rebuild,
      every current candidate has been picked if and only if the candidate set is the one the order
      was drawn from. */
  lemma EveryCandidatePickedIff(p: Prober, calls: seq<Call>, current: set<string>)
    requires p.Valid() && p.order != [] && Legal(p, calls) && Steady(p, calls)
    requires |current| == p.lastCount && |AllPicks(p, calls)| >= |p.order|
    ensures current <= Elements(AllPicks(p, calls)) <==> current == Elements(p.order)
  {
    PicksAreCyclic(p, calls);
    LapCovers(AllPicks(p, calls), p.order, p.pointer);
    ListedCount(p.order);
    if current <= Elements(p.order) {
      SameSize(current, Elements(p.order));
    }
  }

  lemma SameSize(s: set<string>, t: set<string>)
    requires s <= t && |s| == |t|
    ensures s == t
  {
    assert t == s + (t - s);
  }

  /** A node that joined as another died, between two calls, is never picked while the count stays. */
  lemma SwappedInNodeIsNeverPicked(p: Prober, calls: seq<Call>, id: string)
    requires p.Valid() && p.order != [] && Legal(p, calls) && Steady(p, calls) && id !in p.order
    ensures id !in AllPicks(p, calls)
  {
    PicksAreCyclic(p, calls);
    WalkStaysInOrder(p.order, p.pointer, |AllPicks(p, calls)|);
  }

  // ---- Who can be picked ----

  ghost function Final(p: Prober, calls: seq<Call>): (r: Prober)
    requires p.Valid() && Legal(p, calls)
    ensures r.Valid()
    decreases |calls|
  {
    if calls == [] then p else Final(After(p, calls[0]), calls[1..])
  }

  /** The snapshot the present order was drawn from. */
  ghost function DrawnFrom(p: Prober, calls: seq<Call>, snapshots: seq<map<string, Member>>, first: map<string, Member>)
    : map<string, Member>
    requires p.Valid() && Legal(p, calls) && |snapshots| == |calls|
    decreases |calls|
  {
    if calls == [] then first
    else DrawnFrom(After(p, calls[0]), calls[1..], snapshots[1..], if Rebuilds(p, calls[0]) then snapshots[0] else first)
  }

  /** Calls made with these snapshots of the list. */
  predicate From(self: string, calls: seq<Call>, snapshots: seq<map<string, Member>>) {
    |snapshots| == |calls| && forall i :: 0 <= i < |calls| ==> calls[i].candidates == Candidates(self, snapshots[i])
  }

  lemma {:induction false} OrderIsDrawn(p: Prober, self: string, calls: seq<Call>, snapshots: seq<map<string, Member>>,
                                        first: map<string, Member>)
    requires p.Valid() && Legal(p, calls) && From(self, calls, snapshots)
    requires Elements(p.order) == Candidates(self, first)
    ensures Elements(Final(p, calls).order) == Candidates(self, DrawnFrom(p, calls, snapshots, first))
    decreases |calls|
  {
    if calls != [] {
      OrderIsDrawn(After(p, calls[0]), self, calls[1..], snapshots[1..],
                   if Rebuilds(p, calls[0]) then snapshots[0] else first);
    }
  }

  /** In every run, whoever a call picks was listed when the order in use was drawn, and was neither the node
      itself nor dead then. */
  lemma PickedWasEligible(self: string, calls: seq<Call>, snapshots: seq<map<string, Member>>,
                          c: Call, snapshot: map<string, Member>, id: string)
    requires Legal(NEW, calls) && From(self, calls, snapshots)
    requires Enabled(Final(NEW, calls), c) && c.candidates == Candidates(self, snapshot)
    requires id in Picks(Final(NEW, calls), c)
    ensures var drawn := if Rebuilds(Final(NEW, calls), c) then snapshot else DrawnFrom(NEW, calls, snapshots, map[]);
            id in drawn && id != self && !drawn[id].status.Dead?
  {
    var p := Final(NEW, calls);
    OrderIsDrawn(NEW, self, calls, snapshots, map[]);
    var q := Refreshed(p, c);
    WalkStaysInOrder(q.order, q.pointer, Min(c.k, |q.order|));
    assert id in Elements(q.order);
  }

  /** A call returns as many different nodes as asked for, or all candidates there are. */
  lemma CallPicksDistinct(p: Prober, c: Call)
    requires p.Valid() && Enabled(p, c)
    ensures |Picks(p, c)| == Min(c.k, |c.candidates|) && Distinct(Picks(p, c))
  {
    if c.candidates != {} {
      var q := Refreshed(p, c);
      var n := Min(c.k, |q.order|);
      ListedCount(q.order);
      WalkOn(q.order, q.pointer, n, |q.order| - n);
      WalkLap(q.order, q.pointer);
      RotatedDistinct(q.order, q.pointer);
      assert Picks(p, c) == (q.order[q.pointer..] + q.order[..q.pointer])[..n];
    }
  }

  lemma RotatedDistinct(order: seq<string>, at: nat)
    requires Distinct(order) && at <= |order|
    ensures Distinct(order[at..] + order[..at])
  {
    var lap := order[at..] + order[..at];
    assert forall i :: 0 <= i < |lap| ==> lap[i] == order[if i < |order| - at then at + i else at + i - |order|];
  }

  /** After a call the order has as many nodes as there are candidates; with another number than before it
      has been drawn anew from the candidates. */
  lemma CountChangeRedraws(p: Prober, c: Call)
    requires p.Valid() && Enabled(p, c) && c.candidates != {}
    ensures |After(p, c).order| == |c.candidates|
    ensures |c.candidates| != p.lastCount ==> Elements(After(p, c).order) == c.candidates
  {
  }
}
