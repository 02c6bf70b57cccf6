/** The consistent-hash ring: placement, ownership ranges, successors and garbage collection
    (ring.go, hydfs_operations.go), and that the four computations agree. */
module Ring {
  import opened Members

  // ---- Index arithmetic ----

  function SuccessorIdx(idx: nat, step: nat, n: nat): nat
    requires n > 0
  {
    (idx + step) % n
  }

  function PredecessorIdx(idx: nat, n: nat): nat
    requires idx < n
  {
    (idx - 1 + n) % n
  }

  /** Go's remainder, which takes the sign of the dividend. */
  function GoMod(a: int, n: nat): int
    requires n > 0
  {
    if a >= 0 then a % n else -((-a) % n)
  }

  lemma ModWrap(a: nat, n: nat)
    requires a < 2 * n
    ensures a % n == if a < n then a else a - n
  {
    if a >= n {
      assert a == n * 1 + (a - n);
    }
  }

  /** How far b lies ahead of a, going round. */
  function Distance(a: nat, b: nat, n: nat): nat
    requires a < n && b < n
  {
    if a <= b then b - a else b - a + n
  }

  lemma DistanceIsSteps(a: nat, b: nat, i: nat, n: nat)
    requires a < n && b < n && i < n
    ensures SuccessorIdx(a, i, n) == b <==> Distance(a, b, n) == i
  {
    ModWrap(a + i, n);
  }

  // ---- Ranges ----

  /** (start, end], wrapping when start >= end. */
  predicate IsHashInRange(h: nat, start: nat, end: nat) {
    if start < end then start < h <= end else h > start || h <= end
  }

  datatype KeyRange = NoRange | Range(start: nat, end: nat) | IndexPanic

  /** p is the nearest alive member before `my`, going round; `my` itself when no other is alive. */
  ghost predicate AlivePredecessor(ms: seq<Member>, my: nat, p: nat)
    requires my < |ms|
  {
    && p < |ms| && ms[p].IsAlive()
    && if p < my then forall j :: p < j < my ==> !ms[j].IsAlive()
       else (forall j :: 0 <= j < my ==> !ms[j].IsAlive()) && (forall j :: p < j < |ms| ==> !ms[j].IsAlive())
  }

  method GetNodeIndex(ms: seq<Member>, id: string) returns (idx: int)
    ensures -1 <= idx < |ms|
    ensures idx >= 0 ==> ms[idx].id == id
    ensures forall j :: 0 <= j < (if idx >= 0 then idx else |ms|) ==> ms[j].id != id
  {
    for i := 0 to |ms|
      invariant forall j :: 0 <= j < i ==> ms[j].id != id
    {
      if ms[i].id == id {
        return i;
      }
    }
    return -1;
  }

  method GetPrimaryKeyRange(ms: seq<Member>, id: string) returns (r: KeyRange, ghost my: nat, ghost p: nat)
    ensures r.NoRange? <==> (forall m :: m in ms ==> m.id != id) || (forall m :: m in ms ==> !m.IsAlive())
    ensures r.NoRange? || (my < |ms| && ms[my].id == id && AlivePredecessor(ms, my, p))
    ensures !r.NoRange? ==> r == Range(ms[p].hash, ms[my].hash)
  {
    my, p := 0, 0;
    var myIdx := GetNodeIndex(ms, id);
    if |ms| == 0 || myIdx == -1 {
      return NoRange, my, p;
    }
    my := myIdx;
    var n, predIdx, found := |ms|, myIdx, false;
    var i := 0;
    while i < n && !found
      invariant 0 <= i <= n && 0 <= predIdx < n
      invariant !found ==> predIdx == if i <= myIdx then myIdx - i else myIdx - i + n
      invariant !found ==> forall j :: 0 <= j < n && Distance(j, myIdx, n) <= i && j != myIdx ==> !ms[j].IsAlive()
      invariant !found && i == n ==> !ms[myIdx].IsAlive()
      invariant found ==> AlivePredecessor(ms, myIdx, predIdx)
      decreases n - i, !found
    {
      ModWrap(predIdx - 1 + n, n);
      predIdx := PredecessorIdx(predIdx, n);
      if ms[predIdx].IsAlive() {
        found := true;
      } else {
        i := i + 1;
      }
    }
    if !found {
      return NoRange, my, p;
    }
    p := predIdx;
    assert ms[p] in ms;
    r := Range(ms[predIdx].hash, ms[myIdx].hash);
  }

  method GetAllKeyRange(ms: seq<Member>, id: string, replicationFactor: nat) returns (r: KeyRange, ghost my: nat)
    ensures r.NoRange? <==> forall m :: m in ms ==> m.id != id
    ensures r.NoRange? || (my < |ms| && ms[my].id == id && r == AllKeyRange(ms, my, replicationFactor))
  {
    my := 0;
    var myIdx := GetNodeIndex(ms, id);
    if |ms| == 0 || myIdx == -1 {
      return NoRange, my;
    }
    my := myIdx;
    var predIdx := GoMod(myIdx - replicationFactor + |ms|, |ms|);
    if predIdx < 0 {
      return IndexPanic, my;
    }
    r := Range(ms[predIdx].hash, ms[myIdx].hash);
  }

  function AllKeyRange(ms: seq<Member>, my: nat, replicationFactor: nat): KeyRange
    requires my < |ms|
  {
    var predIdx := GoMod(my - replicationFactor + |ms|, |ms|);
    if predIdx < 0 then IndexPanic else Range(ms[predIdx].hash, ms[my].hash)
  }

  /** The index is negative exactly when the list is shorter than the reach back, and not by whole laps. */
  lemma AllKeyRangePanics(ms: seq<Member>, my: nat, replicationFactor: nat)
    requires my < |ms|
    ensures AllKeyRange(ms, my, replicationFactor).IndexPanic? <==>
            replicationFactor > my + |ms| && (replicationFactor - my) % |ms| != 0
    ensures replicationFactor <= |ms| ==> AllKeyRange(ms, my, replicationFactor).Range?
  {
    var n, a := |ms|, replicationFactor - my - |ms|;
    if a > 0 {
      var q := a / n;
      assert a + n == n * (q + 1) + a % n;
      UniqueRemainder(a + n, n, q + 1, a % n);
    }
  }

  lemma {:induction false} AtLeastOneLap(n: nat, laps: nat)
    requires laps >= 1
    ensures n * laps >= n
  {
    if laps > 1 {
      AtLeastOneLap(n, laps - 1);
      assert n * laps == n * (laps - 1) + n;
    }
  }

  lemma UniqueRemainder(a: nat, n: nat, q: nat, r: nat)
    requires r < n && a == n * q + r
    ensures a % n == r
  {
    var q' := a / n;
    assert a == n * q' + a % n;
    if q > q' {
      AtLeastOneLap(n, q - q');
    } else if q < q' {
      AtLeastOneLap(n, q' - q);
    }
  }

  // ---- Placement ----

  /** The member that owns h: the first alive one at or after h, or the first alive one at all. */
  ghost predicate IsPrimary(ms: seq<Member>, h: nat, i: nat) {
    && i < |ms| && ms[i].IsAlive()
    && ((ms[i].hash >= h && forall j :: 0 <= j < i && ms[j].IsAlive() ==> ms[j].hash < h) ||
        ((forall j :: 0 <= j < |ms| && ms[j].IsAlive() ==> ms[j].hash < h) && forall j :: 0 <= j < i ==> !ms[j].IsAlive()))
  }

  /** The alive members at the positions from+lo .. from+hi-1, going round. */
  function AliveFrom(ms: seq<Member>, from: nat, lo: nat, hi: nat): seq<Member>
    requires |ms| > 0
    decreases hi
  {
    if hi <= lo then []
    else
      var m := ms[SuccessorIdx(from, hi - 1, |ms|)];
      AliveFrom(ms, from, lo, hi - 1) + if m.IsAlive() then [m] else []
  }

  method FindPrimary(ms: seq<Member>, h: nat) returns (primary: int)
    ensures primary == -1 <==> forall m :: m in ms ==> !m.IsAlive()
    ensures -1 <= primary < |ms| && (primary >= 0 ==> IsPrimary(ms, h, primary))
  {
    for i := 0 to |ms|
      invariant forall j :: 0 <= j < i && ms[j].IsAlive() ==> ms[j].hash < h
    {
      if ms[i].IsAlive() && ms[i].hash >= h {
        assert ms[i] in ms;
        return i;
      }
    }
    for i := 0 to |ms|
      invariant forall j :: 0 <= j < i ==> !ms[j].IsAlive()
    {
      if ms[i].IsAlive() {
        assert ms[i] in ms;
        return i;
      }
    }
    return -1;
  }

  method FindTargetNodes(ms: seq<Member>, h: nat, replicationFactor: nat)
    returns (targets: seq<Member>, ghost primary: nat)
    ensures (forall m :: m in ms ==> !m.IsAlive()) ==> targets == []
    ensures (exists m :: m in ms && m.IsAlive()) ==>
              IsPrimary(ms, h, primary) && targets == AliveFrom(ms, primary, 0, replicationFactor)
    ensures forall m :: m in targets ==> m in ms && m.IsAlive()
  {
    targets, primary := [], 0;
    var primaryIndex := FindPrimary(ms, h);
    if primaryIndex == -1 {
      return;
    }
    primary := primaryIndex;
    for i := 0 to replicationFactor
      invariant targets == AliveFrom(ms, primaryIndex, 0, i)
    {
      var index := (primaryIndex + i) % |ms|;
      if ms[index].IsAlive() {
        targets := targets + [ms[index]];
      }
    }
    forall m | m in targets ensures m in ms && m.IsAlive() {
      ListedIsAlive(ms, primary, 0, replicationFactor, m);
    }
  }

  method GetSuccessors(ms: seq<Member>, id: string, n: nat) returns (succ: seq<Member>, ghost my: nat)
    ensures (forall m :: m in ms ==> m.id != id) ==> succ == []
    ensures (exists m :: m in ms && m.id == id) ==>
              my < |ms| && ms[my].id == id && succ == FirstOf(AliveFrom(ms, my, 1, |ms|), n - 1)
    ensures AreSuccessorsOf(ms, id, my, n - 1, succ)
  {
    succ, my := [], 0;
    var myIdx := GetNodeIndex(ms, id);
    if myIdx == -1 || |ms| == 0 {
      return;
    }
    my := myIdx;
    var i, count := 1, 0;
    while count < n - 1 && i < |ms|
      invariant 1 <= i <= |ms| && count == |succ| && (count <= n - 1 || count == 0)
      invariant succ == AliveFrom(ms, myIdx, 1, i)
    {
      var idx := SuccessorIdx(myIdx, i, |ms|);
      if ms[idx].IsAlive() {
        succ := succ + [ms[idx]];
        count := count + 1;
      }
      i := i + 1;
    }
    AliveFromPrefix(ms, my, 1, i, |ms|);
    SuccessorsByIdAreNearest(ms, id, my, n - 1);
  }

  function FirstOf(ms: seq<Member>, n: int): seq<Member> {
    if n <= 0 then [] else if n < |ms| then ms[..n] else ms
  }

  // ---- One primary per hash; primary ranges partition the key space ----

  ghost predicate DistinctAliveHashes(ms: seq<Member>) {
    forall i, j :: 0 <= i < j < |ms| && ms[i].IsAlive() && ms[j].IsAlive() ==> ms[i].hash < ms[j].hash
  }

  lemma PrimaryIsUnique(ms: seq<Member>, h: nat, i: nat, j: nat)
    requires IsPrimary(ms, h, i) && IsPrimary(ms, h, j)
    ensures i == j
  {
  }

  /** The member whose primary range holds h is the member placement puts first. */
  lemma PrimaryRangesPartition(ms: seq<Member>, h: nat, my: nat, p: nat)
    requires DistinctAliveHashes(ms)
    requires my < |ms| && ms[my].IsAlive() && AlivePredecessor(ms, my, p)
    ensures IsHashInRange(h, ms[p].hash, ms[my].hash) <==> IsPrimary(ms, h, my)
  {
    if p < my {
      assert ms[p].hash < ms[my].hash;
      if IsHashInRange(h, ms[p].hash, ms[my].hash) {
        forall j | 0 <= j < my && ms[j].IsAlive()
          ensures ms[j].hash < h
        {
          assert j <= p;
        }
      }
    } else {
      assert forall j :: 0 <= j < |ms| && ms[j].IsAlive() ==> my <= j <= p;
      assert forall j :: 0 <= j < |ms| && ms[j].IsAlive() ==> ms[j].hash <= ms[p].hash;
    }
  }

  lemma NearestAlive(ms: seq<Member>, my: nat, from: nat) returns (p: nat)
    requires my < |ms| && ms[my].IsAlive() && from <= |ms|
    requires if from <= my then forall j :: from <= j < my ==> !ms[j].IsAlive()
             else (forall j :: 0 <= j < my ==> !ms[j].IsAlive()) && forall j :: from <= j < |ms| ==> !ms[j].IsAlive()
    ensures AlivePredecessor(ms, my, p)
    decreases if from <= my then |ms| + 1 + from else from
  {
    if from == 0 {
      p := NearestAlive(ms, my, |ms|);
    } else if ms[from - 1].IsAlive() && from != my + 1 {
      p := from - 1;
    } else if from == my + 1 {
      p := my;
    } else {
      p := NearestAlive(ms, my, from - 1);
    }
  }

  lemma OwnsIffPrimary(ms: seq<Member>, h: nat, owner: nat, i: nat, p: nat)
    requires DistinctAliveHashes(ms) && IsPrimary(ms, h, owner)
    requires i < |ms| && ms[i].IsAlive() && AlivePredecessor(ms, i, p)
    ensures IsHashInRange(h, ms[p].hash, ms[i].hash) <==> i == owner
  {
    PrimaryRangesPartition(ms, h, i, p);
    if IsPrimary(ms, h, i) {
      PrimaryIsUnique(ms, h, i, owner);
    }
  }

  /** The range from an alive member's nearest alive predecessor holds the hash. */
  ghost predicate Owns(ms: seq<Member>, h: nat, i: nat)
    requires i < |ms|
  {
    exists p: nat :: AlivePredecessor(ms, i, p) && IsHashInRange(h, ms[p].hash, ms[i].hash)
  }

  /** Exactly one alive member owns each hash. */
  lemma ExactlyOneOwner(ms: seq<Member>, h: nat) returns (owner: nat)
    requires DistinctAliveHashes(ms) && exists m :: m in ms && m.IsAlive()
    ensures owner < |ms| && ms[owner].IsAlive()
    ensures forall i: nat :: i < |ms| && ms[i].IsAlive() ==> (Owns(ms, h, i) <==> i == owner)
  {
    owner := SomePrimary(ms, h);
    forall i: nat | i < |ms| && ms[i].IsAlive()
      ensures Owns(ms, h, i) <==> i == owner
    {
      OwnedOnce(ms, h, owner, i);
    }
  }

  lemma OwnedOnce(ms: seq<Member>, h: nat, owner: nat, i: nat)
    requires DistinctAliveHashes(ms) && IsPrimary(ms, h, owner) && i < |ms| && ms[i].IsAlive()
    ensures Owns(ms, h, i) <==> i == owner
  {
    var p := NearestAlive(ms, i, i);
    OwnsIffPrimary(ms, h, owner, i, p);
    if q: nat :| AlivePredecessor(ms, i, q) && IsHashInRange(h, ms[q].hash, ms[i].hash) {
      OwnsIffPrimary(ms, h, owner, i, q);
    }
  }

  lemma SomePrimary(ms: seq<Member>, h: nat) returns (i: nat)
    requires exists m :: m in ms && m.IsAlive()
    ensures IsPrimary(ms, h, i)
  {
    var m :| m in ms && m.IsAlive();
    var k :| 0 <= k < |ms| && ms[k] == m;
    i := FirstAlive(ms, if exists j :: 0 <= j < |ms| && ms[j].IsAlive() && ms[j].hash >= h then h else 0, 0);
  }

  lemma FirstAlive(ms: seq<Member>, h: nat, from: nat) returns (i: nat)
    requires from <= |ms| && forall j :: 0 <= j < from && ms[j].IsAlive() ==> ms[j].hash < h
    requires exists j :: 0 <= j < |ms| && ms[j].IsAlive() && ms[j].hash >= h
    ensures i < |ms| && ms[i].IsAlive() && ms[i].hash >= h
    ensures forall j :: 0 <= j < i && ms[j].IsAlive() ==> ms[j].hash < h
    decreases |ms| - from
  {
    if ms[from].IsAlive() && ms[from].hash >= h {
      i := from;
    } else {
      i := FirstAlive(ms, h, from + 1);
    }
  }

  // ---- Replicas are the primary's first successors ----

  lemma {:induction false} AliveFromSplit(ms: seq<Member>, from: nat, lo: nat, mid: nat, hi: nat)
    requires |ms| > 0 && lo <= mid <= hi
    ensures AliveFrom(ms, from, lo, hi) == AliveFrom(ms, from, lo, mid) + AliveFrom(ms, from, mid, hi)
    decreases hi
  {
    if mid < hi {
      AliveFromSplit(ms, from, lo, mid, hi - 1);
    }
  }

  lemma {:induction false} AliveFromSize(ms: seq<Member>, from: nat, lo: nat, hi: nat)
    requires |ms| > 0 && lo <= hi
    ensures |AliveFrom(ms, from, lo, hi)| <= hi - lo
    decreases hi
  {
    if lo < hi {
      AliveFromSize(ms, from, lo, hi - 1);
    }
  }

  lemma AliveFromPrefix(ms: seq<Member>, from: nat, lo: nat, mid: nat, hi: nat)
    requires |ms| > 0 && lo <= mid <= hi
    ensures AliveFrom(ms, from, lo, mid) <= AliveFrom(ms, from, lo, hi)
  {
    AliveFromSplit(ms, from, lo, mid, hi);
  }

  /** With enough members, the targets of h are its primary and a prefix of the primary's successors. */
  lemma TargetsArePrimaryAndSuccessors(ms: seq<Member>, h: nat, primary: nat, replicationFactor: nat)
    requires 1 <= replicationFactor <= |ms| && IsPrimary(ms, h, primary)
    ensures var targets := AliveFrom(ms, primary, 0, replicationFactor);
            && targets != [] && targets[0] == ms[primary]
            && targets[1..] <= FirstOf(AliveFrom(ms, primary, 1, |ms|), replicationFactor - 1)
  {
    var rest, all := AliveFrom(ms, primary, 1, replicationFactor), AliveFrom(ms, primary, 1, |ms|);
    ModWrap(primary, |ms|);
    assert AliveFrom(ms, primary, 0, 0) == [];
    assert AliveFrom(ms, primary, 0, 1) == [ms[primary]];
    AliveFromSplit(ms, primary, 0, 1, replicationFactor);
    AliveFromPrefix(ms, primary, 1, replicationFactor, |ms|);
    AliveFromSize(ms, primary, 1, replicationFactor);
  }

  /** A member is listed exactly when it is alive and lies in the stretch. */
  lemma {:induction false} ListedIffBetween(ms: seq<Member>, from: nat, lo: nat, hi: nat, j: nat)
    requires DistinctIds(ms) && from < |ms| && j < |ms| && hi <= |ms|
    ensures ms[j] in AliveFrom(ms, from, lo, hi) <==> ms[j].IsAlive() && lo <= Distance(from, j, |ms|) < hi
    decreases hi
  {
    if hi > lo {
      ListedIffBetween(ms, from, lo, hi - 1, j);
      DistanceIsSteps(from, j, hi - 1, |ms|);
      var last := SuccessorIdx(from, hi - 1, |ms|);
      assert ms[last] == ms[j] <==> last == j;
    }
  }

  lemma {:induction false} ListedIsAlive(ms: seq<Member>, from: nat, lo: nat, hi: nat, m: Member)
    requires |ms| > 0 && m in AliveFrom(ms, from, lo, hi)
    ensures m.IsAlive() && m in ms
    decreases hi
  {
    if m != ms[SuccessorIdx(from, hi - 1, |ms|)] || !m.IsAlive() {
      ListedIsAlive(ms, from, lo, hi - 1, m);
    }
  }

  /** A member is among the targets exactly when it is alive and lies within reach of the primary. */
  lemma TargetIffWithinReach(ms: seq<Member>, primary: nat, reach: nat, my: nat)
    requires DistinctIds(ms) && primary < |ms| && my < |ms|
    ensures ms[my] in AliveFrom(ms, primary, 0, reach) <==> ms[my].IsAlive() && Distance(primary, my, |ms|) < reach
  {
    if reach <= |ms| {
      ListedIffBetween(ms, primary, 0, reach, my);
    } else {
      ListedIffBetween(ms, primary, 0, |ms|, my);
      AliveFromSplit(ms, primary, 0, |ms|, reach);
      if ms[my] in AliveFrom(ms, primary, 0, reach) {
        ListedIsAlive(ms, primary, 0, reach, ms[my]);
      }
    }
  }

  ghost predicate Nearer(ms: seq<Member>, from: nat, a: Member, b: Member)
    requires from < |ms|
  {
    forall i: nat, j: nat :: i < |ms| && j < |ms| && ms[i] == a && ms[j] == b ==>
      Distance(from, i, |ms|) < Distance(from, j, |ms|)
  }

  /** Nearest first, and so each member once. */
  ghost predicate NearestFirst(ms: seq<Member>, from: nat, xs: seq<Member>)
    requires from < |ms|
  {
    forall k, l :: 0 <= k < l < |xs| ==> Nearer(ms, from, xs[k], xs[l])
  }

  lemma EarlierIsNearer(ms: seq<Member>, from: nat, lo: nat, hi: nat, a: Member)
    requires DistinctIds(ms) && from < |ms| && lo < hi <= |ms| && a in AliveFrom(ms, from, lo, hi - 1)
    ensures Nearer(ms, from, a, ms[SuccessorIdx(from, hi - 1, |ms|)])
  {
    forall i: nat, j: nat | i < |ms| && j < |ms| && ms[i] == a && ms[j] == ms[SuccessorIdx(from, hi - 1, |ms|)]
      ensures Distance(from, i, |ms|) < Distance(from, j, |ms|)
    {
      ListedIffBetween(ms, from, lo, hi - 1, i);
      DistanceIsSteps(from, j, hi - 1, |ms|);
    }
  }

  lemma {:induction false} ListedInOrder(ms: seq<Member>, from: nat, lo: nat, hi: nat)
    requires DistinctIds(ms) && from < |ms| && hi <= |ms|
    ensures NearestFirst(ms, from, AliveFrom(ms, from, lo, hi))
    decreases hi
  {
    if hi > lo {
      ListedInOrder(ms, from, lo, hi - 1);
      var before, after := AliveFrom(ms, from, lo, hi - 1), AliveFrom(ms, from, lo, hi);
      forall k, l | 0 <= k < l < |after| ensures Nearer(ms, from, after[k], after[l]) {
        assert before[k] in before;
        if l == |before| {
          EarlierIsNearer(ms, from, lo, hi, before[k]);
        }
      }
    }
  }

  /** No target is listed twice, unless the replication factor exceeds the number of members. */
  lemma TargetsRepeatIff(ms: seq<Member>, h: nat, primary: nat, replicationFactor: nat)
    requires DistinctIds(ms) && IsPrimary(ms, h, primary)
    ensures DistinctIds(AliveFrom(ms, primary, 0, replicationFactor)) <==> replicationFactor <= |ms|
    ensures replicationFactor <= |ms| ==> NearestFirst(ms, primary, AliveFrom(ms, primary, 0, replicationFactor))
  {
    var targets := AliveFrom(ms, primary, 0, replicationFactor);
    if replicationFactor <= |ms| {
      ListedInOrder(ms, primary, 0, replicationFactor);
      forall k, l | 0 <= k < l < |targets| ensures targets[k].id != targets[l].id {
        ListedIsAlive(ms, primary, 0, replicationFactor, targets[k]);
        ListedIsAlive(ms, primary, 0, replicationFactor, targets[l]);
        OrderIsDistinct(ms, primary, targets, k, l);
      }
    } else {
      SecondLap(ms, primary, replicationFactor);
    }
  }

  lemma OrderIsDistinct(ms: seq<Member>, from: nat, xs: seq<Member>, k: nat, l: nat)
    requires DistinctIds(ms) && from < |ms| && NearestFirst(ms, from, xs) && k < l < |xs| && xs[k] in ms && xs[l] in ms
    ensures xs[k].id != xs[l].id
  {
    var i: nat :| i < |ms| && ms[i] == xs[k];
    var j: nat :| j < |ms| && ms[j] == xs[l];
    assert i != j;
  }

  /** A second lap begins with the primary again. */
  lemma SecondLap(ms: seq<Member>, primary: nat, reach: nat)
    requires primary < |ms| < reach && ms[primary].IsAlive()
    ensures !DistinctIds(AliveFrom(ms, primary, 0, reach))
  {
    var n := |ms|;
    ModWrap(primary, n);
    ModWrap(primary + n, n);
    AliveFromSplit(ms, primary, 0, 1, n);
    AliveFromSplit(ms, primary, 0, n, n + 1);
    AliveFromSplit(ms, primary, 0, n + 1, reach);
    assert AliveFrom(ms, primary, 0, 0) == [] && AliveFrom(ms, primary, n, n) == [];
    assert AliveFrom(ms, primary, 0, 1) == [ms[primary]] && AliveFrom(ms, primary, n, n + 1) == [ms[primary]];
    var targets := AliveFrom(ms, primary, 0, reach);
    assert targets[0] == ms[primary] && targets[|AliveFrom(ms, primary, 0, n)|] == ms[primary];
  }

  /** The successors are the nearest alive members after the node, without the node: none alive and nearer is
      left out, and only for want of alive members are there fewer than asked for. */
  ghost predicate AreSuccessors(ms: seq<Member>, my: nat, wanted: int, succ: seq<Member>)
    requires my < |ms|
  {
    && |succ| <= (if wanted < 0 then 0 else wanted)
    && NearestFirst(ms, my, succ)
    && (forall m :: m in succ ==> m in ms && m.IsAlive() && m != ms[my])
    && (forall j: nat :: j < |ms| && j != my && ms[j].IsAlive() && ms[j] !in succ ==>
          |succ| >= wanted && forall m :: m in succ ==> Nearer(ms, my, m, ms[j]))
  }

  lemma SuccessorsAreNearest(ms: seq<Member>, my: nat, wanted: int)
    requires DistinctIds(ms) && my < |ms|
    ensures AreSuccessors(ms, my, wanted, FirstOf(AliveFrom(ms, my, 1, |ms|), wanted))
  {
    var all := AliveFrom(ms, my, 1, |ms|);
    var succ := FirstOf(all, wanted);
    ListedInOrder(ms, my, 1, |ms|);
    forall m | m in succ ensures m in ms && m.IsAlive() && m != ms[my] {
      assert m in all;
      ListedIsAlive(ms, my, 1, |ms|, m);
      ListedIffBetween(ms, my, 1, |ms|, my);
    }
    forall j: nat | j < |ms| && j != my && ms[j].IsAlive() && ms[j] !in succ
      ensures |succ| >= wanted && forall m :: m in succ ==> Nearer(ms, my, m, ms[j])
    {
      ListedIffBetween(ms, my, 1, |ms|, j);
      var l :| 0 <= l < |all| && all[l] == ms[j];
    }
  }

  /** The same for a node given by its ID. */
  ghost predicate AreSuccessorsOf(ms: seq<Member>, id: string, my: nat, wanted: int, succ: seq<Member>) {
    DistinctIds(ms) && my < |ms| && ms[my].id == id ==> AreSuccessors(ms, my, wanted, succ)
  }

  lemma SuccessorsByIdAreNearest(ms: seq<Member>, id: string, my: nat, wanted: int)
    requires my < |ms|
    ensures AreSuccessorsOf(ms, id, my, wanted, FirstOf(AliveFrom(ms, my, 1, |ms|), wanted))
  {
    if DistinctIds(ms) {
      SuccessorsAreNearest(ms, my, wanted);
    }
  }

  // ---- Garbage collection ----

  ghost predicate DistinctHashes(ms: seq<Member>) {
    forall i, j :: 0 <= i < j < |ms| ==> ms[i].hash < ms[j].hash
  }

  /** The ring position of h, dead members included. */
  ghost predicate IsPosition(ms: seq<Member>, h: nat, i: nat) {
    && i < |ms|
    && ((ms[i].hash >= h && forall j :: 0 <= j < i ==> ms[j].hash < h) ||
        (i == 0 && forall j :: 0 <= j < |ms| ==> ms[j].hash < h))
  }

  /** A node's overall range holds exactly the hashes positioned within replication reach of it. */
  lemma AllRangeIsReach(ms: seq<Member>, h: nat, pos: nat, my: nat, replicationFactor: nat)
    requires DistinctHashes(ms) && IsPosition(ms, h, pos) && my < |ms| && 1 <= replicationFactor <= |ms|
    ensures var r := AllKeyRange(ms, my, replicationFactor);
            r.Range? && (IsHashInRange(h, r.start, r.end) <==> Distance(pos, my, |ms|) < replicationFactor)
  {
    ModWrap(my - replicationFactor + |ms|, |ms|);
    var p := GoMod(my - replicationFactor + |ms|, |ms|);
    assert p == if replicationFactor <= my then my - replicationFactor else my - replicationFactor + |ms|;
  }

  /** Whatever an alive node keeps it is a target for; when every member is alive, the converse too. */
  lemma KeptIffTarget(ms: seq<Member>, h: nat, primary: nat, my: nat, replicationFactor: nat)
    requires DistinctHashes(ms) && DistinctIds(ms) && 1 <= replicationFactor <= |ms|
    requires my < |ms| && ms[my].IsAlive() && IsPrimary(ms, h, primary)
    ensures var r := AllKeyRange(ms, my, replicationFactor);
            && r.Range?
            && (IsHashInRange(h, r.start, r.end) ==> ms[my] in AliveFrom(ms, primary, 0, replicationFactor))
            && ((forall m :: m in ms ==> m.IsAlive()) ==>
                  (ms[my] in AliveFrom(ms, primary, 0, replicationFactor) <==> IsHashInRange(h, r.start, r.end)))
  {
    var pos := SomePosition(ms, h, 0);
    AllRangeIsReach(ms, h, pos, my, replicationFactor);
    TargetIffWithinReach(ms, primary, replicationFactor, my);
    PrimaryAfterPosition(ms, h, pos, primary, my);
  }

  lemma SomePosition(ms: seq<Member>, h: nat, from: nat) returns (pos: nat)
    requires ms != [] && from <= |ms| && forall j :: 0 <= j < from ==> ms[j].hash < h
    ensures IsPosition(ms, h, pos)
    decreases |ms| - from
  {
    if from == |ms| {
      pos := 0;
    } else if ms[from].hash >= h {
      pos := from;
    } else {
      pos := SomePosition(ms, h, from + 1);
    }
  }

  /** Skipping dead members only brings the primary closer to an alive node. */
  lemma PrimaryAfterPosition(ms: seq<Member>, h: nat, pos: nat, primary: nat, my: nat)
    requires DistinctHashes(ms) && IsPosition(ms, h, pos) && IsPrimary(ms, h, primary)
    requires my < |ms| && ms[my].IsAlive()
    ensures Distance(primary, my, |ms|) <= Distance(pos, my, |ms|)
    ensures (forall m :: m in ms ==> m.IsAlive()) ==> primary == pos
  {
    if forall m :: m in ms ==> m.IsAlive() {
      assert forall j :: 0 <= j < |ms| ==> ms[j] in ms;
    }
  }

  /** The member whose hash starts the node's overall range. */
  function RangeStart(my: nat, replicationFactor: nat, n: nat): (start: nat)
    requires my < n && 1 <= replicationFactor <= n
    ensures start < n && Distance(start, my, n) == if replicationFactor == n then 0 else replicationFactor
  {
    ModWrap(my - replicationFactor + n, n);
    (my - replicationFactor + n) % n
  }

  /** Collection at `my` deletes exactly the files the node is no target for. */
  ghost predicate CollectsExactly(ms: seq<Member>, my: nat, replicationFactor: nat)
    requires my < |ms| && 1 <= replicationFactor <= |ms|
  {
    forall h: nat, primary: nat :: IsPrimary(ms, h, primary) ==>
      (IsHashInRange(h, ms[RangeStart(my, replicationFactor, |ms|)].hash, ms[my].hash) <==>
       ms[my] in AliveFrom(ms, primary, 0, replicationFactor))
  }

  /** An alive member on the way stops the search for the primary. */
  lemma PrimaryStopsAtAlive(ms: seq<Member>, h: nat, pos: nat, primary: nat, my: nat, q: nat)
    requires DistinctHashes(ms) && IsPosition(ms, h, pos) && IsPrimary(ms, h, primary)
    requires my < |ms| && q < |ms| && ms[q].IsAlive() && ms[my].IsAlive()
    requires Distance(q, my, |ms|) <= Distance(pos, my, |ms|)
    ensures Distance(q, my, |ms|) <= Distance(primary, my, |ms|)
  {
  }

  /** With dead members the converse can fail: a node is a target, yet its range leaves the hash
      out. Collection is exact at a node if and only if the member its overall range starts at is alive. */
  lemma CollectsExactlyIff(ms: seq<Member>, my: nat, replicationFactor: nat)
    requires DistinctHashes(ms) && DistinctIds(ms) && 1 <= replicationFactor <= |ms|
    requires my < |ms| && ms[my].IsAlive()
    ensures AllKeyRange(ms, my, replicationFactor) ==
            Range(ms[RangeStart(my, replicationFactor, |ms|)].hash, ms[my].hash)
    ensures CollectsExactly(ms, my, replicationFactor) <==> ms[RangeStart(my, replicationFactor, |ms|)].IsAlive()
  {
    var q := RangeStart(my, replicationFactor, |ms|);
    if ms[q].IsAlive() {
      forall h: nat, primary: nat | IsPrimary(ms, h, primary)
        ensures IsHashInRange(h, ms[q].hash, ms[my].hash) <==> ms[my] in AliveFrom(ms, primary, 0, replicationFactor)
      {
        AliveStartCollects(ms, h, primary, my, replicationFactor);
      }
    } else {
      DeadStartMisses(ms, my, replicationFactor);
    }
  }

  lemma AliveStartCollects(ms: seq<Member>, h: nat, primary: nat, my: nat, replicationFactor: nat)
    requires DistinctHashes(ms) && DistinctIds(ms) && 1 <= replicationFactor <= |ms|
    requires my < |ms| && ms[my].IsAlive() && IsPrimary(ms, h, primary)
    requires ms[RangeStart(my, replicationFactor, |ms|)].IsAlive()
    ensures IsHashInRange(h, ms[RangeStart(my, replicationFactor, |ms|)].hash, ms[my].hash) <==>
            ms[my] in AliveFrom(ms, primary, 0, replicationFactor)
  {
    var pos := SomePosition(ms, h, 0);
    AllRangeIsReach(ms, h, pos, my, replicationFactor);
    TargetIffWithinReach(ms, primary, replicationFactor, my);
    PrimaryAfterPosition(ms, h, pos, primary, my);
    if replicationFactor < |ms| && Distance(pos, my, |ms|) >= replicationFactor {
      PrimaryStopsAtAlive(ms, h, pos, primary, my, RangeStart(my, replicationFactor, |ms|));
    }
  }

  /** The hash of the dead member itself is the one that is lost. */
  lemma DeadStartMisses(ms: seq<Member>, my: nat, replicationFactor: nat)
    requires DistinctHashes(ms) && DistinctIds(ms) && 1 <= replicationFactor <= |ms|
    requires my < |ms| && ms[my].IsAlive() && !ms[RangeStart(my, replicationFactor, |ms|)].IsAlive()
    ensures !CollectsExactly(ms, my, replicationFactor)
  {
    var q := RangeStart(my, replicationFactor, |ms|);
    var h := ms[q].hash;
    assert ms[my] in ms;
    var primary := SomePrimary(ms, h);
    assert IsPosition(ms, h, q);
    PrimaryAfterPosition(ms, h, q, primary, my);
    AllRangeIsReach(ms, h, q, my, replicationFactor);
    TargetIffWithinReach(ms, primary, replicationFactor, my);
    assert ms[my] in AliveFrom(ms, primary, 0, replicationFactor);
    assert !IsHashInRange(h, h, ms[my].hash);
  }

  /** For instance: the first of four members is dead, and the last no longer keeps hash 5. */
  lemma DeadMemberCanCostAReplica(a: Member, b: Member, c: Member, d: Member)
    requires a.hash == 10 && b.hash == 20 && c.hash == 30 && d.hash == 40
    requires !a.IsAlive() && b.IsAlive() && c.IsAlive() && d.IsAlive()
    ensures var ms := [a, b, c, d];
            && IsPrimary(ms, 5, 1) && d in AliveFrom(ms, 1, 0, 3)
            && AllKeyRange(ms, 3, 3) == Range(10, 40) && !IsHashInRange(5, 10, 40)
  {
    var ms := [a, b, c, d];
    assert AliveFrom(ms, 1, 0, 0) == [];
    assert AliveFrom(ms, 1, 0, 1) == [b];
    assert AliveFrom(ms, 1, 0, 2) == [b, c];
    assert AliveFrom(ms, 1, 0, 3) == [b, c, d];
  }

  /** The names of the files in a range, each once, by the same test as IsHashInRange. */
  method GetFilesWithinRange(files: map<string, nat>, start: nat, end: nat) returns (names: seq<string>)
    ensures forall i, j :: 0 <= i < j < |names| ==> names[i] != names[j]
    ensures forall f :: f in names <==> f in files && IsHashInRange(files[f], start, end)
  {
    names := [];
    var todo := files.Keys;
    while todo != {}
      invariant todo <= files.Keys
      invariant forall i, j :: 0 <= i < j < |names| ==> names[i] != names[j]
      invariant forall f :: f in names <==> f in files && f !in todo && IsHashInRange(files[f], start, end)
    {
      var f :| f in todo;
      if start < end {
        if files[f] > start && files[f] <= end {
          names := names + [f];
        }
      } else if files[f] > start || files[f] <= end {
        names := names + [f];
      }
      todo := todo - {f};
    }
  }

  /** deleteFilesOutsideMyRange on the metadata: file name to file-name hash. */
  method DeleteFilesOutsideMyRange(files: map<string, nat>, ms: seq<Member>, id: string, replicationFactor: nat)
    returns (kept: map<string, nat>, panic: bool, ghost my: nat)
    ensures (forall m :: m in ms ==> m.id != id) ==> kept == files && !panic
    ensures (exists m :: m in ms && m.id == id) ==>
              && my < |ms| && ms[my].id == id
              && var r := AllKeyRange(ms, my, replicationFactor);
                 && (panic <==> r.IndexPanic?)
                 && (r.IndexPanic? ==> kept == files)
                 && (r.Range? ==> kept == map f | f in files && IsHashInRange(files[f], r.start, r.end) :: files[f])
  {
    kept, panic := files, false;
    var r;
    r, my := GetAllKeyRange(ms, id, replicationFactor);
    if r.NoRange? {
      return;
    }
    if r.IndexPanic? {
      return kept, true, my;
    }
    var todo := files.Keys;
    while todo != {}
      invariant todo <= files.Keys
      invariant kept == map f | f in files && (f in todo || IsHashInRange(files[f], r.start, r.end)) :: files[f]
    {
      var f :| f in todo;
      if !IsHashInRange(files[f], r.start, r.end) {
        kept := kept - {f};
      }
      todo := todo - {f};
    }
  }
}
