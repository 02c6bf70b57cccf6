/** The append list of a replicated file (metadata.go). */
module Appends {
  import opened Orders
  import opened Names

  datatype AppendInfo = AppendInfo(
    fileName: string, appendId: string, clientId: string, timestamp: string, hash: string, size: int)

  datatype FileMetadata = FileMetadata(
    fileName: string, contentHash: string, nameHash: nat, creationTime: string, appends: seq<AppendInfo>)

  const NO_FILE := FileMetadata("", "", 0, "", [])

  datatype Outcome = Done | FileDoesNotExist

  /** An append of the same client that a must come before. */
  predicate Precedes(a: AppendInfo, b: AppendInfo) {
    a.clientId == b.clientId && Less(a.timestamp, b.timestamp)
  }

  function Inserted(xs: seq<AppendInfo>, a: AppendInfo): seq<AppendInfo> {
    if xs == [] then [a]
    else if Precedes(a, xs[0]) then [a] + xs
    else [xs[0]] + Inserted(xs[1..], a)
  }

  predicate Known(xs: seq<AppendInfo>, id: string) {
    exists i :: 0 <= i < |xs| && xs[i].appendId == id
  }

  function Recorded(xs: seq<AppendInfo>, a: AppendInfo): seq<AppendInfo> {
    if Known(xs, a.appendId) then xs else Inserted(xs, a)
  }

  lemma SpliceInTail(xs: seq<AppendInfo>, i: nat, a: AppendInfo)
    requires 0 < i <= |xs|
    ensures [xs[0]] + (xs[1..][..i - 1] + [a] + xs[1..][i - 1..]) == xs[..i] + [a] + xs[i..]
  {
    assert xs[..i] == [xs[0]] + xs[1..][..i - 1];
  }

  lemma {:induction false} InsertedAt(xs: seq<AppendInfo>, i: nat, a: AppendInfo)
    requires i <= |xs| && (forall j :: 0 <= j < i ==> !Precedes(a, xs[j])) && (i < |xs| ==> Precedes(a, xs[i]))
    ensures Inserted(xs, a) == xs[..i] + [a] + xs[i..]
  {
    if i > 0 {
      assert !Precedes(a, xs[0]);
      InsertedAt(xs[1..], i - 1, a);
      SpliceInTail(xs, i, a);
    } else if xs != [] {
      assert Inserted(xs, a) == [a] + xs;
    }
  }

  /** The splice loop. */
  method InsertAppend(appends: seq<AppendInfo>, newAppend: AppendInfo) returns (after: seq<AppendInfo>)
    ensures after == Inserted(appends, newAppend)
  {
    for i := 0 to |appends|
      invariant forall j :: 0 <= j < i ==> !Precedes(newAppend, appends[j])
    {
      if appends[i].clientId == newAppend.clientId && Less(newAppend.timestamp, appends[i].timestamp) {
        InsertedAt(appends, i, newAppend);
        return appends[..i] + ([newAppend] + appends[i..]);
      }
    }
    InsertedAt(appends, |appends|, newAppend);
    after := appends + [newAppend];
  }

  class Metadata {
    var files: map<string, FileMetadata>
    var locks: set<string>

    ghost predicate Valid()
      reads this
    {
      locks == files.Keys
    }

    constructor ()
      ensures Valid() && files == map[]
    {
      files, locks := map[], {};
    }

    method AddFile(meta: FileMetadata)
      requires Valid()
      modifies this
      ensures Valid() && files == old(files)[meta.fileName := meta]
    {
      files := files[meta.fileName := meta];
      if meta.fileName !in locks {
        locks := locks + {meta.fileName};
      }
    }

    /** Fails exactly when the file does not exist; otherwise only that file's list changes. */
    method AppendToFile(filename: string, info: AppendInfo) returns (outcome: Outcome)
      requires Valid()
      modifies this
      ensures Valid()
      ensures outcome == FileDoesNotExist <==> filename !in old(files)
      ensures files == if filename !in old(files) then old(files)
                       else old(files)[filename := old(files)[filename].(appends := Recorded(old(files)[filename].appends, info))]
    {
      if filename !in locks {
        return FileDoesNotExist;
      }
      var meta := if filename in files then files[filename] else NO_FILE;
      for i := 0 to |meta.appends|
        invariant forall j :: 0 <= j < i ==> meta.appends[j].appendId != info.appendId
      {
        if meta.appends[i].appendId == info.appendId {
          assert files[filename].(appends := meta.appends) == meta;
          return Done;
        }
      }
      var appends := InsertAppend(meta.appends, info);
      files := files[filename := meta.(appends := appends)];
      return Done;
    }

    method DeleteFile(filename: string) returns (deleted: bool)
      requires Valid()
      modifies this
      ensures Valid() && files == old(files) - {filename} && (deleted <==> filename in old(files))
    {
      if filename !in files {
        return false;
      }
      files, locks := files - {filename}, locks - {filename};
      return true;
    }
  }

  // ---- What every append list keeps ----

  ghost predicate UniqueIds(xs: seq<AppendInfo>) {
    forall i, j :: 0 <= i < j < |xs| ==> xs[i].appendId != xs[j].appendId
  }

  /** No append of a client comes after a later one of the same client. */
  ghost predicate ClientOrdered(xs: seq<AppendInfo>) {
    forall i, j :: 0 <= i < j < |xs| ==> !Precedes(xs[j], xs[i])
  }

  /** The new append goes in somewhere and nothing else moves. */
  lemma {:induction false} InsertionPoint(xs: seq<AppendInfo>, a: AppendInfo) returns (i: nat)
    ensures i <= |xs| && Inserted(xs, a) == xs[..i] + [a] + xs[i..]
    ensures forall j :: 0 <= j < i ==> !Precedes(a, xs[j])
    ensures i < |xs| ==> Precedes(a, xs[i])
  {
    i := 0;
    while i < |xs| && !Precedes(a, xs[i])
      invariant i <= |xs| && forall j :: 0 <= j < i ==> !Precedes(a, xs[j])
    {
      i := i + 1;
    }
    InsertedAt(xs, i, a);
  }

  lemma RecordKeepsOrder(xs: seq<AppendInfo>, a: AppendInfo)
    requires UniqueIds(xs) && ClientOrdered(xs)
    ensures UniqueIds(Recorded(xs, a)) && ClientOrdered(Recorded(xs, a)) && Known(Recorded(xs, a), a.appendId)
    ensures exists i :: 0 <= i <= |xs| && (Recorded(xs, a) == xs || Recorded(xs, a) == xs[..i] + [a] + xs[i..])
  {
    if Known(xs, a.appendId) {
      assert xs == xs[..0] + xs[0..];
      assert 0 <= 0 <= |xs|;
    } else {
      var i := InsertionPoint(xs, a);
      var r := Recorded(xs, a);
      assert r == xs[..i] + [a] + xs[i..];
      assert r[i] == a;
      assert forall k :: 0 <= k < |r| && k != i ==> r[k] == xs[if k < i then k else k - 1];
      forall k | i < k < |r|
        ensures !Precedes(r[k], a)
      {
        var b, first := r[k], xs[i];
        if Precedes(b, a) {
          LessTransitive(b.timestamp, a.timestamp, first.timestamp);
          if k - 1 == i {
            LessAsymmetric(b.timestamp, first.timestamp);
          }
        }
      }
    }
  }

  // ---- Replicas converge per client ----

  function Delivered(start: seq<AppendInfo>, arrivals: seq<AppendInfo>): seq<AppendInfo> {
    if arrivals == [] then start
    else Recorded(Delivered(start, arrivals[..|arrivals| - 1]), arrivals[|arrivals| - 1])
  }

  function Contents(xs: seq<AppendInfo>): set<AppendInfo> {
    set a | a in xs
  }

  /** One client's appends, in list order. */
  function Of(xs: seq<AppendInfo>, client: string): seq<AppendInfo> {
    if xs == [] then []
    else (if xs[0].clientId == client then [xs[0]] else []) + Of(xs[1..], client)
  }

  /** IDs name appends, and a client never uses a time stamp twice. */
  ghost predicate Distinguished(s: set<AppendInfo>) {
    forall a, b :: a in s && b in s ==>
      (a.appendId == b.appendId ==> a == b) &&
      (a.clientId == b.clientId && a.timestamp == b.timestamp ==> a == b)
  }

  lemma RecordedContents(xs: seq<AppendInfo>, a: AppendInfo)
    requires Distinguished(Contents(xs) + {a})
    ensures Contents(Recorded(xs, a)) == Contents(xs) + {a}
  {
    if Known(xs, a.appendId) {
      var i :| 0 <= i < |xs| && xs[i].appendId == a.appendId;
      assert xs[i] in Contents(xs) + {a} && a in Contents(xs) + {a};
      assert a in xs;
    } else {
      var i := InsertionPoint(xs, a);
      SpliceContents(xs, i, a);
    }
  }

  lemma SpliceContents(xs: seq<AppendInfo>, i: nat, a: AppendInfo)
    requires i <= |xs|
    ensures Contents(xs[..i] + [a] + xs[i..]) == Contents(xs) + {a}
  {
    assert xs == xs[..i] + xs[i..];
    assert forall x :: x in xs <==> x in xs[..i] || x in xs[i..];
  }

  lemma LastContents(xs: seq<AppendInfo>)
    requires xs != []
    ensures Contents(xs) == Contents(xs[..|xs| - 1]) + {xs[|xs| - 1]}
  {
    SpliceContents(xs[..|xs| - 1], |xs| - 1, xs[|xs| - 1]);
    assert xs == xs[..|xs| - 1][..|xs| - 1] + [xs[|xs| - 1]] + xs[..|xs| - 1][|xs| - 1..];
  }

  lemma {:induction false} DeliveredContents(start: seq<AppendInfo>, arrivals: seq<AppendInfo>)
    requires UniqueIds(start) && ClientOrdered(start) && Distinguished(Contents(start) + Contents(arrivals))
    ensures UniqueIds(Delivered(start, arrivals)) && ClientOrdered(Delivered(start, arrivals))
    ensures Contents(Delivered(start, arrivals)) == Contents(start) + Contents(arrivals)
  {
    if arrivals == [] {
      assert Contents(arrivals) == {};
    } else {
      var init, a := arrivals[..|arrivals| - 1], arrivals[|arrivals| - 1];
      LastContents(arrivals);
      DeliveredContents(start, init);
      var xs := Delivered(start, init);
      assert Contents(xs) + {a} == Contents(start) + Contents(arrivals);
      RecordKeepsOrder(xs, a);
      RecordedContents(xs, a);
    }
  }

  function Stamps(xs: seq<AppendInfo>): seq<string> {
    seq(|xs|, i requires 0 <= i < |xs| => xs[i].timestamp)
  }

  lemma {:induction false} OfContents(xs: seq<AppendInfo>, client: string)
    ensures forall a :: a in Of(xs, client) <==> a in xs && a.clientId == client
  {
    if xs != [] {
      OfContents(xs[1..], client);
    }
  }

  lemma HeadIsEarliest(xs: seq<AppendInfo>, b: AppendInfo)
    requires xs != [] && UniqueIds(xs) && ClientOrdered(xs) && Distinguished(Contents(xs))
    requires b in xs[1..] && b.clientId == xs[0].clientId
    ensures Less(xs[0].timestamp, b.timestamp)
  {
    var j :| 0 < j < |xs| && xs[j] == b;
    assert xs[0] in Contents(xs) && xs[j] in Contents(xs);
    assert !Precedes(xs[j], xs[0]) && xs[0].appendId != xs[j].appendId;
    LessTotal(xs[0].timestamp, xs[j].timestamp);
  }

  lemma {:induction false} OfIsSorted(xs: seq<AppendInfo>, client: string)
    requires UniqueIds(xs) && ClientOrdered(xs) && Distinguished(Contents(xs))
    ensures StrictlySorted(Stamps(Of(xs, client)))
  {
    if xs != [] {
      var rest := Of(xs[1..], client);
      assert Contents(xs[1..]) <= Contents(xs);
      OfIsSorted(xs[1..], client);
      if xs[0].clientId == client {
        OfContents(xs[1..], client);
        forall k | 0 <= k < |rest|
          ensures Less(xs[0].timestamp, Stamps(rest)[k])
        {
          assert rest[k] in rest;
          HeadIsEarliest(xs, rest[k]);
        }
        PrependSorted(xs[0].timestamp, Stamps(rest));
        assert Stamps(Of(xs, client)) == [xs[0].timestamp] + Stamps(rest);
      } else {
        assert Of(xs, client) == rest;
      }
    }
  }

  lemma PrependSorted(t: string, ts: seq<string>)
    requires StrictlySorted(ts) && forall k :: 0 <= k < |ts| ==> Less(t, ts[k])
    ensures StrictlySorted([t] + ts)
  {
  }

  lemma StampsInclude(xs: seq<AppendInfo>, ys: seq<AppendInfo>)
    requires forall a :: a in xs ==> a in ys
    ensures Elements(Stamps(xs)) <= Elements(Stamps(ys))
  {
    forall t | t in Stamps(xs)
      ensures t in Stamps(ys)
    {
      var i :| 0 <= i < |Stamps(xs)| && Stamps(xs)[i] == t;
      assert xs[i] in ys;
      var j :| 0 <= j < |ys| && ys[j] == xs[i];
      assert Stamps(ys)[j] == t;
    }
  }

  /** Two replicas that hold the same appends list each client's in the same order. */
  lemma SameContentsSameOrder(xs: seq<AppendInfo>, ys: seq<AppendInfo>, client: string)
    requires UniqueIds(xs) && ClientOrdered(xs) && UniqueIds(ys) && ClientOrdered(ys)
    requires Contents(xs) == Contents(ys) && Distinguished(Contents(xs))
    ensures Of(xs, client) == Of(ys, client)
  {
    var p, q := Of(xs, client), Of(ys, client);
    OfIsSorted(xs, client);
    OfIsSorted(ys, client);
    OfContents(xs, client);
    OfContents(ys, client);
    forall a ensures a in p <==> a in q {
      assert a in Contents(xs) <==> a in Contents(ys);
    }
    StampsInclude(p, q);
    StampsInclude(q, p);
    SortedUnique(Stamps(p), Stamps(q));
    assert |p| == |q|;
    forall i | 0 <= i < |p|
      ensures p[i] == q[i]
    {
      assert Stamps(p)[i] == Stamps(q)[i];
      assert p[i] in p && q[i] in q;
      assert p[i] in Contents(xs) && q[i] in Contents(xs);
    }
  }

  /** Whatever order the appends arrive in and however often, replicas that end up with the same
      set agree on every client's subsequence. */
  lemma ReplicasConverge(
    a: seq<AppendInfo>, b: seq<AppendInfo>, xs: seq<AppendInfo>, ys: seq<AppendInfo>, client: string)
    requires UniqueIds(a) && ClientOrdered(a) && UniqueIds(b) && ClientOrdered(b)
    requires Contents(a) + Contents(xs) == Contents(b) + Contents(ys)
    requires Distinguished(Contents(a) + Contents(xs))
    ensures Of(Delivered(a, xs), client) == Of(Delivered(b, ys), client)
  {
    DeliveredContents(a, xs);
    DeliveredContents(b, ys);
    SameContentsSameOrder(Delivered(a, xs), Delivered(b, ys), client);
  }

  lemma DeliveredTwo(x: AppendInfo, y: AppendInfo)
    requires x.clientId != y.clientId && x.appendId != y.appendId
    ensures Delivered([], [x, y]) == [x, y]
  {
    var none: seq<AppendInfo> := [];
    assert !Known(none, x.appendId) && Recorded(none, x) == [x];
    assert [x][..0] == none && Delivered([], [x]) == [x];
    assert [x, y][..1] == [x];
    InsertedAt([x], 1, y);
    assert Recorded([x], y) == [x, y];
  }

  /** The whole lists need not agree: appends of two clients stay in arrival order. */
  lemma ClientsMayInterleaveDifferently(x: AppendInfo, y: AppendInfo)
    requires x.clientId != y.clientId && x.appendId != y.appendId
    ensures Delivered([], [x, y]) == [x, y] && Delivered([], [y, x]) == [y, x]
  {
    DeliveredTwo(x, y);
    DeliveredTwo(y, x);
  }

  // ---- Time stamps are decimal strings ----

  lemma {:induction false} LessOnLastDigit(a: string, x: char, b: string, y: char)
    requires |a| == |b|
    ensures Less(a + [x], b + [y]) <==> Less(a, b) || (a == b && x < y)
  {
    if a != "" {
      LessOnLastDigit(a[1..], x, b[1..], y);
      assert (a + [x])[1..] == a[1..] + [x] && (b + [y])[1..] == b[1..] + [y];
      assert a == [a[0]] + a[1..] && b == [b[0]] + b[1..];
    }
  }

  lemma DigitOrder(i: nat, j: nat)
    requires i < 10 && j < 10
    ensures DIGITS[i] < DIGITS[j] <==> i < j
  {
  }

  /** String order is time order while the number of digits stays the same ... */
  lemma OneDigitOrder(m: nat, n: nat)
    requires m < 10 && n < 10
    ensures Less(Dec(m), Dec(n)) <==> m < n
  {
    DigitOrder(m, n);
    assert Dec(m) == [DIGITS[m]] && Dec(n) == [DIGITS[n]];
  }

  lemma {:induction false} StringOrderIsTimeOrder(m: nat, n: nat)
    requires |Dec(m)| == |Dec(n)|
    ensures Less(Dec(m), Dec(n)) <==> m < n
  {
    if m >= 10 {
      DigitOrder(m % 10, n % 10);
      StringOrderIsTimeOrder(m / 10, n / 10);
      LessOnLastDigit(Dec(m / 10), DIGITS[m % 10], Dec(n / 10), DIGITS[n % 10]);
      if Dec(m / 10) == Dec(n / 10) {
        DecInjective(m / 10, n / 10);
      }
    } else {
      OneDigitOrder(m, n);
    }
  }

  /** m with d zeros written after it. */
  function Padded(m: nat, d: nat): nat {
    if d == 0 then m else 10 * Padded(m, d - 1)
  }

  lemma {:induction false} LessThanLonger(a: string, b: string, y: char)
    requires |a| <= |b|
    ensures Less(a, b + [y]) <==> Less(a, b) || a == b
  {
    if a != "" {
      LessThanLonger(a[1..], b[1..], y);
      assert (b + [y])[1..] == b[1..] + [y];
      assert a == [a[0]] + a[1..] && b == [b[0]] + b[1..];
    }
  }

  lemma {:induction false} LaterIsNoShorter(m: nat, n: nat)
    requires m <= n
    ensures |Dec(m)| <= |Dec(n)|
  {
    if m >= 10 {
      LaterIsNoShorter(m / 10, n / 10);
    }
  }

  lemma OneDigitLonger(m: nat, n: nat)
    requires n >= 10 && |Dec(m)| == |Dec(n / 10)|
    ensures Less(Dec(m), Dec(n)) <==> m <= n / 10
  {
    LessThanLonger(Dec(m), Dec(n / 10), DIGITS[n % 10]);
    StringOrderIsTimeOrder(m, n / 10);
    if Dec(m) == Dec(n / 10) {
      DecInjective(m, n / 10);
    }
  }

  lemma {:induction false} LongerNumeral(m: nat, n: nat)
    requires |Dec(m)| < |Dec(n)|
    ensures Less(Dec(m), Dec(n)) <==> Padded(m, |Dec(n)| - |Dec(m)|) <= n
  {
    var d := |Dec(n)| - |Dec(m)|;
    if d == 1 {
      OneDigitLonger(m, n);
      assert Padded(m, d) == 10 * Padded(m, 0);
    } else {
      LessThanLonger(Dec(m), Dec(n / 10), DIGITS[n % 10]);
      LongerNumeral(m, n / 10);
      PaddedOnce(m, d, n);
    }
  }

  lemma PaddedOnce(m: nat, d: nat, n: nat)
    requires d > 0
    ensures Padded(m, d) <= n <==> Padded(m, d - 1) <= n / 10
  {
  }

  /** ... and across a power of ten it holds exactly when the earlier time, padded with zeros to
      the later one's length, is still no greater: 9 sorts after 10. */
  lemma StringOrderAgreesIff(m: nat, n: nat)
    requires m < n
    ensures |Dec(m)| <= |Dec(n)|
    ensures Less(Dec(m), Dec(n)) <==> Padded(m, |Dec(n)| - |Dec(m)|) <= n
    ensures !Less(Dec(9), Dec(10))
  {
    LaterIsNoShorter(m, n);
    if |Dec(m)| == |Dec(n)| {
      StringOrderIsTimeOrder(m, n);
    } else {
      LongerNumeral(m, n);
    }
    LongerNumeral(9, 10);
    assert |Dec(10)| == |Dec(1)| + 1;
    assert Padded(9, 1) == 10 * Padded(9, 0);
  }
}
