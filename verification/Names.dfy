/** Task IDs and addresses as fmt.Sprintf builds them (leader.go, resource_manager.go). */
module Names {

  const DIGITS := "0123456789"

  function Dec(n: nat): (s: string)
    ensures |s| >= 1 && (n < 10 <==> |s| == 1)
  {
    if n < 10 then [DIGITS[n]] else Dec(n / 10) + [DIGITS[n % 10]]
  }

  lemma DigitsDiffer(i: nat, j: nat)
    requires i < 10 && j < 10 && DIGITS[i] == DIGITS[j]
    ensures i == j
  {
  }

  lemma {:induction false} DecInjective(a: nat, b: nat)
    requires Dec(a) == Dec(b)
    ensures a == b
  {
    if a < 10 {
      DigitsDiffer(a, b);
    } else {
      assert Dec(a)[|Dec(a)| - 1] == DIGITS[a % 10] && Dec(b)[|Dec(b)| - 1] == DIGITS[b % 10];
      assert Dec(a)[..|Dec(a)| - 1] == Dec(a / 10) && Dec(b)[..|Dec(b)| - 1] == Dec(b / 10);
      DigitsDiffer(a % 10, b % 10);
      DecInjective(a / 10, b / 10);
    }
  }

  lemma {:induction false} DecHasNoDash(n: nat)
    ensures '-' !in Dec(n)
  {
    assert forall i :: 0 <= i < 10 ==> DIGITS[i] != '-';
    if n >= 10 {
      DecHasNoDash(n / 10);
    }
  }

  lemma SplitAtDash(a: string, b: string, c: string, d: string)
    requires '-' !in a && '-' !in c && a + "-" + b == c + "-" + d
    ensures a == c && b == d
  {
    var l, r := a + "-" + b, c + "-" + d;
    assert l[|a|] == '-' && r[|c|] == '-';
    assert forall i :: 0 <= i < |a| ==> l[i] == a[i];
    assert forall i :: 0 <= i < |c| ==> r[i] == c[i];
    assert l[..|a|] == a && r[..|c|] == c;
    assert l[|a| + 1..] == b && r[|c| + 1..] == d;
  }

  function TaskId(stage: nat, index: nat, timestamp: nat): string {
    "task-" + (Dec(stage) + "-" + (Dec(index) + "-" + Dec(timestamp)))
  }

  /** Different stages or indexes never share a task ID, and no task is called "leader". */
  lemma TaskIdInjective(s: nat, i: nat, t: nat, s': nat, i': nat, t': nat)
    requires TaskId(s, i, t) == TaskId(s', i', t')
    ensures s == s' && i == i' && t == t'
  {
    var l, r := Dec(i) + "-" + Dec(t), Dec(i') + "-" + Dec(t');
    assert TaskId(s, i, t)[5..] == Dec(s) + "-" + l;
    assert TaskId(s', i', t')[5..] == Dec(s') + "-" + r;
    DecHasNoDash(s);
    DecHasNoDash(s');
    SplitAtDash(Dec(s), l, Dec(s'), r);
    DecHasNoDash(i);
    DecHasNoDash(i');
    SplitAtDash(Dec(i), Dec(t), Dec(i'), Dec(t'));
    DecInjective(s, s');
    DecInjective(i, i');
    DecInjective(t, t');
  }

  lemma TaskIdIsNotLeader(s: nat, i: nat, t: nat)
    ensures TaskId(s, i, t) != "leader"
  {
    assert TaskId(s, i, t)[0] == 't';
  }

  datatype Node = Node(host: string, port: nat)

  /** Tasks listen 2000 ports above their node. */
  function TaskAddress(n: Node): (a: string)
    ensures a != ""
  {
    n.host + ":" + Dec(n.port + 2000)
  }

  // ---- Reading numbers and addresses back ----

  function Digit(c: char): nat {
    if '0' <= c <= '9' then c as int - '0' as int else 0
  }

  /** The number a string of digits stands for. */
  function Value(s: string): nat {
    if s == "" then 0 else 10 * Value(s[..|s| - 1]) + Digit(s[|s| - 1])
  }

  lemma {:induction false} DecReadsBack(n: nat)
    ensures Value(Dec(n)) == n
  {
    assert forall i :: 0 <= i < 10 ==> Digit(DIGITS[i]) == i;
    if n < 10 {
      assert Dec(n)[..0] == "";
    } else {
      DecReadsBack(n / 10);
      assert Dec(n)[..|Dec(n)| - 1] == Dec(n / 10);
    }
  }

  lemma {:induction false} DecHasNoColon(n: nat)
    ensures ':' !in Dec(n)
  {
    assert forall i :: 0 <= i < 10 ==> DIGITS[i] != ':';
    if n >= 10 {
      DecHasNoColon(n / 10);
    }
  }

  /** Where the port begins: after the last colon. */
  function LastColon(a: string): (i: nat)
    requires ':' in a
    ensures i < |a| && a[i] == ':' && ':' !in a[i + 1..]
  {
    if a[|a| - 1] == ':' then |a| - 1
    else
      var i := LastColon(a[..|a| - 1]);
      assert a[i + 1..] == a[..|a| - 1][i + 1..] + [a[|a| - 1]];
      i
  }

  function HostOf(a: string): string
    requires ':' in a
  {
    a[..LastColon(a)]
  }

  function PortOf(a: string): nat
    requires ':' in a
  {
    Value(a[LastColon(a) + 1..])
  }

  lemma {:induction false} LastColonAt(host: string, port: string)
    requires ':' !in port
    ensures LastColon(host + ":" + port) == |host|
  {
    if port != "" {
      LastColonAt(host, port[..|port| - 1]);
      assert (host + ":" + port)[..|host| + |port|] == host + ":" + port[..|port| - 1];
      assert port[|port| - 1] != ':';
    }
  }

  lemma HostAndPort(host: string, port: string, a: string)
    requires ':' !in port && a == host + ":" + port
    ensures ':' in a && HostOf(a) == host && PortOf(a) == Value(port)
  {
    LastColonAt(host, port);
    assert a[|host|] == ':';
    assert a[..|host|] == host;
    assert a[|host| + 1..] == port;
  }

  lemma AddressReadsBack(host: string, port: nat, digits: string, a: string)
    requires digits == Dec(port) && a == host + ":" + digits
    ensures ':' in a && HostOf(a) == host && PortOf(a) == port
  {
    DecHasNoColon(port);
    DecReadsBack(port);
    HostAndPort(host, digits, a);
  }

  /** A task listens on its node's host, 2000 ports above the node's. */
  lemma TaskAddressReadsBack(n: Node)
    ensures ':' in TaskAddress(n) && HostOf(TaskAddress(n)) == n.host && PortOf(TaskAddress(n)) == n.port + 2000
  {
    AddressReadsBack(n.host, n.port + 2000, Dec(n.port + 2000), TaskAddress(n));
  }

  /** Tasks on different nodes never share an address. */
  lemma TaskAddressInjective(m: Node, n: Node)
    requires TaskAddress(m) == TaskAddress(n)
    ensures m == n
  {
    TaskAddressReadsBack(m);
    TaskAddressReadsBack(n);
  }
}
