/** One way of writing log records on lines that meets every condition the log's readers rely on:
    escaped fields, each ended by a dash, between a pair of braces. */
module LineCodec {
  import opened Names
  import opened Wal
  import LogFormat

  // ---- Fields ----

  function EscapeChar(c: char): (r: string)
    ensures Plain(r) && r != ""
  {
    if c == '-' then "\\d"
    else if c == '\n' then "\\n"
    else if c == '{' then "\\o"
    else if c == '}' then "\\c"
    else if c == '\\' then "\\\\"
    else [c]
  }

  /** Free of the characters that end fields, lines and records. */
  predicate Plain(s: string) {
    '-' !in s && '\n' !in s && '{' !in s && '}' !in s
  }

  function Escape(s: string): (r: string)
    ensures Plain(r)
  {
    if s == "" then "" else EscapeChar(s[0]) + Escape(s[1..])
  }

  lemma EscapeCharSplits(c: char, a: string, d: char, b: string)
    requires EscapeChar(c) + a == EscapeChar(d) + b
    ensures c == d && a == b
  {
    var l, r := EscapeChar(c) + a, EscapeChar(d) + b;
    assert l[0] == r[0];
    if |EscapeChar(c)| == 2 {
      assert l[1] == r[1];
    }
    assert |EscapeChar(c)| == |EscapeChar(d)|;
    assert l[|EscapeChar(c)|..] == a && r[|EscapeChar(d)|..] == b;
  }

  lemma {:induction false} EscapeInjective(a: string, b: string)
    requires Escape(a) == Escape(b)
    ensures a == b
  {
    if a != "" && b != "" {
      EscapeCharSplits(a[0], Escape(a[1..]), b[0], Escape(b[1..]));
      EscapeInjective(a[1..], b[1..]);
      assert a == [a[0]] + a[1..] && b == [b[0]] + b[1..];
    }
  }

  function Number(n: int): string {
    if n < 0 then "~" + Dec(-n) else Dec(n)
  }

  lemma {:induction false} DecHasNoTilde(n: nat)
    ensures '~' !in Dec(n)
  {
    assert forall i :: 0 <= i < 10 ==> DIGITS[i] != '~';
    if n >= 10 {
      DecHasNoTilde(n / 10);
    }
  }

  lemma NumberInjective(m: int, n: int)
    requires Number(m) == Number(n)
    ensures m == n
  {
    DecHasNoTilde(if m < 0 then -m else m);
    DecHasNoTilde(if n < 0 then -n else n);
    assert m < 0 ==> Number(m)[0] == '~' && Number(m)[1..] == Dec(-m);
    assert n < 0 ==> Number(n)[0] == '~' && Number(n)[1..] == Dec(-n);
    assert m >= 0 ==> Number(m)[0] in Dec(m);
    assert n >= 0 ==> Number(n)[0] in Dec(n);
    DecInjective(if m < 0 then -m else m, if n < 0 then -n else n);
  }

  // ---- Records ----

  function Joined(fields: seq<string>): (r: string)
    ensures '\n' !in r && '{' !in r && '}' !in r
  {
    if fields == [] then "" else Escape(fields[0]) + "-" + Joined(fields[1..])
  }

  lemma {:induction false} JoinedInjective(a: seq<string>, b: seq<string>)
    requires Joined(a) == Joined(b)
    ensures a == b
  {
    if a == [] || b == [] {
      assert a != [] ==> '-' in Joined(a);
      assert b != [] ==> '-' in Joined(b);
    } else {
      SplitAtDash(Escape(a[0]), Joined(a[1..]), Escape(b[0]), Joined(b[1..]));
      EscapeInjective(a[0], b[0]);
      JoinedInjective(a[1..], b[1..]);
      assert a == [a[0]] + a[1..] && b == [b[0]] + b[1..];
    }
  }

  function Fields(r: Record): seq<string> {
    match r
    case REC(id, rt) =>
      ["r", id, rt.tupleId, rt.senderId, if rt.processed then "y" else "n",
       Number(rt.expectedOutputs), Number(rt.outputCount)]
    case SENT(id, st) =>
      ["s", id, st.tuple.id, st.tuple.key, st.tuple.value, st.tuple.senderId, st.tuple.taskId,
       Number(st.sentAt), st.originalId, st.destination]
    case ACK(id) => ["a", id]
  }

  lemma FieldsInjective(a: Record, b: Record)
    requires Fields(a) == Fields(b)
    ensures a == b
  {
    var f, g := Fields(a), Fields(b);
    assert f[0] == g[0];
    match a
    case REC(_, x) =>
      NumberInjective(x.expectedOutputs, b.received.expectedOutputs);
      NumberInjective(x.outputCount, b.received.outputCount);
      assert f[1] == g[1] && f[2] == g[2] && f[3] == g[3] && f[4] == g[4];
    case SENT(_, x) =>
      NumberInjective(x.sentAt, b.sent.sentAt);
      assert f[1] == g[1] && f[2] == g[2] && f[3] == g[3] && f[4] == g[4] && f[5] == g[5];
      assert f[6] == g[6] && f[8] == g[8] && f[9] == g[9];
    case ACK(_) =>
      assert f[1] == g[1];
  }

  function Encode(r: Record): string {
    "{" + Joined(Fields(r)) + "}"
  }

  lemma EncodeInjective(a: Record, b: Record)
    requires Encode(a) == Encode(b)
    ensures a == b
  {
    assert Encode(a)[1..|Encode(a)| - 1] == Joined(Fields(a));
    assert Encode(b)[1..|Encode(b)| - 1] == Joined(Fields(b));
    JoinedInjective(Fields(a), Fields(b));
    FieldsInjective(a, b);
  }

  ghost function Decode(line: string): Line {
    if line == "" then Blank
    else if exists r :: Encode(r) == line then
      var r :| Encode(r) == line;
      Entry(r)
    else Malformed
  }

  lemma DecodeInverts(r: Record)
    ensures Decode(Encode(r)) == Entry(r)
  {
    forall s | Encode(s) == Encode(r) ensures s == r { EncodeInjective(s, r); }
  }

  /** Braces only at the ends: cut short or run together, a line is no longer one. */
  lemma BracesMark(r: Record)
    ensures Encode(r)[0] == '{' && Encode(r)[|Encode(r)| - 1] == '}' && '\n' !in Encode(r)
    ensures forall i :: 0 < i < |Encode(r)| ==> Encode(r)[i] != '{'
    ensures forall i :: 0 <= i < |Encode(r)| - 1 ==> Encode(r)[i] != '}'
  {
    var body, line := Joined(Fields(r)), Encode(r);
    forall i | 0 < i < |line| - 1
      ensures line[i] in body
    {
      assert line[i] == body[i - 1];
    }
  }

  lemma CutIsNoLine(r: Record, k: nat)
    requires k < |Encode(r)|
    ensures !Decode(Encode(r)[..k]).Entry?
  {
    BracesMark(r);
    forall s
      ensures Encode(s) != Encode(r)[..k]
    {
      BracesMark(s);
    }
  }

  lemma JoinIsNoLine(r: Record, s: Record, k: nat)
    requires 0 < k < |Encode(r)|
    ensures !Decode(Encode(r)[..k] + Encode(s)).Entry?
  {
    var join := Encode(r)[..k] + Encode(s);
    BracesMark(s);
    assert join[k] == '{';
    forall t
      ensures Encode(t) != join
    {
      BracesMark(t);
    }
  }

  /** So there is a format with all the properties asked of one. */
  lemma SomeFormatIsSound() returns (f: LogFormat.Format)
    ensures LogFormat.Sound(f) && LogFormat.JoinsUnreadable(f)
  {
    f := LogFormat.Format(Encode, Decode);
    forall r: Record
      ensures '\n' !in f.encode(r) && f.decode(f.encode(r)) == Entry(r)
    {
      BracesMark(r);
      DecodeInverts(r);
    }
    forall r: Record, k: nat | k < |f.encode(r)| ensures !f.decode(f.encode(r)[..k]).Entry? { CutIsNoLine(r, k); }
    forall r: Record, s: Record, k: nat | 0 < k < |f.encode(r)|
      ensures !f.decode(f.encode(r)[..k] + f.encode(s)).Entry?
    {
      JoinIsNoLine(r, s, k);
    }
  }
}
