/** The write-ahead log of one task: its records, and what replaying them does to
    the received and sent maps (exactly_once.go). */
module Wal {

  datatype Tuple = Tuple(id: string, key: string, value: string, senderId: string, taskId: string)

  datatype ReceivedTuple = ReceivedTuple(
    tupleId: string, senderId: string, processed: bool, expectedOutputs: int, outputCount: int)

  datatype SentTuple = SentTuple(tuple: Tuple, sentAt: int, originalId: string, destination: string)

  datatype Record = REC(id: string, received: ReceivedTuple) | SENT(id: string, sent: SentTuple) | ACK(id: string)

  /** A scanned line: separators and lines that do not decode are skipped. */
  datatype Line = Blank | Malformed | Entry(record: Record)

  datatype Maps = Maps(received: map<string, ReceivedTuple>, sent: map<string, SentTuple>)

  const EMPTY := Maps(map[], map[])

  function Apply(m: Maps, r: Record): Maps {
    match r
    case REC(id, rt) => m.(received := m.received[id := rt])
    case SENT(id, st) => m.(sent := m.sent[id := st])
    case ACK(id) => m.(sent := m.sent - {id})
  }

  /** What scanning the log does to the maps, oldest record first. */
  function Replay(m: Maps, log: seq<Record>): Maps {
    if log == [] then m else Apply(Replay(m, log[..|log| - 1]), log[|log| - 1])
  }

  function Records(lines: seq<Line>): seq<Record> {
    if lines == [] then []
    else
      var before := Records(lines[..|lines| - 1]);
      var last := lines[|lines| - 1];
      if last.Entry? then before + [last.record] else before
  }

  function RecIds(log: seq<Record>): set<string> {
    set r | r in log && r.REC? :: r.id
  }

  function SentIds(log: seq<Record>): set<string> {
    set r | r in log && r.SENT? :: r.id
  }

  function AckIds(log: seq<Record>): set<string> {
    set r | r in log && r.ACK? :: r.id
  }

  // ---- An independent account of replay: the latest record about an ID decides ----

  datatype Fate = Untouched | Pending(sent: SentTuple) | Acked

  function SendFate(log: seq<Record>, id: string): Fate {
    if log == [] then Untouched
    else
      match log[|log| - 1]
      case SENT(i, st) => if i == id then Pending(st) else SendFate(log[..|log| - 1], id)
      case ACK(i) => if i == id then Acked else SendFate(log[..|log| - 1], id)
      case REC(_, _) => SendFate(log[..|log| - 1], id)
  }

  datatype Receipt = Unseen | Seen(received: ReceivedTuple)

  function LastReceipt(log: seq<Record>, id: string): Receipt {
    if log == [] then Unseen
    else
      var r := log[|log| - 1];
      if r.REC? && r.id == id then Seen(r.received) else LastReceipt(log[..|log| - 1], id)
  }

  function SentAfter(m: Maps, fate: Fate, id: string): Fate {
    match fate
    case Untouched => if id in m.sent then Pending(m.sent[id]) else Acked
    case _ => fate
  }

  function ReceivedAfter(m: Maps, receipt: Receipt, id: string): Receipt {
    match receipt
    case Unseen => if id in m.received then Seen(m.received[id]) else Unseen
    case _ => receipt
  }

  /** Replay keeps, for every ID, the effect of the last record about it and nothing else. */
  lemma {:induction false} ReplayLatestWins(m: Maps, log: seq<Record>, id: string)
    ensures var after := Replay(m, log);
            && (id in after.sent <==> SentAfter(m, SendFate(log, id), id).Pending?)
            && (id in after.sent ==> after.sent[id] == SentAfter(m, SendFate(log, id), id).sent)
            && (id in after.received <==> ReceivedAfter(m, LastReceipt(log, id), id).Seen?)
            && (id in after.received ==> after.received[id] == ReceivedAfter(m, LastReceipt(log, id), id).received)
  {
    if log != [] {
      ReplayLatestWins(m, log[..|log| - 1], id);
    }
  }

  lemma {:induction false} FatesTouchTheirIds(log: seq<Record>, id: string)
    ensures SendFate(log, id).Untouched? <==> id !in SentIds(log) + AckIds(log)
    ensures LastReceipt(log, id).Seen? <==> id in RecIds(log)
    ensures LastReceipt(log, id).Seen? ==> REC(id, LastReceipt(log, id).received) in log
    ensures SendFate(log, id).Pending? ==> SENT(id, SendFate(log, id).sent) in log
    ensures SendFate(log, id).Acked? ==> ACK(id) in log
  {
    if log != [] {
      var init, last := log[..|log| - 1], log[|log| - 1];
      assert log == init + [last];
      FatesTouchTheirIds(init, id);
    }
  }

  lemma {:induction false} ReplayAppend(m: Maps, a: seq<Record>, b: seq<Record>)
    ensures Replay(m, a + b) == Replay(Replay(m, a), b)
  {
    if b == [] {
      assert a + b == a;
    } else {
      assert (a + b)[..|a + b| - 1] == a + b[..|b| - 1];
      ReplayAppend(m, a, b[..|b| - 1]);
    }
  }

  lemma {:induction false} RecordsAppend(a: seq<Line>, b: seq<Line>)
    ensures Records(a + b) == Records(a) + Records(b)
  {
    if b == [] {
      assert a + b == a;
    } else {
      assert (a + b)[..|a + b| - 1] == a + b[..|b| - 1];
      RecordsAppend(a, b[..|b| - 1]);
    }
  }

  /** Logs about different IDs can be replayed in either order. */
  lemma ReplayCommutes(m: Maps, a: seq<Record>, b: seq<Record>)
    requires RecIds(a) !! RecIds(b)
    requires SentIds(a) + AckIds(a) !! SentIds(b) + AckIds(b)
    ensures Replay(m, a + b) == Replay(m, b + a)
  {
    var ab, ba := Replay(Replay(m, a), b), Replay(Replay(m, b), a);
    ReplayAppend(m, a, b);
    ReplayAppend(m, b, a);
    forall id
      ensures (id in ab.sent <==> id in ba.sent) && (id in ab.sent ==> ab.sent[id] == ba.sent[id])
      ensures (id in ab.received <==> id in ba.received) && (id in ab.received ==> ab.received[id] == ba.received[id])
    {
      FatesTouchTheirIds(a, id);
      FatesTouchTheirIds(b, id);
      ReplayLatestWins(m, a, id);
      ReplayLatestWins(m, b, id);
      ReplayLatestWins(Replay(m, a), b, id);
      ReplayLatestWins(Replay(m, b), a, id);
    }
    assert ab.sent == ba.sent && ab.received == ba.received;
  }

  /** Replaying the same log a second time changes nothing. */
  lemma ReplayIdempotent(m: Maps, log: seq<Record>)
    ensures Replay(Replay(m, log), log) == Replay(m, log)
  {
    var once := Replay(m, log);
    var twice := Replay(once, log);
    forall id
      ensures (id in once.sent <==> id in twice.sent) && (id in once.sent ==> once.sent[id] == twice.sent[id])
      ensures (id in once.received <==> id in twice.received)
      ensures id in once.received ==> once.received[id] == twice.received[id]
    {
      ReplayLatestWins(m, log, id);
      ReplayLatestWins(once, log, id);
    }
    assert once.sent == twice.sent && once.received == twice.received;
  }

  /** Replaying a log about fresh IDs adds exactly what that log alone would restore. */
  lemma ReplayDisjointIsUnion(m: Maps, log: seq<Record>)
    requires RecIds(log) !! m.received.Keys
    requires SentIds(log) + AckIds(log) !! m.sent.Keys
    ensures Replay(m, log).sent == m.sent + Replay(EMPTY, log).sent
    ensures Replay(m, log).received == m.received + Replay(EMPTY, log).received
  {
    forall id
      ensures id in Replay(m, log).sent <==> id in m.sent + Replay(EMPTY, log).sent
      ensures id in Replay(m, log).sent ==> Replay(m, log).sent[id] == (m.sent + Replay(EMPTY, log).sent)[id]
      ensures id in Replay(m, log).received <==> id in m.received + Replay(EMPTY, log).received
      ensures id in Replay(m, log).received ==> Replay(m, log).received[id] == (m.received + Replay(EMPTY, log).received)[id]
    {
      FatesTouchTheirIds(log, id);
      ReplayLatestWins(m, log, id);
      ReplayLatestWins(EMPTY, log, id);
    }
  }

  /** A SENT record survives replay unless the same log also acknowledges it. */
  lemma SentSurvivesUnlessAcked(log: seq<Record>, id: string)
    requires id in SentIds(log)
    ensures id in Replay(EMPTY, log).sent || ACK(id) in log
  {
    FatesTouchTheirIds(log, id);
    ReplayLatestWins(EMPTY, log, id);
  }

  /** Replay restores exactly the IDs with a REC record. */
  lemma RestoredIsRecorded(log: seq<Record>)
    ensures Replay(EMPTY, log).received.Keys == RecIds(log)
    ensures forall id :: id in RecIds(log) ==> REC(id, Replay(EMPTY, log).received[id]) in log
  {
    forall id
      ensures id in Replay(EMPTY, log).received <==> id in RecIds(log)
      ensures id in RecIds(log) ==> REC(id, Replay(EMPTY, log).received[id]) in log
    {
      FatesTouchTheirIds(log, id);
      ReplayLatestWins(EMPTY, log, id);
    }
  }

  // ---- Comparing a sent map with a log ----

  /** What an output is: SentAt, destination and routing fields may differ between map and log. */
  datatype Content = Content(id: string, key: string, value: string, originalId: string)

  function ContentOf(st: SentTuple): Content {
    Content(st.tuple.id, st.tuple.key, st.tuple.value, st.originalId)
  }

  ghost predicate SameSends(a: map<string, SentTuple>, b: map<string, SentTuple>) {
    a.Keys == b.Keys && forall id :: id in a ==> ContentOf(a[id]) == ContentOf(b[id])
  }

  lemma {:induction false} ReplayKeepsSameSends(a: Maps, b: Maps, log: seq<Record>)
    requires SameSends(a.sent, b.sent)
    ensures SameSends(Replay(a, log).sent, Replay(b, log).sent)
  {
    if log != [] {
      ReplayKeepsSameSends(a, b, log[..|log| - 1]);
    }
  }
}
