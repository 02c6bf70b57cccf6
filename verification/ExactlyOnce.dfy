/** The exactly-once manager of one task (exactly_once.go). `Manager` is the state
    guarded by the manager's mutex, with one function per critical section;
    `ExactlyOnceManager` is the object whose methods update it in place. */
module ExactlyOnce {
  import opened Wal

  datatype Manager = Manager(
    isSource: bool,
    isFinalStage: bool,
    received: map<string, ReceivedTuple>,
    sent: map<string, SentTuple>,
    writeBuffer: seq<Record>,
    pendingAcks: seq<string>)
  {
    function Log(r: Record): Manager {
      this.(writeBuffer := writeBuffer + [r])
    }

    /** False exactly for a duplicate; source tasks track nothing. */
    function AddReceived(t: Tuple): (Manager, bool) {
      if isSource then (this, true)
      else if t.id in received then (this, false)
      else (this.(received := received[t.id := ReceivedTuple(t.id, t.senderId, false, 0, 0)]), true)
    }

    /** Marks a tuple processed, logs its REC and queues its ACK. */
    function Complete(id: string, rt: ReceivedTuple): Manager {
      var done := rt.(processed := true);
      this.(received := received[id := done], pendingAcks := pendingAcks + [id]).Log(REC(id, done))
    }

    function SetExpected(id: string, count: int): (Manager, bool) {
      if isSource || id !in received then (this, false)
      else
        var rt := received[id].(expectedOutputs := count);
        if count > 0 && rt.outputCount >= count then
          (this.(received := received[id := rt.(processed := true)]), true)
        else if count == 0 then
          (Complete(id, rt), true)
        else
          (this.(received := received[id := rt]), false)
    }

    function Increment(id: string): (Manager, bool) {
      if isSource || id !in received then (this, false)
      else
        var rt := received[id].(outputCount := received[id].outputCount + 1);
        if rt.expectedOutputs > 0 && rt.outputCount >= rt.expectedOutputs then
          (Complete(id, rt), true)
        else
          (this.(received := received[id := rt]), false)
    }

    function AddSent(t: Tuple, originalId: string, destination: string, now: int): Manager {
      if isFinalStage then this
      else
        var st := SentTuple(t, now, originalId, destination);
        this.(sent := sent[t.id := st]).Log(SENT(t.id, st))
    }

    function RemoveSent(id: string): Manager {
      if isFinalStage || id !in sent then this
      else this.(sent := sent - {id}).Log(ACK(id))
    }

    /** The flush loop takes the buffer and the ACK list and leaves both empty. */
    function Drained(): Manager {
      this.(writeBuffer := [], pendingAcks := [])
    }

    /** The entries a retry scan selects, stamped with the current time. */
    function DueSends(now: int, interval: int): map<string, SentTuple> {
      if isFinalStage then map[]
      else map id | id in sent && now - sent[id].sentAt >= interval :: sent[id].(sentAt := now)
    }

    /** The scan stamps the same entries in place. */
    function Stamped(now: int, interval: int): Manager {
      this.(sent := sent + DueSends(now, interval))
    }

    /** The retry callback rewrites routing fields through a pointer the sent map shares. */
    function Redirected(id: string, senderId: string, taskId: string): Manager {
      if id !in sent then this
      else this.(sent := sent[id := Redirect(sent[id], senderId, taskId)])
    }

    function Merged(log: seq<Record>): Manager {
      var m := Replay(Maps(received, sent), log);
      this.(received := m.received, sent := m.sent)
    }

    function Restored(log: seq<Record>): Manager {
      if isSource then this else Merged(log)
    }
  }

  function Redirect(st: SentTuple, senderId: string, taskId: string): SentTuple {
    st.(tuple := st.tuple.(senderId := senderId, taskId := taskId))
  }

  function Fresh(isSource: bool, isFinalStage: bool): Manager {
    Manager(isSource, isFinalStage, map[], map[], [], [])
  }

  lemma StampOne(before: map<string, SentTuple>, due: map<string, SentTuple>, todo: set<string>, id: string)
    requires id in todo
    ensures before + (due - (todo - {id})) ==
            if id in due then (before + (due - todo))[id := due[id]] else before + (due - todo)
  {
  }

  /** The retry scan so far: the due entries outside todo, each once. */
  ghost predicate Scanned(due: map<string, SentTuple>, todo: set<string>, toRetry: seq<SentTuple>, ids: seq<string>) {
    && (forall i, j :: 0 <= i < j < |ids| ==> ids[i] != ids[j])
    && (forall id :: id in ids <==> id in due && id !in todo)
    && |toRetry| == |ids| && forall i :: 0 <= i < |ids| ==> toRetry[i] == due[ids[i]]
  }

  lemma ScanOne(due: map<string, SentTuple>, todo: set<string>, toRetry: seq<SentTuple>, ids: seq<string>, id: string)
    requires Scanned(due, todo, toRetry, ids) && id in todo
    ensures if id in due then Scanned(due, todo - {id}, toRetry + [due[id]], ids + [id])
            else Scanned(due, todo - {id}, toRetry, ids)
  {
  }

  lemma ScanOneMore(start: Maps, lines: seq<Line>, i: nat)
    requires i < |lines|
    ensures var before := Replay(start, Records(lines[..i]));
            Replay(start, Records(lines[..i + 1])) ==
            if lines[i].Entry? then Apply(before, lines[i].record) else before
  {
    assert lines[..i + 1][..i] == lines[..i];
    if lines[i].Entry? {
      var records := Records(lines[..i]);
      assert (records + [lines[i].record])[..|records|] == records;
    }
  }

  class ExactlyOnceManager {
    const isSource: bool
    const isFinalStage: bool
    var receivedTuples: map<string, ReceivedTuple>
    var sentTuples: map<string, SentTuple>
    var writeBuffer: seq<Record>
    var pendingAcks: seq<string>

    ghost function View(): Manager
      reads this
    {
      Manager(isSource, isFinalStage, receivedTuples, sentTuples, writeBuffer, pendingAcks)
    }

    constructor (isSource: bool, isFinalStage: bool, walLines: seq<Line>)
      ensures View() == Fresh(isSource, isFinalStage).Restored(Records(walLines))
    {
      this.isSource, this.isFinalStage := isSource, isFinalStage;
      receivedTuples, sentTuples, writeBuffer, pendingAcks := map[], map[], [], [];
      new;
      RestoreFromLogs(walLines);
    }

    method AddReceivedTuple(t: Tuple) returns (added: bool)
      modifies this
      ensures (View(), added) == old(View()).AddReceived(t)
    {
      if isSource {
        return true;
      }
      if t.id in receivedTuples {
        return false;
      }
      receivedTuples := receivedTuples[t.id := ReceivedTuple(t.id, t.senderId, false, 0, 0)];
      return true;
    }

    method SetExpectedOutputCount(tupleId: string, count: int) returns (done: bool)
      modifies this
      ensures (View(), done) == old(View()).SetExpected(tupleId, count)
    {
      if isSource {
        return false;
      }
      if tupleId in receivedTuples {
        var rt := receivedTuples[tupleId];
        rt := rt.(expectedOutputs := count);
        receivedTuples := receivedTuples[tupleId := rt];
        if count > 0 && rt.outputCount >= count {
          receivedTuples := receivedTuples[tupleId := rt.(processed := true)];
          assert receivedTuples == old(receivedTuples)[tupleId := rt.(processed := true)];
          return true;
        } else if count == 0 {
          rt := rt.(processed := true);
          receivedTuples := receivedTuples[tupleId := rt];
          assert receivedTuples == old(receivedTuples)[tupleId := rt];
          LogRecord(REC(tupleId, rt));
          pendingAcks := pendingAcks + [tupleId];
          return true;
        }
      }
      return false;
    }

    method IncrementOutputCount(tupleId: string) returns (done: bool)
      modifies this
      ensures (View(), done) == old(View()).Increment(tupleId)
    {
      if isSource {
        return false;
      }
      if tupleId in receivedTuples {
        var rt := receivedTuples[tupleId];
        rt := rt.(outputCount := rt.outputCount + 1);
        receivedTuples := receivedTuples[tupleId := rt];
        if rt.expectedOutputs > 0 && rt.outputCount >= rt.expectedOutputs {
          rt := rt.(processed := true);
          receivedTuples := receivedTuples[tupleId := rt];
          assert receivedTuples == old(receivedTuples)[tupleId := rt];
          LogRecord(REC(tupleId, rt));
          pendingAcks := pendingAcks + [tupleId];
          return true;
        }
      }
      return false;
    }

    method AddSentTuple(t: Tuple, originalId: string, destination: string, now: int)
      modifies this
      ensures View() == old(View()).AddSent(t, originalId, destination, now)
    {
      if isFinalStage {
        return;
      }
      var st := SentTuple(t, now, originalId, destination);
      sentTuples := sentTuples[t.id := st];
      LogRecord(SENT(t.id, st));
    }

    method RemoveSentTuple(tupleId: string)
      modifies this
      ensures View() == old(View()).RemoveSent(tupleId)
    {
      if isFinalStage {
        return;
      }
      if tupleId in sentTuples {
        sentTuples := sentTuples - {tupleId};
        LogRecord(ACK(tupleId));
      }
    }

    method LogRecord(r: Record)
      modifies `writeBuffer
      ensures writeBuffer == old(writeBuffer) + [r]
    {
      writeBuffer := writeBuffer + [r];
    }

    /** The critical section at the head of one flush round. */
    method SnapshotForFlush() returns (buffer: seq<Record>, ids: seq<string>)
      modifies this
      ensures buffer == old(writeBuffer) && ids == old(pendingAcks)
      ensures View() == old(View()).Drained()
    {
      buffer, ids := writeBuffer, pendingAcks;
      writeBuffer, pendingAcks := [], [];
    }

    /** The scan of one retry round: every due entry exactly once, stamped in place. */
    method RetryPendingSends(now: int, interval: int) returns (toRetry: seq<SentTuple>, ghost ids: seq<string>)
      modifies `sentTuples
      ensures View() == old(View()).Stamped(now, interval)
      ensures |toRetry| == |ids| && forall i, j :: 0 <= i < j < |ids| ==> ids[i] != ids[j]
      ensures var due := old(View()).DueSends(now, interval);
              && (set i | i in ids) == due.Keys
              && forall i :: 0 <= i < |ids| ==> toRetry[i] == due[ids[i]]
      ensures forall id :: id in ids <==>
        !isFinalStage && id in old(sentTuples) && now - old(sentTuples)[id].sentAt >= interval
    {
      ghost var before := sentTuples;
      ghost var due := View().DueSends(now, interval);
      toRetry, ids := [], [];
      if isFinalStage {
        assert sentTuples == View().Stamped(now, interval).sent;
        return;
      }
      var todo := sentTuples.Keys;
      while todo != {}
        invariant todo <= before.Keys
        invariant sentTuples == before + (due - todo)
        invariant Scanned(due, todo, toRetry, ids)
      {
        var id :| id in todo;
        var st := sentTuples[id];
        StampOne(before, due, todo, id);
        ScanOne(due, todo, toRetry, ids, id);
        if now - st.sentAt >= interval {
          st := st.(sentAt := now);
          sentTuples := sentTuples[id := st];
          toRetry, ids := toRetry + [st], ids + [id];
        }
        todo := todo - {id};
      }
      assert sentTuples == old(View()).Stamped(now, interval).sent;
    }

    method RestoreFromLogs(lines: seq<Line>)
      modifies `receivedTuples, `sentTuples
      ensures View() == old(View()).Restored(Records(lines))
    {
      if isSource {
        return;
      }
      ScanLog(lines);
    }

    method MergeStateFromLocalWal(lines: seq<Line>)
      modifies `receivedTuples, `sentTuples
      ensures View() == old(View()).Merged(Records(lines))
    {
      ScanLog(lines);
    }

    method ScanLog(lines: seq<Line>)
      modifies `receivedTuples, `sentTuples
      ensures View() == old(View()).Merged(Records(lines))
    {
      ghost var start := Maps(receivedTuples, sentTuples);
      var i := 0;
      while i < |lines|
        invariant 0 <= i <= |lines|
        invariant Maps(receivedTuples, sentTuples) == Replay(start, Records(lines[..i]))
      {
        ScanOneMore(start, lines, i);
        if lines[i].Entry? {
          match lines[i].record {
            case REC(id, rt) => receivedTuples := receivedTuples[id := rt];
            case SENT(id, st) => sentTuples := sentTuples[id := st];
            case ACK(id) => sentTuples := sentTuples - {id};
          }
        }
        i := i + 1;
      }
      assert lines[..i] == lines;
    }
  }
}
