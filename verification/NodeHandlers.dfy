/** A worker's handling of TUPLE and ACK messages (rainstorm_server.go). */
module NodeHandlers {
  import opened Wal
  import opened ExactlyOnce
  import opened Routing

  datatype Reply = TaskNotFound | NotRunning | DuplicateAcked | StdinUnavailable | Routed

  datatype AckMessage = AckMessage(address: string, tupleId: string, fromTask: string)

  datatype LeaderManager = NoLeader | Leads(mgr: Manager)

  predicate Holds(m: Manager, id: string) {
    !m.isFinalStage && id in m.sent
  }

  function Holders(managers: map<string, Manager>, id: string): set<string> {
    set t | t in managers && Holds(managers[t], id)
  }

  /** What one ACK may do: clear some holder, whichever the map iteration meets first; with no
      holder among the tasks, clear the leader's entry. */
  predicate AckOutcome(before: map<string, Manager>, leader: LeaderManager, id: string,
                       after: map<string, Manager>, leaderAfter: LeaderManager)
  {
    if Holders(before, id) != {} then
      leaderAfter == leader && exists t :: t in Holders(before, id) && after == before[t := before[t].RemoveSent(id)]
    else
      after == before &&
      leaderAfter == if leader.Leads? && Holds(leader.mgr, id) then Leads(leader.mgr.RemoveSent(id)) else leader
  }

  /** An ACK is certain to clear a task's entry exactly when no other task on the node holds that ID. */
  lemma SenderClearedIffSoleHolder(managers: map<string, Manager>, leader: LeaderManager, id: string, sender: string)
    requires sender in Holders(managers, id)
    ensures (forall after: map<string, Manager>, leaderAfter: LeaderManager :: AckOutcome(managers, leader, id, after, leaderAfter) ==>
               sender in after && id !in after[sender].sent)
            <==> Holders(managers, id) == {sender}
  {
    if Holders(managers, id) != {sender} {
      var other :| other in Holders(managers, id) && other != sender;
      var after := managers[other := managers[other].RemoveSent(id)];
      assert AckOutcome(managers, leader, id, after, leader);
      assert id in after[sender].sent;
    }
  }

  class NodeManager {
    var managers: map<string, Manager>
    var statuses: map<string, TaskStatus>
    var inputTasks: map<string, map<string, string>>  // task -> upstream task -> ACK address
    var openStdin: set<string>
    var stdin: map<string, seq<Tuple>>
    var leader: LeaderManager
    var acksSent: seq<AckMessage>

    ghost predicate Valid()
      reads this
    {
      managers.Keys == inputTasks.Keys == stdin.Keys
    }

    constructor (leader: LeaderManager)
      ensures Valid() && managers == map[] && statuses == map[] && openStdin == {} && acksSent == []
      ensures this.leader == leader
    {
      managers, statuses, inputTasks, openStdin, stdin, acksSent := map[], map[], map[], {}, map[], [];
      this.leader := leader;
    }

    /** A tuple reaches stdin exactly when it is new to a running task and the write succeeds; a
        duplicate is ACKed at once, processed or not. */
    method HandleTupleMessage(t: Tuple, writeOk: bool) returns (reply: Reply)
      requires Valid()
      modifies `managers, `stdin, `acksSent
      ensures Valid()
      ensures reply.TaskNotFound? <==> t.taskId !in old(managers)
      ensures reply.NotRunning? <==>
        t.taskId in old(managers) && t.taskId in statuses && statuses[t.taskId] != Running
      ensures reply.TaskNotFound? || reply.NotRunning? ==>
        managers == old(managers) && stdin == old(stdin) && acksSent == old(acksSent)
      ensures !(reply.TaskNotFound? || reply.NotRunning?) ==>
        var (m, added) := old(managers)[t.taskId].AddReceived(t);
        && managers == old(managers)[t.taskId := m]
        && (reply.DuplicateAcked? <==> !added)
        && (reply.Routed? <==> added && t.taskId in openStdin && writeOk)
        && stdin == (if reply.Routed? then old(stdin)[t.taskId := old(stdin)[t.taskId] + [t]] else old(stdin))
        && acksSent == old(acksSent) +
             (if !added && t.senderId in inputTasks[t.taskId]
              then [AckMessage(inputTasks[t.taskId][t.senderId], t.id, t.taskId)] else [])
    {
      if t.taskId !in managers {
        return TaskNotFound;
      }
      if t.taskId in statuses && statuses[t.taskId] != Running {
        return NotRunning;
      }
      var (m, added) := managers[t.taskId].AddReceived(t);
      managers := managers[t.taskId := m];
      if !added {
        SendAckForTuple(t.id, t.senderId, t.taskId);
        return DuplicateAcked;
      }
      if t.taskId !in openStdin || !writeOk {
        return StdinUnavailable;
      }
      stdin := stdin[t.taskId := stdin[t.taskId] + [t]];
      return Routed;
    }

    method SendAckForTuple(tupleId: string, senderId: string, taskId: string)
      requires taskId in inputTasks
      modifies `acksSent
      ensures acksSent == old(acksSent) +
        (if senderId in inputTasks[taskId] then [AckMessage(inputTasks[taskId][senderId], tupleId, taskId)] else [])
    {
      if senderId in inputTasks[taskId] {
        acksSent := acksSent + [AckMessage(inputTasks[taskId][senderId], tupleId, taskId)];
      }
    }

    method HandleAckMessage(tupleId: string) returns (ok: bool)
      modifies `managers, `leader
      ensures AckOutcome(old(managers), old(leader), tupleId, managers, leader)
      ensures ok <==> Holders(old(managers), tupleId) != {} || (old(leader).Leads? && Holds(old(leader).mgr, tupleId))
      ensures managers.Keys == old(managers).Keys
    {
      var todo := managers.Keys;
      while todo != {}
        invariant todo <= managers.Keys && managers == old(managers)
        invariant Holders(managers, tupleId) <= todo
      {
        var t :| t in todo;
        if Holds(managers[t], tupleId) {
          assert t in Holders(managers, tupleId);
          managers := managers[t := managers[t].RemoveSent(tupleId)];
          return true;
        }
        todo := todo - {t};
      }
      if leader.Leads? && Holds(leader.mgr, tupleId) {
        leader := Leads(leader.mgr.RemoveSent(tupleId));
        return true;
      }
      return false;
    }
  }
}
