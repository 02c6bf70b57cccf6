/** A cluster member as a membership list stores it (member.go). */
module Members {

  datatype Status = Alive | Suspect | Dead | VoluntaryLeave

  datatype Member = Member(
    id: string, address: string, status: Status, heartbeat: nat, incarnation: nat, lastUpdated: int, hash: nat)
  {
    predicate IsAlive() {
      status == Alive
    }
  }

  ghost predicate HashSorted(ms: seq<Member>) {
    forall i, j :: 0 <= i < j < |ms| ==> ms[i].hash <= ms[j].hash
  }

  ghost predicate DistinctIds(ms: seq<Member>) {
    forall i, j :: 0 <= i < j < |ms| ==> ms[i].id != ms[j].id
  }
}
