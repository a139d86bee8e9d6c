/**
 `Connection_RM3` and `ReplicaManager3` themselves, in the two QUERY_REPLICA_* modes: the loops
 that edit the lists, proved to compute the functions of ReplicaLists, ReplicaTick and ReplicaWorld.
 */
module ReplicaConnection {
  import opened Sequences
  import opened ReplicaLists
  import opened ReplicaTick
  import opened ReplicaWorld

  class Connection {
    var constructedReplicaList: seq<Record>
    var queryToConstructReplicaList: seq<Record>
    var queryToSerializeReplicaList: seq<Record>
    var queryToDestructReplicaList: seq<Record>
    ghost var live: set<Record>

    ghost function Contents(): Lists
      reads this
    {
      Lists(constructedReplicaList, queryToConstructReplicaList,
            queryToSerializeReplicaList, queryToDestructReplicaList, live)
    }

    constructor ()
      ensures Contents() == EMPTY
    {
      constructedReplicaList := [];
      queryToConstructReplicaList := [];
      queryToSerializeReplicaList := [];
      queryToDestructReplicaList := [];
      live := {};
    }

    /** The loop that the handlers repeat: the first record of a replica. */
    static method IndexOf(list: seq<Record>, replica3: Replica) returns (j: nat)
      ensures j == Find(list, replica3)
    {
      j := 0;
      while j < |list| && list[j].replica != replica3
        invariant j <= |list|
        invariant forall k :: 0 <= k < j ==> list[k].replica != replica3
      {
        j := j + 1;
      }
      assert j == Find(list, replica3);
    }

    static method RemoveFirst(list: seq<Record>, replica3: Replica) returns (rest: seq<Record>, j: nat)
      ensures rest == Without(list, replica3) && j == Find(list, replica3)
    {
      j := IndexOf(list, replica3);
      rest := if j < |list| then RemoveAt(list, j) else list;
    }

    method OnLocalReference(replica3: Replica)
      modifies this
      ensures |queryToConstructReplicaList| == |old(queryToConstructReplicaList)| + 1
      ensures var x := queryToConstructReplicaList[|queryToConstructReplicaList| - 1];
        && fresh(x) && x.replica == replica3
        && Contents() == LocalReference(old(Contents()), x)
    {
      var lsr := new LastSerializationResult(replica3);
      live := live + {lsr};
      queryToConstructReplicaList := queryToConstructReplicaList + [lsr];
    }

    method OnDereference(replica3: Replica, m: ReplicaManager3)
      modifies this
      ensures Contents() == Dereference(old(Contents()), replica3, m.referenceIndex, replica3 in m.managed)
    {
      if replica3 !in m.managed {
        return;
      }
      var lsr: Option<Record> := None;
      var key := Key(m.referenceIndex, replica3);
      var idx := Position(constructedReplicaList, key, m.referenceIndex);
      if HasKey(constructedReplicaList, key, m.referenceIndex) {
        lsr := Some(constructedReplicaList[idx]);
        constructedReplicaList := RemoveAt(constructedReplicaList, idx);
      }
      idx := IndexOf(queryToConstructReplicaList, replica3);
      if idx < |queryToConstructReplicaList| {
        lsr := Some(queryToConstructReplicaList[idx]);
        queryToConstructReplicaList := RemoveAt(queryToConstructReplicaList, idx);
      }
      idx := IndexOf(queryToSerializeReplicaList, replica3);
      if idx < |queryToSerializeReplicaList| {
        lsr := Some(queryToSerializeReplicaList[idx]);
        queryToSerializeReplicaList := RemoveAt(queryToSerializeReplicaList, idx);
      }
      idx := IndexOf(queryToDestructReplicaList, replica3);
      if idx < |queryToDestructReplicaList| {
        lsr := Some(queryToDestructReplicaList[idx]);
        queryToDestructReplicaList := RemoveAt(queryToDestructReplicaList, idx);
      }
      if lsr.Some? {
        live := live - {lsr.value};
      }
    }

    method OnDownloadFromThisSystem(replica3: Replica, m: ReplicaManager3)
      modifies this
      ensures |queryToDestructReplicaList| == |old(queryToDestructReplicaList)| + 1
      ensures var x := queryToDestructReplicaList[|queryToDestructReplicaList| - 1];
        && fresh(x) && x.replica == replica3
        && Contents() == DownloadFromThisSystem(old(Contents()), x, m.referenceIndex)
    {
      var lsr := new LastSerializationResult(replica3);
      live := live + {lsr};
      var j;
      queryToConstructReplicaList, j := RemoveFirst(queryToConstructReplicaList, replica3);
      queryToDestructReplicaList := queryToDestructReplicaList + [lsr];
      if !HasKey(constructedReplicaList, Key(m.referenceIndex, replica3), m.referenceIndex) {
        constructedReplicaList := Insert(constructedReplicaList, lsr, m.referenceIndex);
        queryToSerializeReplicaList := queryToSerializeReplicaList + [lsr];
      }
    }

    method OnDownloadFromOtherSystem(replica3: Replica)
      modifies this
      ensures Find(old(queryToConstructReplicaList), replica3) < |old(queryToConstructReplicaList)| ==>
        Contents() == old(Contents())
      ensures Find(old(queryToConstructReplicaList), replica3) == |old(queryToConstructReplicaList)| ==>
        && |queryToConstructReplicaList| == |old(queryToConstructReplicaList)| + 1
        && var x := queryToConstructReplicaList[|queryToConstructReplicaList| - 1];
        && fresh(x) && x.replica == replica3
        && Contents() == DownloadFromOtherSystem(old(Contents()), x)
    {
      var j := IndexOf(queryToConstructReplicaList, replica3);
      if j < |queryToConstructReplicaList| {
        return;
      }
      OnLocalReference(replica3);
    }

    method OnNeverConstruct(queryToConstructIdx: nat)
      requires queryToConstructIdx < |queryToConstructReplicaList|
      modifies this
      ensures Contents() == NeverConstruct(old(Contents()), queryToConstructIdx)
    {
      var lsr := queryToConstructReplicaList[queryToConstructIdx];
      queryToConstructReplicaList := RemoveAt(queryToConstructReplicaList, queryToConstructIdx);
      live := live - {lsr};
    }

    method OnConstructToThisConnection(queryToConstructIdx: nat, m: ReplicaManager3)
      requires queryToConstructIdx < |queryToConstructReplicaList|
      modifies this
      ensures Contents() == Construct(old(Contents()), queryToConstructIdx, m.referenceIndex)
    {
      var lsr := queryToConstructReplicaList[queryToConstructIdx];
      queryToConstructReplicaList := RemoveAt(queryToConstructReplicaList, queryToConstructIdx);
      constructedReplicaList := Insert(constructedReplicaList, lsr, m.referenceIndex);
      queryToDestructReplicaList := queryToDestructReplicaList + [lsr];
      queryToSerializeReplicaList := queryToSerializeReplicaList + [lsr];
    }

    method OnNeverSerialize(lsr: Record)
      modifies this
      ensures Contents() == NeverSerialize(old(Contents()), lsr)
    {
      var j := 0;
      while j < |queryToSerializeReplicaList| && queryToSerializeReplicaList[j] != lsr
        invariant j <= |queryToSerializeReplicaList|
        invariant forall k :: 0 <= k < j ==> queryToSerializeReplicaList[k] != lsr
      {
        j := j + 1;
      }
      assert j == FindFirst(queryToSerializeReplicaList, lsr);
      if j < |queryToSerializeReplicaList| {
        queryToSerializeReplicaList := RemoveAt(queryToSerializeReplicaList, j);
      }
    }

    method OnDownloadExisting(replica3: Replica, m: ReplicaManager3)
      modifies this
      ensures Contents() == DownloadExisting(old(Contents()), replica3, m.referenceIndex)
    {
      var idx := IndexOf(queryToConstructReplicaList, replica3);
      if idx < |queryToConstructReplicaList| {
        OnConstructToThisConnection(idx, m);
      }
    }

    method OnSendDestructionFromQuery(queryToDestructIdx: nat)
      requires queryToDestructIdx < |queryToDestructReplicaList|
      modifies this
      ensures Contents() == SendDestruction(old(Contents()), queryToDestructIdx)
    {
      var lsr := queryToDestructReplicaList[queryToDestructIdx];
      queryToDestructReplicaList := RemoveAt(queryToDestructReplicaList, queryToDestructIdx);
      var j;
      queryToSerializeReplicaList, j := RemoveFirst(queryToSerializeReplicaList, lsr.replica);
      constructedReplicaList, j := RemoveFirst(constructedReplicaList, lsr.replica);
      queryToConstructReplicaList := queryToConstructReplicaList + [lsr];
    }

    method OnDoNotQueryDestruction(queryToDestructIdx: nat)
      requires queryToDestructIdx < |queryToDestructReplicaList|
      modifies this
      ensures Contents() == DoNotQueryDestruction(old(Contents()), queryToDestructIdx)
    {
      queryToDestructReplicaList := RemoveAt(queryToDestructReplicaList, queryToDestructIdx);
    }

    /** The construction half of `AutoConstructByQuery`: the loop removes from the list it walks. */
    method ConstructByQuery(m: ReplicaManager3, qc: QueryConstruction) returns (culled: seq<Replica>)
      modifies this
      ensures Contents() == ConstructSweep(old(Contents()), m.referenceIndex, qc, 0).lists
      ensures culled == ConstructSweep(old(Contents()), m.referenceIndex, qc, 0).culled
    {
      culled := [];
      var index := 0;
      ghost var whole := ConstructSweep(Contents(), m.referenceIndex, qc, 0);
      while index < |queryToConstructReplicaList|
        invariant index <= |queryToConstructReplicaList|
        invariant whole.lists == ConstructSweep(Contents(), m.referenceIndex, qc, index).lists
        invariant whole.culled == culled + ConstructSweep(Contents(), m.referenceIndex, qc, index).culled
        decreases |queryToConstructReplicaList| - index
      {
        ghost var before, i, told := Contents(), index, culled;
        var lsr := queryToConstructReplicaList[index];
        var constructionState := qc(lsr.replica);
        if Exists(constructionState) {
          OnConstructToThisConnection(index, m);  // OnReplicaAlreadyExists has the same body
          if constructionState == ALREADY_EXISTS_REMOTELY {
            culled := culled + [lsr.replica];
          }
        } else if constructionState == SEND_CONSTRUCTION {
          OnConstructToThisConnection(index, m);
          culled := culled + [lsr.replica];
        } else if constructionState == NEVER_CONSTRUCT {
          OnNeverConstruct(index);
        } else {
          index := index + 1;
        }
        ConstructSweepStep(before, m.referenceIndex, qc, i, told);
        assert ConstructRound(before, m.referenceIndex, constructionState, i) == (Contents(), index);
      }
    }

    /** The destruction half. */
    method DestructByQuery(qd: QueryDestruction) returns (culled: seq<Replica>)
      modifies this
      ensures Contents() == DestructSweep(old(Contents()), qd, 0).lists
      ensures culled == DestructSweep(old(Contents()), qd, 0).culled
    {
      culled := [];
      var index := 0;
      ghost var whole := DestructSweep(Contents(), qd, 0);
      while index < |queryToDestructReplicaList|
        invariant index <= |queryToDestructReplicaList|
        invariant whole.lists == DestructSweep(Contents(), qd, index).lists
        invariant whole.culled == culled + DestructSweep(Contents(), qd, index).culled
        decreases |queryToDestructReplicaList| - index
      {
        ghost var before, i, told := Contents(), index, culled;
        var lsr := queryToDestructReplicaList[index];
        var destructionState := qd(lsr.replica);
        if destructionState == SEND_DESTRUCTION {
          OnSendDestructionFromQuery(index);
          culled := culled + [lsr.replica];
        } else if destructionState == DO_NOT_QUERY_DESTRUCTION {
          OnDoNotQueryDestruction(index);
        } else {
          index := index + 1;
        }
        DestructSweepStep(before, qd, i, told);
        assert DestructRound(before, destructionState, i) == (Contents(), index);
      }
    }

    method AutoConstructByQuery(m: ReplicaManager3, mode: Mode, qc: QueryConstruction, qd: QueryDestruction)
      returns (constructedReplicasCulled: seq<Replica>, destroyedReplicasCulled: seq<Replica>)
      modifies this
      ensures Ticked(Contents(), constructedReplicasCulled, destroyedReplicasCulled) ==
        Tick(old(Contents()), m.referenceIndex, mode, qc, qd)
    {
      destroyedReplicasCulled := [];
      constructedReplicasCulled := ConstructByQuery(m, qc);
      if mode == QUERY_FOR_CONSTRUCTION_AND_DESTRUCTION {
        destroyedReplicasCulled := DestructByQuery(qd);
      }
    }
  }

  class ReplicaManager3 {
    var referenceIndex: Index
    var nextReferenceIndex: nat
    var managed: set<Replica>  // replicas whose GetNetworkIDManager() is not 0
    var userReplicaList: seq<Replica>
    var connectionList: seq<Connection>

    ghost function State(): World
      reads this, connectionList
    {
      World(referenceIndex, nextReferenceIndex, managed, userReplicaList,
            seq(|connectionList|, c requires 0 <= c < |connectionList| reads this, connectionList =>
              connectionList[c].Contents()))
    }

    constructor ()
      ensures State() == NEW_WORLD && WorldOk(State()) && connectionList == []
    {
      referenceIndex, nextReferenceIndex, managed := map[], 0, {};
      userReplicaList, connectionList := [], [];
    }

    method ReferenceInternal(replica3: Replica) returns (added: bool)
      modifies this
      ensures added == (replica3 !in old(userReplicaList))
      ensures connectionList == old(connectionList)
      ensures State() == Refer(old(State()), replica3)
    {
      if replica3 in userReplicaList {
        return false;
      }
      managed := managed + {replica3};
      if replica3 !in referenceIndex {
        referenceIndex := referenceIndex[replica3 := nextReferenceIndex];
        nextReferenceIndex := nextReferenceIndex + 1;
      }
      userReplicaList := userReplicaList + [replica3];
      return true;
    }

    /** `recs` names the records that the call allocates, one per connection. */
    method Reference(replica3: Replica) returns (ghost recs: seq<Record>)
      requires NoDuplicates(connectionList)
      requires replica3 !in userReplicaList ==> nextReferenceIndex < NO_INDEX
      modifies this, connectionList
      ensures connectionList == old(connectionList)
      ensures Enabled(old(State()), Event.Reference(replica3, recs))
      ensures State() == Apply(old(State()), Event.Reference(replica3, recs))
    {
      recs := [];
      var added := ReferenceInternal(replica3);
      if added {
        var pushIdx := 0;
        while pushIdx < |connectionList|
          invariant pushIdx == |recs| <= |connectionList| && connectionList == old(connectionList)
          invariant State().(connections := []) == Refer(old(State()), replica3).(connections := [])
          invariant forall c :: 0 <= c < pushIdx ==> (
            && fresh(recs[c]) && recs[c].replica == replica3
            && connectionList[c].Contents() == LocalReference(old(connectionList[c].Contents()), recs[c]))
          invariant forall c :: pushIdx <= c < |connectionList| ==>
            connectionList[c].Contents() == old(connectionList[c].Contents())
        {
          connectionList[pushIdx].OnLocalReference(replica3);
          var list := connectionList[pushIdx].queryToConstructReplicaList;
          recs := recs + [list[|list| - 1]];
          pushIdx := pushIdx + 1;
        }
        assert State().connections == Apply(old(State()), Event.Reference(replica3, recs)).connections;
      }
    }

    method Dereference(replica3: Replica)
      requires NoDuplicates(connectionList)
      modifies this, connectionList
      ensures connectionList == old(connectionList)
      ensures State() == Apply(old(State()), Forget(replica3))
    {
      hide ReplicaLists.Dereference;
      var index := 0;
      while index < |userReplicaList| && userReplicaList[index] != replica3
        invariant index <= |userReplicaList|
        invariant forall k :: 0 <= k < index ==> userReplicaList[k] != replica3
      {
        index := index + 1;
      }
      assert index == FindFirst(userReplicaList, replica3);
      if index < |userReplicaList| {
        userReplicaList := RemoveAt(userReplicaList, index);
      }
      var index2 := 0;
      while index2 < |connectionList|
        invariant index2 <= |connectionList| && connectionList == old(connectionList)
        invariant State().(connections := []) == Apply(old(State()), Forget(replica3)).(connections := [])
        invariant forall c :: 0 <= c < index2 ==>
          connectionList[c].Contents() ==
            ReplicaLists.Dereference(old(connectionList[c].Contents()), replica3, referenceIndex, replica3 in managed)
        invariant forall c :: index2 <= c < |connectionList| ==>
          connectionList[c].Contents() == old(connectionList[c].Contents())
      {
        connectionList[index2].OnDereference(replica3, this);
        index2 := index2 + 1;
      }
      assert State().connections == Apply(old(State()), Forget(replica3)).connections;
    }

    /** The end of `OnConstruction` for one created object: every connection learns of it. */
    method OnDownloaded(replica3: Replica, from: nat) returns (ghost recs: seq<Record>)
      requires NoDuplicates(connectionList) && from < |connectionList| && replica3 in userReplicaList
      requires forall c :: 0 <= c < |connectionList| ==> !Holds(connectionList[c].Contents(), replica3)
      modifies connectionList
      ensures Enabled(old(State()), Download(replica3, from, recs))
      ensures State() == Apply(old(State()), Download(replica3, from, recs))
    {
      hide DownloadFromThisSystem, DownloadFromOtherSystem, Find, Replicas;
      connectionList[from].OnDownloadFromThisSystem(replica3, this);
      var list := connectionList[from].queryToDestructReplicaList;
      recs := seq(|connectionList|, c => list[|list| - 1]);
      var index2 := 0;
      while index2 < |connectionList|
        invariant index2 <= |connectionList| && |recs| == |connectionList|
        invariant forall c :: 0 <= c < |recs| ==> fresh(recs[c]) && recs[c].replica == replica3
        invariant connectionList[from].Contents() ==
          DownloadFromThisSystem(old(connectionList[from].Contents()), recs[from], referenceIndex)
        invariant forall c :: 0 <= c < index2 && c != from ==>
          connectionList[c].Contents() == DownloadFromOtherSystem(old(connectionList[c].Contents()), recs[c])
        invariant forall c :: index2 <= c < |connectionList| && c != from ==>
          connectionList[c].Contents() == old(connectionList[c].Contents())
      {
        if index2 != from {
          FoundIffListed(connectionList[index2].queryToConstructReplicaList, replica3);
          connectionList[index2].OnDownloadFromOtherSystem(replica3);
          var pending := connectionList[index2].queryToConstructReplicaList;
          recs := recs[index2 := pending[|pending| - 1]];
        }
        index2 := index2 + 1;
      }
      assert State().connections == Apply(old(State()), Download(replica3, from, recs)).connections;
    }
  }
}
