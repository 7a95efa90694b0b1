/**
 The election handlers of one node, as they update its fields, proved to do
 exactly what the `ClusterBus` handlers say. Clocks, the random delay and the
 replication offsets are parameters.
 */
module FailoverNode {
  import opened Basics
  import opened ClusterBus

  datatype Action = Waiting | Scheduled | Requested | Won

  /** Settings and inputs of clusterHandleSlaveFailover that this node does not own. */
  datatype Context = Context(
    now: int,
    nodeTimeout: int,
    size: nat,
    mfEnd: int,
    mfCanStart: bool,
    noFailover: bool,
    dataAge: int,
    validityFactor: int,
    replPingPeriod: int,
    rank: nat,
    delay: nat)
  {
    predicate Manual() { mfEnd != 0 && mfCanStart }

    function AuthTimeout(): int { if nodeTimeout * 2 < 2000 then 2000 else nodeTimeout * 2 }

    predicate DataTooOld() {
      var age := if dataAge > nodeTimeout then dataAge - nodeTimeout else dataAge;
      validityFactor != 0 && age > replPingPeriod * 1000 + nodeTimeout * validityFactor
    }
  }

  class Node {
    const me: NodeId
    var currentEpoch: nat
    var lastVoteEpoch: nat
    var authEpoch: nat
    var authCount: nat
    var authSent: bool
    var authTime: int
    var authRank: nat
    var slave: bool
    var slaveof: Option<NodeId>
    var epochs: map<NodeId, nat>
    var slots: seq<Option<NodeId>>
    var failed: set<NodeId>
    var masters: set<NodeId>
    var masterOf: map<NodeId, NodeId>
    var votedTime: map<NodeId, int>

    ghost predicate Valid()
      reads this
    {
      && me in epochs && |slots| == SLOTS
      && (forall j :: 0 <= j < |slots| && slots[j].Some? ==> slots[j].value in epochs)
    }

    /** The epoch and election fields as a value. */
    ghost function Snapshot(): NodeState
      reads this
    {
      NodeState(currentEpoch, lastVoteEpoch, authEpoch, authCount, authSent, slave, slaveof, epochs)
    }

    constructor (me: NodeId)
      ensures Valid() && this.me == me
      ensures Snapshot() == NodeState(0, 0, 0, 0, false, false, None, map[me := 0])
    {
      this.me := me;
      currentEpoch, lastVoteEpoch, authEpoch, authCount, authSent := 0, 0, 0, 0, false;
      authTime, authRank, slave, slaveof, epochs := 0, 0, false, None, map[me := 0];
      slots := seq(SLOTS, _ => None);
      failed, masters, masterOf, votedTime := {}, {me}, map[], map[];
    }

    ghost predicate Serves(n: NodeId)
      reads this
    {
      exists j :: 0 <= j < |slots| && slots[j] == Some(n)
    }

    method HasSlots(n: NodeId) returns (r: bool)
      ensures r <==> Serves(n)
    {
      r := false;
      for j := 0 to |slots|
        invariant r <==> exists i :: 0 <= i < j && slots[i] == Some(n)
      {
        if slots[j] == Some(n) { r := true; }
      }
    }

    method ProcessHeader(from: NodeId, cur: nat, cfg: nat)
      requires Valid()
      modifies `currentEpoch, `epochs
      ensures Valid()
      ensures Snapshot() == ReceiveHeader(old(Snapshot()), from, cur, cfg)
      ensures currentEpoch == if from in old(epochs) && cur > old(currentEpoch) then cur else old(currentEpoch)
      ensures epochs == if from in old(epochs) && cfg > old(epochs)[from] then old(epochs)[from := cfg] else old(epochs)
    {
      if from in epochs {
        if cur > currentEpoch { currentEpoch := cur; }
        if cfg > epochs[from] { epochs := epochs[from := cfg]; }
      }
    }

    /** The tests on the request besides the epochs: we are a master serving slots,
        the requester is a slave whose master we know and hold for failed (or the
        vote is forced), we have not just voted about that master, and no claimed
        slot is served under a greater configEpoch than the request carries. */
    ghost predicate Permits(node: NodeId, cfg: nat, claimed: set<nat>, force: bool, now: int, nodeTimeout: int)
      reads this
    {
      && !slave && Serves(me)
      && node !in masters && node in masterOf && (masterOf[node] in failed || force)
      && !(masterOf[node] in votedTime && now - votedTime[masterOf[node]] < nodeTimeout * 2)
      && (forall j :: 0 <= j < |slots| && j in claimed && slots[j].Some? && slots[j].value in epochs ==>
            epochs[slots[j].value] <= cfg)
    }

    method SendFailoverAuthIfNeeded(node: NodeId, cur: nat, cfg: nat, claimed: set<nat>,
                                    force: bool, now: int, nodeTimeout: int)
      returns (granted: bool)
      requires Valid()
      modifies `lastVoteEpoch, `votedTime
      ensures Valid()
      ensures granted <==>
        GrantsVote(old(Snapshot()), old(Permits(node, cfg, claimed, force, now, nodeTimeout)), cur)
      ensures Snapshot() == if granted then RecordVote(old(Snapshot())) else old(Snapshot())
      ensures granted <==>
        && !slave && Serves(me) && cur >= currentEpoch && old(lastVoteEpoch) != currentEpoch
        && node !in masters && node in masterOf && (masterOf[node] in failed || force)
        && !(masterOf[node] in old(votedTime) && now - old(votedTime)[masterOf[node]] < nodeTimeout * 2)
        && forall j :: 0 <= j < SLOTS && j in claimed && slots[j].Some? ==> epochs[slots[j].value] <= cfg
      ensures lastVoteEpoch == if granted then currentEpoch else old(lastVoteEpoch)
      ensures votedTime == if granted then old(votedTime)[masterOf[node] := now] else old(votedTime)
    {
      var serving := HasSlots(me);
      if slave || !serving { return false; }
      if cur < currentEpoch { return false; }
      if lastVoteEpoch == currentEpoch { return false; }
      if node in masters || node !in masterOf || (masterOf[node] !in failed && !force) { return false; }
      var master := masterOf[node];
      if master in votedTime && now - votedTime[master] < nodeTimeout * 2 { return false; }
      var j := 0;
      while j < SLOTS
        invariant 0 <= j <= SLOTS
        invariant forall i :: 0 <= i < j && i in claimed && slots[i].Some? ==> epochs[slots[i].value] <= cfg
      {
        if j in claimed && slots[j].Some? && epochs[slots[j].value] > cfg { return false; }
        j := j + 1;
      }
      lastVoteEpoch := currentEpoch;
      votedTime := votedTime[master := now];
      return true;
    }

    method ProcessAck(from: NodeId, cur: nat)
      requires Valid()
      modifies `authCount
      ensures Snapshot() == if CountsAck(old(Snapshot()), from in masters && old(Serves(from)), cur)
                            then CountAck(old(Snapshot())) else old(Snapshot())
      ensures authCount ==
        old(authCount) + if from in masters && old(Serves(from)) && cur >= authEpoch then 1 else 0
    {
      var serving := HasSlots(from);
      if from in masters && serving && cur >= authEpoch { authCount := authCount + 1; }
    }

    method GetMaxEpoch() returns (max: nat)
      requires Valid()
      ensures IsMaxEpoch(Snapshot(), max)
      ensures currentEpoch <= max && forall k :: k in epochs ==> epochs[k] <= max
      ensures max == currentEpoch || max in epochs.Values
    {
      max := 0;
      var todo := epochs.Keys;
      while todo != {}
        invariant todo <= epochs.Keys
        invariant forall k :: k in epochs && k !in todo ==> epochs[k] <= max
        invariant max == 0 || exists k :: k in epochs && epochs[k] == max
        decreases todo
      {
        var k :| k in todo;
        if epochs[k] > max { max := epochs[k]; }
        todo := todo - {k};
      }
      if max < currentEpoch { max := currentEpoch; }
    }

    method BumpConfigEpochWithoutConsensus() returns (bumped: bool)
      requires Valid()
      modifies `currentEpoch, `epochs
      ensures Valid()
      ensures Snapshot() == BumpEpoch(old(Snapshot()), me)
      ensures bumped <==> Snapshot() != old(Snapshot())
      ensures bumped <==>
        || old(epochs)[me] == 0 || old(currentEpoch) > old(epochs)[me]
        || exists k :: k in old(epochs) && old(epochs)[k] > old(epochs)[me]
      ensures currentEpoch == old(currentEpoch) + if bumped then 1 else 0
      ensures epochs == if bumped then old(epochs)[me := currentEpoch] else old(epochs)
    {
      var max := GetMaxEpoch();
      if epochs[me] == 0 || epochs[me] != max {
        currentEpoch := currentEpoch + 1;
        epochs := epochs[me := currentEpoch];
        bumped := true;
      } else {
        bumped := false;
      }
    }

    method HandleConfigEpochCollision(from: NodeId, fromMaster: bool, cfg: nat)
      requires Valid() && from in epochs && from != me
      modifies `currentEpoch, `epochs
      ensures Valid()
      ensures Snapshot() == if MustResolveCollision(old(Snapshot()), me, from, fromMaster, cfg)
                            then Mint(old(Snapshot()), me) else old(Snapshot())
      ensures var moves := !slave && fromMaster && cfg == old(epochs)[me] == old(epochs)[from] && me < from;
        && currentEpoch == old(currentEpoch) + (if moves then 1 else 0)
        && epochs == if moves then old(epochs)[me := currentEpoch] else old(epochs)
    {
      if slave || !fromMaster || cfg != epochs[me] { return; }
      if epochs[from] != epochs[me] { return; }
      if from <= me { return; }
      currentEpoch := currentEpoch + 1;
      epochs := epochs[me := currentEpoch];
    }

    /** There is a reason to fail over and the data is fresh enough. */
    ghost predicate Eligible(c: Context)
      reads this
    {
      && slave && slaveof.Some? && Serves(slaveof.value)
      && (c.Manual() || (slaveof.value in failed && !c.noFailover && !c.DataTooOld()))
    }

    /** The start time after a late rank correction. */
    ghost function StartTime(c: Context): int
      reads this
    {
      if !authSent && c.mfEnd == 0 && c.rank > authRank
      then authTime + (c.rank - authRank) * 1000 else authTime
    }

    /** A slave of a master with slots, which has failed; or the failover is manual, and then neither
        the failure, nor the option, nor the age of the data counts. */
    lemma EligibleIs(c: Context)
      ensures Eligible(c) <==>
        && slave && slaveof.Some? && (exists j :: 0 <= j < |slots| && slots[j] == slaveof)
        && ((c.mfEnd != 0 && c.mfCanStart) || (slaveof.value in failed && !c.noFailover && !c.DataTooOld()))
    {
      assert slaveof.Some? ==> slaveof == Some(slaveof.value);
    }

    /** A slave that fell in rank waits a second longer for each rank, unless it has asked already. */
    lemma StartTimeIs(c: Context)
      ensures authSent || c.mfEnd != 0 || c.rank <= authRank ==> StartTime(c) == authTime
      ensures !authSent && c.mfEnd == 0 && c.rank > authRank ==> StartTime(c) == authTime + 1000 * c.rank - 1000 * authRank
    {}

    /** The first try of an election, or the next one. */
    method Schedule(c: Context)
      requires Valid()
      modifies `authCount, `authSent, `authTime, `authRank
      ensures Valid() && Snapshot() == ScheduleElection(old(Snapshot())) && authCount == 0 && !authSent
      ensures authTime == c.now + if c.mfEnd != 0 then 0 else 500 + c.delay % 500 + c.rank * 1000
    {
      authTime := c.now + 500 + c.delay % 500;
      authCount, authSent, authRank := 0, false, c.rank;
      authTime := authTime + authRank * 1000;
      if c.mfEnd != 0 { authTime, authRank := c.now, 0; }
    }

    /** Ask for votes. */
    method Open()
      requires Valid()
      modifies `currentEpoch, `authEpoch, `authSent
      ensures Valid() && Snapshot() == OpenElection(old(Snapshot()))
      ensures currentEpoch == authEpoch == old(currentEpoch) + 1 && authSent
    {
      currentEpoch := currentEpoch + 1;
      authEpoch := currentEpoch;
      authSent := true;
    }

    /** The election is won. */
    method Claim()
      requires Valid()
      modifies `slave, `slaveof, `epochs
      ensures Valid() && Snapshot() == ClaimVictory(old(Snapshot()), me)
      ensures !slave && slaveof == None && epochs[me] >= authEpoch
      ensures epochs == if old(epochs)[me] < authEpoch then old(epochs)[me := authEpoch] else old(epochs)
    {
      if epochs[me] < authEpoch { epochs := epochs[me := authEpoch]; }
      slave, slaveof := false, None;
    }

    /** clusterHandleSlaveFailover. */
    method HandleSlaveFailover(c: Context) returns (action: Action)
      requires Valid()
      modifies `currentEpoch, `authEpoch, `authCount, `authSent, `authTime, `authRank, `slave, `slaveof, `epochs
      ensures Valid()
      ensures action.Scheduled? <==>
        old(Eligible(c)) && c.now - old(authTime) > c.AuthTimeout() * 2
      ensures action.Requested? <==>
        && old(Eligible(c)) && c.now - old(authTime) <= c.AuthTimeout()
        && c.now >= old(StartTime(c)) && !old(authSent)
      ensures action.Won? <==>
        && old(Eligible(c)) && c.now - old(authTime) <= c.AuthTimeout()
        && c.now >= old(StartTime(c)) && old(authSent) && old(authCount) >= c.size / 2 + 1
      ensures Snapshot() == match action
                            case Waiting => old(Snapshot())
                            case Scheduled => ScheduleElection(old(Snapshot()))
                            case Requested => OpenElection(old(Snapshot()))
                            case Won => ClaimVictory(old(Snapshot()), me)
      ensures action.Scheduled? ==>
        authTime == c.now + if c.mfEnd != 0 then 0 else 500 + c.delay % 500 + c.rank * 1000
      ensures authCount == (if action.Scheduled? then 0 else old(authCount))
      ensures authSent == (if action.Scheduled? then false else action.Requested? || old(authSent))
      ensures currentEpoch == old(currentEpoch) + (if action.Requested? then 1 else 0)
      ensures authEpoch == if action.Requested? then currentEpoch else old(authEpoch)
      ensures slave == (old(slave) && !action.Won?) && slaveof == if action.Won? then None else old(slaveof)
      ensures epochs == if action.Won? && old(epochs)[me] < authEpoch then old(epochs)[me := authEpoch] else old(epochs)
    {
      var age := c.now - authTime;
      var manual := c.Manual();
      if !slave || slaveof.None? { return Waiting; }
      var serving := HasSlots(slaveof.value);
      if (slaveof.value !in failed && !manual) || (c.noFailover && !manual) || !serving { return Waiting; }
      if c.DataTooOld() && !manual { return Waiting; }
      if age > c.AuthTimeout() * 2 {
        Schedule(c);
        return Scheduled;
      }
      if !authSent && c.mfEnd == 0 && c.rank > authRank {
        authTime := authTime + (c.rank - authRank) * 1000;
        authRank := c.rank;
      }
      if c.now < authTime { return Waiting; }
      if age > c.AuthTimeout() { return Waiting; }
      if !authSent {
        Open();
        return Requested;
      }
      if authCount >= c.size / 2 + 1 {
        Claim();
        return Won;
      }
      return Waiting;
    }
  }

  // -------------------------------------------------------- rules of the clock

  /** An election is on for twice the node timeout, but for two seconds at least. */
  lemma AuthTimeoutIs(c: Context)
    ensures c.AuthTimeout() >= 2000 && c.AuthTimeout() >= 2 * c.nodeTimeout
    ensures c.AuthTimeout() == 2000 || c.AuthTimeout() == 2 * c.nodeTimeout
  {}

  /** The data is too old when its age, less one node timeout if it is older than that, exceeds the
      ping period and the factor of node timeouts; a factor of zero turns the test off. */
  lemma DataTooOldIs(c: Context)
    ensures c.validityFactor == 0 ==> !c.DataTooOld()
    ensures c.validityFactor != 0 && c.dataAge > c.nodeTimeout ==>
      (c.DataTooOld() <==> c.dataAge > c.replPingPeriod * 1000 + c.nodeTimeout * (c.validityFactor + 1))
    ensures c.validityFactor != 0 && c.dataAge <= c.nodeTimeout ==>
      (c.DataTooOld() <==> c.dataAge > c.replPingPeriod * 1000 + c.nodeTimeout * c.validityFactor)
  {
    assert c.nodeTimeout * (c.validityFactor + 1) == c.nodeTimeout * c.validityFactor + c.nodeTimeout;
  }
}
