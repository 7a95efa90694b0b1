/**
 The cluster bus: epochs, failover elections and the messages that carry them.

 One node's share of the protocol is a value, `NodeState`, and every handler is
 a function from the old node state to the new one. A `Bus` is all nodes, the
 packets in flight and a record of what was voted, counted and won. An `Event`
 is one step of one node; a run is any sequence of enabled events, so packets
 may be lost, delayed and reordered without limit.
 */
module ClusterBus {
  import opened Basics

  /** Node names are 40 byte strings compared with memcmp: a total order. */
  type NodeId = nat

  /** What one node keeps about epochs and elections. `epochs` holds the
      configEpoch of every node in its table, itself included. */
  datatype NodeState = NodeState(
    currentEpoch: nat,
    lastVoteEpoch: nat,
    authEpoch: nat,
    authCount: nat,
    authSent: bool,
    slave: bool,
    slaveof: Option<NodeId>,
    epochs: map<NodeId, nat>)

  // ---------------------------------------------------------------- handlers

  /** Epoch part of the packet header, for a sender that is in our table. */
  function ReceiveHeader(st: NodeState, from: NodeId, cur: nat, cfg: nat): NodeState {
    if from !in st.epochs then st
    else
      st.(currentEpoch := if cur > st.currentEpoch then cur else st.currentEpoch,
          epochs := if cfg > st.epochs[from] then st.epochs[from := cfg] else st.epochs)
  }

  /** A vote is refused unless the request is at our epoch and we have not voted
      in it. `permit` stands for the other tests, which can only refuse. */
  predicate GrantsVote(st: NodeState, permit: bool, requestEpoch: nat) {
    permit && requestEpoch >= st.currentEpoch && st.lastVoteEpoch != st.currentEpoch
  }

  function RecordVote(st: NodeState): NodeState {
    st.(lastVoteEpoch := st.currentEpoch)
  }

  predicate CountsAck(st: NodeState, fromVoter: bool, ackEpoch: nat) {
    fromVoter && ackEpoch >= st.authEpoch
  }

  function CountAck(st: NodeState): NodeState {
    st.(authCount := st.authCount + 1)
  }

  /** Schedule a new election: the counter restarts, the election epoch does not move yet. */
  function ScheduleElection(st: NodeState): NodeState {
    st.(authCount := 0, authSent := false)
  }

  /** Open the election at a fresh epoch and ask for votes. */
  function OpenElection(st: NodeState): NodeState {
    st.(currentEpoch := st.currentEpoch + 1, authEpoch := st.currentEpoch + 1, authSent := true)
  }

  function ClaimVictory(st: NodeState, me: NodeId): NodeState
    requires me in st.epochs
  {
    st.(slave := false, slaveof := None,
        epochs := if st.epochs[me] < st.authEpoch then st.epochs[me := st.authEpoch] else st.epochs)
  }

  /** `e` is the value clusterGetMaxEpoch computes. */
  ghost predicate IsMaxEpoch(st: NodeState, e: nat) {
    && st.currentEpoch <= e
    && (forall k :: k in st.epochs ==> st.epochs[k] <= e)
    && (e == st.currentEpoch || exists k :: k in st.epochs && st.epochs[k] == e)
  }

  /** Take a fresh epoch without asking anybody. */
  function Mint(st: NodeState, me: NodeId): NodeState {
    st.(currentEpoch := st.currentEpoch + 1, epochs := st.epochs[me := st.currentEpoch + 1])
  }

  ghost function BumpEpoch(st: NodeState, me: NodeId): NodeState
    requires me in st.epochs
  {
    if st.epochs[me] == 0 || !IsMaxEpoch(st, st.epochs[me]) then Mint(st, me) else st
  }

  /** Two masters announce the same epoch: the one with the smaller name moves on. */
  predicate MustResolveCollision(st: NodeState, me: NodeId, from: NodeId, fromMaster: bool, cfg: nat)
    requires me in st.epochs
  {
    && from in st.epochs && !st.slave && fromMaster
    && cfg == st.epochs[me] == st.epochs[from] && me < from
  }

  function ReceiveUpdate(st: NodeState, about: NodeId, epoch: nat): NodeState {
    if about !in st.epochs || st.epochs[about] >= epoch then st
    else st.(epochs := st.epochs[about := epoch])
  }

  /** The configEpoch a node puts in its headers: its master's when it is a slave. */
  function AnnouncedEpoch(st: NodeState, me: NodeId): nat
    requires me in st.epochs
  {
    if st.slave && st.slaveof.Some? && st.slaveof.value in st.epochs
    then st.epochs[st.slaveof.value] else st.epochs[me]
  }

  // -------------------------------------------------------------- the system

  /** Ping stands for every packet whose only effect here is its header. */
  datatype Msg =
    | Ping(from: NodeId, to: NodeId, cur: nat, cfg: nat)
    | AuthRequest(from: NodeId, to: NodeId, cur: nat, cfg: nat)
    | AuthAck(from: NodeId, to: NodeId, cur: nat, cfg: nat)
    | Update(from: NodeId, to: NodeId, cur: nat, cfg: nat, about: NodeId, aboutEpoch: nat)

  /** `votes`, `credited` and `elected` only record what happened; no handler reads them. */
  datatype Bus = Bus(
    nodes: map<NodeId, NodeState>,
    net: set<Msg>,
    votes: map<(NodeId, nat), NodeId>,
    credited: map<NodeId, set<NodeId>>,
    elected: set<(NodeId, nat)>)

  datatype Event =
    | SendPing(n: NodeId, to: NodeId)
    | SendUpdate(n: NodeId, to: NodeId, about: NodeId)
    | Deliver(m: Msg, permit: bool)
    | Lose(m: Msg)
    | Schedule(n: NodeId)
    | Request(n: NodeId, all: set<NodeId>)
    | Win(n: NodeId)
    | Takeover(n: NodeId)
    | Bump(n: NodeId)
    | SetConfigEpoch(n: NodeId, epoch: nat)
    | Meet(n: NodeId, id: NodeId)
    | Forget(n: NodeId, id: NodeId)
    | Replicate(n: NodeId, of: NodeId)

  function Quorum(voters: set<NodeId>): nat { |voters| / 2 + 1 }

  /** When a step may be taken. `voters` is the fixed set of masters serving
      slots: they stay masters, only they vote and only their acks count. */
  ghost predicate Enabled(voters: set<NodeId>, s: Bus, e: Event) {
    match e
    case SendPing(n, _) => n in s.nodes && n in s.nodes[n].epochs
    case SendUpdate(n, _, about) => n in s.nodes && n in s.nodes[n].epochs && about in s.nodes[n].epochs
    case Deliver(m, _) => m in s.net && m.to in s.nodes && m.to in s.nodes[m.to].epochs
    case Lose(m) => m in s.net
    case Schedule(n) => n in s.nodes && s.nodes[n].slave
    case Request(n, all) => n in s.nodes && s.nodes[n].slave && !s.nodes[n].authSent && n in s.nodes[n].epochs
    case Win(n) =>
      && n in s.nodes && s.nodes[n].slave && s.nodes[n].authSent && n in s.nodes[n].epochs
      && s.nodes[n].authCount >= Quorum(voters)
    case Takeover(n) => n in s.nodes && s.nodes[n].slave && n in s.nodes[n].epochs
    case Bump(n) => n in s.nodes && n in s.nodes[n].epochs
    case SetConfigEpoch(n, _) => n in s.nodes && s.nodes[n].epochs == map[n := 0]
    case Meet(n, id) => n in s.nodes && id !in s.nodes[n].epochs
    case Forget(n, id) => n in s.nodes && id != n && !(s.nodes[n].slave && s.nodes[n].slaveof == Some(id))
    case Replicate(n, of) => n in s.nodes && n !in voters && of != n && of in s.nodes[n].epochs
  }

  ghost function Put(s: Bus, n: NodeId, st: NodeState): Bus { s.(nodes := s.nodes[n := st]) }

  /** Handling of one packet by its destination. An ack is consumed: the bus
      does not duplicate packets. Other packets may be seen again. */
  ghost function Receive(voters: set<NodeId>, s: Bus, m: Msg, permit: bool): Bus
    requires m.to in s.nodes && m.to in s.nodes[m.to].epochs
  {
    var me := m.to;
    var st := ReceiveHeader(s.nodes[me], m.from, m.cur, m.cfg);
    if m.from !in s.nodes[me].epochs then
      if m.AuthAck? then s.(net := s.net - {m}) else s
    else
      match m
      case Ping(from, _, _, cfg) =>
        Put(s, me, if MustResolveCollision(st, me, from, permit, cfg) then Mint(st, me) else st)
      case AuthRequest(from, _, cur, _) =>
        if me in voters && GrantsVote(st, permit, cur) then
          Put(s, me, RecordVote(st)).(
            votes := s.votes[(me, st.currentEpoch) := from],
            net := s.net + {AuthAck(me, from, st.currentEpoch, AnnouncedEpoch(st, me))})
        else Put(s, me, st)
      case AuthAck(from, _, cur, _) =>
        if CountsAck(st, from in voters, cur) then
          Put(s, me, CountAck(st)).(
            net := s.net - {m},
            credited := s.credited[me := Credit(s, me) + {from}])
        else Put(s, me, st).(net := s.net - {m})
      case Update(_, _, _, _, about, aboutEpoch) =>
        Put(s, me, ReceiveUpdate(st, about, aboutEpoch))
  }

  ghost function Credit(s: Bus, n: NodeId): set<NodeId> {
    if n in s.credited then s.credited[n] else {}
  }

  ghost function Requests(n: NodeId, st: NodeState, all: set<NodeId>): set<Msg>
    requires n in st.epochs
  {
    set to | to in all :: AuthRequest(n, to, st.currentEpoch, AnnouncedEpoch(st, n))
  }

  ghost function Next(voters: set<NodeId>, s: Bus, e: Event): Bus
    requires Enabled(voters, s, e)
  {
    match e
    case SendPing(n, to) =>
      s.(net := s.net + {Ping(n, to, s.nodes[n].currentEpoch, AnnouncedEpoch(s.nodes[n], n))})
    case SendUpdate(n, to, about) =>
      s.(net := s.net + {Update(n, to, s.nodes[n].currentEpoch, AnnouncedEpoch(s.nodes[n], n),
                                about, s.nodes[n].epochs[about])})
    case Deliver(m, permit) => Receive(voters, s, m, permit)
    case Lose(m) => s.(net := s.net - {m})
    case Schedule(n) =>
      Put(s, n, ScheduleElection(s.nodes[n])).(credited := s.credited[n := {}])
    case Request(n, all) =>
      var st := OpenElection(s.nodes[n]);
      Put(s, n, st).(net := s.net + Requests(n, st, all))
    case Win(n) =>
      Put(s, n, ClaimVictory(s.nodes[n], n)).(elected := s.elected + {(n, s.nodes[n].authEpoch)})
    case Takeover(n) =>
      Put(s, n, BumpEpoch(s.nodes[n], n).(slave := false, slaveof := None))
    case Bump(n) => Put(s, n, BumpEpoch(s.nodes[n], n))
    case SetConfigEpoch(n, epoch) =>
      var st := s.nodes[n];
      Put(s, n, st.(epochs := map[n := epoch],
                    currentEpoch := if st.currentEpoch < epoch then epoch else st.currentEpoch))
    case Meet(n, id) => Put(s, n, s.nodes[n].(epochs := s.nodes[n].epochs[id := 0]))
    case Forget(n, id) => Put(s, n, s.nodes[n].(epochs := s.nodes[n].epochs - {id}))
    case Replicate(n, of) => Put(s, n, s.nodes[n].(slave := true, slaveof := Some(of)))
  }

  /** A cluster at rest: whatever the epochs are, they are ordered, no packet is in
      flight and no election is under way. */
  ghost predicate Init(voters: set<NodeId>, s: Bus) {
    && EpochsOrdered(s)
    && (forall n :: n in s.nodes ==> s.nodes[n].authCount == 0 && !s.nodes[n].authSent)
    && (forall v :: v in voters && v in s.nodes ==> !s.nodes[v].slave)
    && s.net == {} && s.votes == map[] && s.credited == map[] && s.elected == {}
  }

  /** `t` is reached from `s` by the enabled events `es`. */
  ghost predicate Run(voters: set<NodeId>, s: Bus, es: seq<Event>, t: Bus)
    decreases |es|
  {
    if es == [] then s == t
    else Enabled(voters, s, es[0]) && Run(voters, Next(voters, s, es[0]), es[1..], t)
  }

  // ------------------------------------------------------------- epoch order

  ghost predicate NodeOrdered(n: NodeId, st: NodeState) {
    && n in st.epochs
    && (forall k :: k in st.epochs ==> st.epochs[k] <= st.currentEpoch)
    && st.authEpoch <= st.currentEpoch
    && st.lastVoteEpoch <= st.currentEpoch
  }

  predicate MsgOrdered(m: Msg) {
    m.cfg <= m.cur && (m.Update? ==> m.aboutEpoch <= m.cur)
  }

  /** At every node and in every packet, no configEpoch exceeds the currentEpoch beside it. */
  ghost predicate EpochsOrdered(s: Bus) {
    && (forall n {:trigger NodeOrdered(n, s.nodes[n])} :: n in s.nodes ==> NodeOrdered(n, s.nodes[n]))
    && (forall m {:trigger MsgOrdered(m)} :: m in s.net ==> MsgOrdered(m))
  }

  /** A step that replaces one node and adds only ordered packets keeps the order. */
  lemma OrderKept(s: Bus, t: Bus, n: NodeId, st: NodeState)
    requires EpochsOrdered(s)
    requires t.nodes == s.nodes[n := st] && NodeOrdered(n, st)
    requires forall m :: m in t.net ==> m in s.net || MsgOrdered(m)
    ensures EpochsOrdered(t)
  {}

  lemma AnnouncedOrdered(n: NodeId, st: NodeState)
    requires NodeOrdered(n, st)
    ensures AnnouncedEpoch(st, n) <= st.currentEpoch
  {}

  lemma HeaderOrdered(n: NodeId, st: NodeState, m: Msg)
    requires NodeOrdered(n, st) && MsgOrdered(m)
    ensures NodeOrdered(n, ReceiveHeader(st, m.from, m.cur, m.cfg))
    ensures m.from in st.epochs ==> m.cur <= ReceiveHeader(st, m.from, m.cur, m.cfg).currentEpoch
  {}

  lemma ReceiveOrdered(voters: set<NodeId>, s: Bus, m: Msg, permit: bool)
    requires EpochsOrdered(s) && m in s.net && m.to in s.nodes && m.to in s.nodes[m.to].epochs
    ensures EpochsOrdered(Receive(voters, s, m, permit))
  {
    var me, t := m.to, Receive(voters, s, m, permit);
    assert NodeOrdered(me, s.nodes[me]) && MsgOrdered(m);
    HeaderOrdered(me, s.nodes[me], m);
    var st := ReceiveHeader(s.nodes[me], m.from, m.cur, m.cfg);
    AnnouncedOrdered(me, st);
    assert t.nodes[me := t.nodes[me]] == t.nodes;
    OrderKept(s, t, me, t.nodes[me]);
  }

  lemma RequestOrdered(voters: set<NodeId>, s: Bus, n: NodeId, all: set<NodeId>)
    requires EpochsOrdered(s) && Enabled(voters, s, Request(n, all))
    ensures EpochsOrdered(Next(voters, s, Request(n, all)))
  {
    var t := Next(voters, s, Request(n, all));
    assert NodeOrdered(n, s.nodes[n]);
    AnnouncedOrdered(n, t.nodes[n]);
    OrderKept(s, t, n, t.nodes[n]);
  }

  lemma OwnStepOrdered(voters: set<NodeId>, s: Bus, e: Event)
    requires EpochsOrdered(s) && Enabled(voters, s, e)
    requires !e.Deliver? && !e.Lose? && !e.SendPing? && !e.SendUpdate? && !e.Request?
    ensures EpochsOrdered(Next(voters, s, e))
  {
    var t := Next(voters, s, e);
    assert NodeOrdered(e.n, s.nodes[e.n]);
    OrderKept(s, t, e.n, t.nodes[e.n]);
  }

  lemma EpochsOrderedStep(voters: set<NodeId>, s: Bus, e: Event)
    requires EpochsOrdered(s) && Enabled(voters, s, e)
    ensures EpochsOrdered(Next(voters, s, e))
  {
    match e
    case Deliver(m, permit) => ReceiveOrdered(voters, s, m, permit);
    case Lose(m) =>
    case SendPing(n, to) => AnnouncedOrdered(n, s.nodes[n]);
    case SendUpdate(n, to, about) =>
      assert NodeOrdered(n, s.nodes[n]);
      AnnouncedOrdered(n, s.nodes[n]);
    case Request(n, all) => RequestOrdered(voters, s, n, all);
    case _ => OwnStepOrdered(voters, s, e);
  }

  /** The order of epochs is an invariant of every run. */
  lemma {:induction false} EpochsOrderedAlways(voters: set<NodeId>, s: Bus, es: seq<Event>, t: Bus)
    requires EpochsOrdered(s) && Run(voters, s, es, t)
    ensures EpochsOrdered(t)
    decreases |es|
  {
    if es != [] {
      EpochsOrderedStep(voters, s, es[0]);
      EpochsOrderedAlways(voters, Next(voters, s, es[0]), es[1..], t);
    }
  }

  /** Wherever a run has led, an epoch minted without consensus (bump, takeover or
      collision) and an epoch opened for an election exceed every configEpoch that
      the node knows, as well as every epoch it has voted in. */
  lemma MintedEpochIsFresh(voters: set<NodeId>, s: Bus, es: seq<Event>, t: Bus, n: NodeId)
    requires Init(voters, s) && Run(voters, s, es, t) && n in t.nodes
    ensures n in t.nodes[n].epochs
    ensures forall k :: k in t.nodes[n].epochs ==> t.nodes[n].epochs[k] < Mint(t.nodes[n], n).epochs[n]
    ensures forall k :: k in t.nodes[n].epochs ==> t.nodes[n].epochs[k] < OpenElection(t.nodes[n]).authEpoch
    ensures t.nodes[n].lastVoteEpoch < OpenElection(t.nodes[n]).authEpoch
  {
    EpochsOrderedAlways(voters, s, es, t);
    assert NodeOrdered(n, t.nodes[n]);
  }

  // --------------------------------------------------------- election safety

  /** The step that breaks an election: a countable ack reaches a slave that has
      reset its counter and not yet opened the next election. */
  ghost predicate AckInWindow(voters: set<NodeId>, s: Bus, e: Event) {
    && e.Deliver? && e.m.AuthAck?
    && e.m.to in s.nodes && !s.nodes[e.m.to].authSent
    && e.m.from in voters && e.m.cur >= s.nodes[e.m.to].authEpoch
  }

  /** A run none of whose steps delivers an ack in that window. */
  ghost predicate CleanRun(voters: set<NodeId>, s: Bus, es: seq<Event>, t: Bus)
    decreases |es|
  {
    if es == [] then s == t
    else
      && Enabled(voters, s, es[0]) && !AckInWindow(voters, s, es[0])
      && CleanRun(voters, Next(voters, s, es[0]), es[1..], t)
  }

  ghost predicate VotedFor(s: Bus, v: NodeId, e: nat, c: NodeId) {
    (v, e) in s.votes && s.votes[(v, e)] == c
  }

  /** A majority of the voters voted for `c` at epoch `e`. */
  ghost predicate MajorityFor(voters: set<NodeId>, s: Bus, c: NodeId, e: nat, q: set<NodeId>) {
    q <= voters && |q| >= Quorum(voters) && forall v {:trigger VotedFor(s, v, e, c)} :: v in q ==> VotedFor(s, v, e, c)
  }

  /** A node's counter is the number of voters credited, each of them voted for it
      at the current election epoch, and none of those votes can be counted again. */
  ghost predicate CountSound(voters: set<NodeId>, s: Bus, c: NodeId)
    requires c in s.nodes
  {
    var st := s.nodes[c];
    && Credit(s, c) <= voters
    && st.authCount == |Credit(s, c)|
    && (!st.authSent ==> Credit(s, c) == {})
    && (forall v {:trigger VotedFor(s, v, st.authEpoch, c)} :: v in Credit(s, c) ==> VotedFor(s, v, st.authEpoch, c))
    && (forall m :: m in s.net && m.AuthAck? && m.to == c && m.cur == st.authEpoch ==> m.from !in Credit(s, c))
  }

  ghost predicate PacketSound(voters: set<NodeId>, s: Bus, m: Msg) {
    && (m.AuthAck? ==> m.from in voters && VotedFor(s, m.from, m.cur, m.to))
    && (m.AuthRequest? ==> m.from in s.nodes && m.cur <= s.nodes[m.from].authEpoch)
  }

  predicate SameVote(a: Msg, b: Msg) {
    a.AuthAck? && b.AuthAck? && a.from == b.from && a.cur == b.cur
  }

  ghost predicate VoteSound(s: Bus, k: (NodeId, nat))
    requires k in s.votes
  {
    && k.0 in s.nodes && k.1 <= s.nodes[k.0].lastVoteEpoch
    && s.votes[k] in s.nodes && k.1 <= s.nodes[s.votes[k]].authEpoch
  }

  ghost predicate PacketsSound(voters: set<NodeId>, s: Bus) {
    forall m {:trigger PacketSound(voters, s, m)} :: m in s.net ==> PacketSound(voters, s, m)
  }

  ghost predicate AcksUnique(s: Bus) {
    forall a, b {:trigger SameVote(a, b)} :: a in s.net && b in s.net && SameVote(a, b) ==> a == b
  }

  ghost predicate VotesSound(s: Bus) { forall k {:trigger VoteSound(s, k)} :: k in s.votes ==> VoteSound(s, k) }

  ghost predicate CountsSound(voters: set<NodeId>, s: Bus) {
    forall c {:trigger CountSound(voters, s, c)} :: c in s.nodes ==> CountSound(voters, s, c)
  }

  ghost predicate WinsSound(voters: set<NodeId>, s: Bus) {
    forall w :: w in s.elected ==> exists q :: MajorityFor(voters, s, w.0, w.1, q)
  }

  ghost predicate VotersAreMasters(voters: set<NodeId>, s: Bus) {
    forall v :: v in voters && v in s.nodes ==> !s.nodes[v].slave
  }

  ghost predicate ElectionInv(voters: set<NodeId>, s: Bus) {
    && EpochsOrdered(s) && VotersAreMasters(voters, s)
    && PacketsSound(voters, s) && AcksUnique(s)
    && VotesSound(s) && CountsSound(voters, s) && WinsSound(voters, s)
  }

  // What a step must do to keep each part of the invariant.

  ghost predicate Extends(a: map<(NodeId, nat), NodeId>, b: map<(NodeId, nat), NodeId>) {
    forall k :: k in a ==> k in b && b[k] == a[k]
  }

  /** Vote and election epochs never move backwards. */
  ghost predicate Advances(s: Bus, t: Bus) {
    && s.nodes.Keys == t.nodes.Keys
    && forall n :: n in s.nodes ==>
         && s.nodes[n].lastVoteEpoch <= t.nodes[n].lastVoteEpoch
         && s.nodes[n].authEpoch <= t.nodes[n].authEpoch
  }

  lemma PacketsKept(voters: set<NodeId>, s: Bus, t: Bus)
    requires PacketsSound(voters, s) && Advances(s, t) && Extends(s.votes, t.votes)
    requires forall m :: m in t.net ==> m in s.net || PacketSound(voters, t, m)
    ensures PacketsSound(voters, t)
  {
    forall m | m in t.net ensures PacketSound(voters, t, m) {
      if m in s.net { assert PacketSound(voters, s, m); }
    }
  }

  lemma VotesKept(s: Bus, t: Bus)
    requires VotesSound(s) && Advances(s, t)
    requires forall k :: k in t.votes ==> (k in s.votes && t.votes[k] == s.votes[k]) || VoteSound(t, k)
    ensures VotesSound(t)
  {
    forall k | k in t.votes ensures VoteSound(t, k) {
      if k in s.votes && t.votes[k] == s.votes[k] { assert VoteSound(s, k); }
    }
  }

  lemma WinsKept(voters: set<NodeId>, s: Bus, t: Bus)
    requires WinsSound(voters, s) && Extends(s.votes, t.votes)
    requires forall w :: w in t.elected ==> w in s.elected || exists q :: MajorityFor(voters, t, w.0, w.1, q)
    ensures WinsSound(voters, t)
  {
    forall w | w in t.elected ensures exists q :: MajorityFor(voters, t, w.0, w.1, q) {
      if w in s.elected {
        var q :| MajorityFor(voters, s, w.0, w.1, q);
        forall v | v in q ensures VotedFor(t, v, w.1, w.0) { assert VotedFor(s, v, w.1, w.0); }
        assert MajorityFor(voters, t, w.0, w.1, q);
      }
    }
  }

  /** A node whose election fields and credit are untouched keeps a sound count,
      as long as any new ack comes from somebody it has not credited. */
  lemma CountKept(voters: set<NodeId>, s: Bus, t: Bus, c: NodeId)
    requires c in s.nodes && c in t.nodes && CountSound(voters, s, c)
    requires Extends(s.votes, t.votes) && Credit(t, c) == Credit(s, c)
    requires t.nodes[c].authEpoch == s.nodes[c].authEpoch
    requires t.nodes[c].authCount == s.nodes[c].authCount
    requires t.nodes[c].authSent == s.nodes[c].authSent
    requires forall m :: m in t.net && m.AuthAck? && m.to == c && m.cur == t.nodes[c].authEpoch ==>
               m in s.net || m.from !in Credit(s, c)
    ensures CountSound(voters, t, c)
  {
    forall v | v in Credit(t, c) ensures VotedFor(t, v, t.nodes[c].authEpoch, c) {
      assert VotedFor(s, v, s.nodes[c].authEpoch, c);
    }
  }

  /** Steps that touch no vote, no counter and no win, and send neither request nor ack. */
  ghost predicate Quiet(s: Bus, t: Bus) {
    && s.nodes.Keys == t.nodes.Keys
    && t.votes == s.votes && t.elected == s.elected && t.credited == s.credited
    && (forall n :: n in s.nodes ==> SameElection(s.nodes[n], t.nodes[n]))
    && (forall m :: m in t.net ==> m in s.net || m.Ping? || m.Update?)
  }

  predicate SameElection(a: NodeState, b: NodeState) {
    && a.authEpoch == b.authEpoch && a.authCount == b.authCount
    && a.authSent == b.authSent && a.lastVoteEpoch == b.lastVoteEpoch
  }

  lemma QuietKeeps(voters: set<NodeId>, s: Bus, t: Bus)
    requires ElectionInv(voters, s) && Quiet(s, t)
    requires EpochsOrdered(t) && VotersAreMasters(voters, t)
    ensures ElectionInv(voters, t)
  {
    forall n | n in s.nodes
      ensures s.nodes[n].lastVoteEpoch <= t.nodes[n].lastVoteEpoch && s.nodes[n].authEpoch <= t.nodes[n].authEpoch
    { assert SameElection(s.nodes[n], t.nodes[n]); }
    assert Advances(s, t) && Extends(s.votes, t.votes);
    PacketsKept(voters, s, t);
    VotesKept(s, t);
    WinsKept(voters, s, t);
    forall c | c in t.nodes ensures CountSound(voters, t, c) {
      assert SameElection(s.nodes[c], t.nodes[c]);
      assert Credit(t, c) == Credit(s, c);
      CountKept(voters, s, t, c);
    }
  }

  /** A step of node `n` alone: everybody else's state, and credit, is as before. */
  ghost predicate OnlyNode(s: Bus, t: Bus, n: NodeId) {
    && s.nodes.Keys == t.nodes.Keys
    && (forall k :: k in s.nodes && k != n ==> t.nodes[k] == s.nodes[k] && Credit(t, k) == Credit(s, k))
  }

  /** A granted vote: the voter has not voted in this epoch before, so no vote is overwritten. */
  lemma VoteIsNew(voters: set<NodeId>, s: Bus, m: Msg, permit: bool)
    requires ElectionInv(voters, s) && m in s.net && m.to in s.nodes
    requires m.from in s.nodes[m.to].epochs
    requires GrantsVote(ReceiveHeader(s.nodes[m.to], m.from, m.cur, m.cfg), permit, m.cur)
    ensures ReceiveHeader(s.nodes[m.to], m.from, m.cur, m.cfg).currentEpoch == m.cur
    ensures (m.to, m.cur) !in s.votes
    ensures s.nodes[m.to].lastVoteEpoch < m.cur
    ensures forall p :: p in s.net && p.AuthAck? ==> p.from != m.to || p.cur != m.cur
  {
    assert NodeOrdered(m.to, s.nodes[m.to]) && MsgOrdered(m);
    assert (m.to, m.cur) in s.votes ==> VoteSound(s, (m.to, m.cur));
    forall p | p in s.net && p.AuthAck? ensures p.from != m.to || p.cur != m.cur {
      assert PacketSound(voters, s, p);
    }
  }

  lemma VoteStep(voters: set<NodeId>, s: Bus, m: Msg, permit: bool)
    requires ElectionInv(voters, s) && m in s.net && m.to in s.nodes && m.to in s.nodes[m.to].epochs
    requires m.AuthRequest? && m.from in s.nodes[m.to].epochs && m.to in voters
    requires GrantsVote(ReceiveHeader(s.nodes[m.to], m.from, m.cur, m.cfg), permit, m.cur)
    ensures ElectionInv(voters, Receive(voters, s, m, permit))
    ensures Extends(s.votes, Receive(voters, s, m, permit).votes)
  {
    var me, t := m.to, Receive(voters, s, m, permit);
    VoteIsNew(voters, s, m, permit);
    ReceiveOrdered(voters, s, m, permit);
    assert PacketSound(voters, s, m);
    assert OnlyNode(s, t, me) && Advances(s, t) && Extends(s.votes, t.votes);
    VoteStepParts(voters, s, t, m);
  }

  /** What a voter has counted for itself stays sound when it votes. */
  lemma VoterCountKept(voters: set<NodeId>, s: Bus, t: Bus, m: Msg, c: NodeId)
    requires ElectionInv(voters, s) && c in t.nodes
    requires OnlyNode(s, t, m.to) && Advances(s, t) && m.to in s.nodes
    requires (m.to, m.cur) !in s.votes && t.votes == s.votes[(m.to, m.cur) := m.from] && t.credited == s.credited
    requires t.nodes[m.to].authEpoch == s.nodes[m.to].authEpoch
    requires t.nodes[m.to].authCount == s.nodes[m.to].authCount && t.nodes[m.to].authSent == s.nodes[m.to].authSent
    requires exists cfg :: t.net == s.net + {AuthAck(m.to, m.from, m.cur, cfg)}
    ensures CountSound(voters, t, c)
  {
    assert CountSound(voters, s, c);
    assert Credit(t, c) == Credit(s, c);
    if m.to in Credit(s, c) { assert VotedFor(s, m.to, s.nodes[c].authEpoch, c); }
    CountKept(voters, s, t, c);
  }

  lemma NewAckSound(voters: set<NodeId>, t: Bus, ack: Msg)
    requires ack.AuthAck? && ack.from in voters && VotedFor(t, ack.from, ack.cur, ack.to)
    ensures PacketSound(voters, t, ack)
  {}

  lemma VoteStepParts(voters: set<NodeId>, s: Bus, t: Bus, m: Msg)
    requires ElectionInv(voters, s) && EpochsOrdered(t) && VotersAreMasters(voters, t)
    requires OnlyNode(s, t, m.to) && Advances(s, t) && m.to in s.nodes && m.to in voters
    requires (m.to, m.cur) !in s.votes && t.votes == s.votes[(m.to, m.cur) := m.from]
    requires m.from in t.nodes && m.cur <= t.nodes[m.to].lastVoteEpoch && m.cur <= t.nodes[m.from].authEpoch
    requires t.credited == s.credited && t.elected == s.elected
    requires t.nodes[m.to].authEpoch == s.nodes[m.to].authEpoch
    requires t.nodes[m.to].authCount == s.nodes[m.to].authCount && t.nodes[m.to].authSent == s.nodes[m.to].authSent
    requires forall p :: p in s.net && p.AuthAck? ==> p.from != m.to || p.cur != m.cur
    requires exists cfg :: t.net == s.net + {AuthAck(m.to, m.from, m.cur, cfg)}
    ensures ElectionInv(voters, t)
  {
    var cfg :| t.net == s.net + {AuthAck(m.to, m.from, m.cur, cfg)};
    var ack := AuthAck(m.to, m.from, m.cur, cfg);
    assert Extends(s.votes, t.votes);
    NewAckSound(voters, t, ack);
    PacketsKept(voters, s, t);
    VotesKept(s, t);
    WinsKept(voters, s, t);
    forall c | c in t.nodes ensures CountSound(voters, t, c) {
      VoterCountKept(voters, s, t, m, c);
    }
  }

  /** A counted ack was cast at exactly the receiver's election epoch and is new. */
  lemma CountedAckIsCurrent(voters: set<NodeId>, s: Bus, m: Msg)
    requires ElectionInv(voters, s) && m in s.net && m.AuthAck? && m.to in s.nodes
    requires m.cur >= s.nodes[m.to].authEpoch
    ensures m.cur == s.nodes[m.to].authEpoch && m.from in voters
    ensures VotedFor(s, m.from, m.cur, m.to) && m.from !in Credit(s, m.to)
  {
    assert PacketSound(voters, s, m);
    assert VoteSound(s, (m.from, m.cur));
    assert CountSound(voters, s, m.to);
  }

  lemma CountStep(voters: set<NodeId>, s: Bus, m: Msg, permit: bool)
    requires ElectionInv(voters, s) && m in s.net && m.to in s.nodes && m.to in s.nodes[m.to].epochs
    requires m.AuthAck? && m.from in s.nodes[m.to].epochs && s.nodes[m.to].authSent
    requires CountsAck(ReceiveHeader(s.nodes[m.to], m.from, m.cur, m.cfg), m.from in voters, m.cur)
    ensures ElectionInv(voters, Receive(voters, s, m, permit))
    ensures Extends(s.votes, Receive(voters, s, m, permit).votes)
  {
    var me, t := m.to, Receive(voters, s, m, permit);
    CountedAckIsCurrent(voters, s, m);
    ReceiveOrdered(voters, s, m, permit);
    assert OnlyNode(s, t, me) && Advances(s, t) && Extends(s.votes, t.votes);
    CountStepParts(voters, s, t, m);
  }

  lemma CountStepParts(voters: set<NodeId>, s: Bus, t: Bus, m: Msg)
    requires ElectionInv(voters, s) && EpochsOrdered(t) && VotersAreMasters(voters, t)
    requires OnlyNode(s, t, m.to) && Advances(s, t)
    requires m in s.net && m.AuthAck? && m.to in s.nodes && s.nodes[m.to].authSent
    requires m.cur == s.nodes[m.to].authEpoch && m.from in voters
    requires VotedFor(s, m.from, m.cur, m.to) && m.from !in Credit(s, m.to)
    requires t.votes == s.votes && t.elected == s.elected && t.net == s.net - {m}
    requires Credit(t, m.to) == Credit(s, m.to) + {m.from}
    requires t.nodes[m.to].authEpoch == s.nodes[m.to].authEpoch && t.nodes[m.to].authSent
    requires t.nodes[m.to].authCount == s.nodes[m.to].authCount + 1
    ensures ElectionInv(voters, t)
  {
    PacketsKept(voters, s, t);
    VotesKept(s, t);
    WinsKept(voters, s, t);
    assert CountSound(voters, t, m.to) by {
      assert CountSound(voters, s, m.to);
      forall p | p in t.net && p.AuthAck? && p.to == m.to && p.cur == t.nodes[m.to].authEpoch
        ensures p.from !in Credit(t, m.to)
      { assert p in s.net && p != m && !SameVote(p, m); }
      forall v | v in Credit(t, m.to) ensures VotedFor(t, v, t.nodes[m.to].authEpoch, m.to) {
        assert v in Credit(s, m.to) ==> VotedFor(s, v, s.nodes[m.to].authEpoch, m.to);
      }
    }
    forall c | c in t.nodes ensures CountSound(voters, t, c) {
      if c != m.to { CountKept(voters, s, t, c); }
    }
  }

  lemma ReceiveStep(voters: set<NodeId>, s: Bus, m: Msg, permit: bool)
    requires ElectionInv(voters, s) && Enabled(voters, s, Deliver(m, permit))
    requires !AckInWindow(voters, s, Deliver(m, permit))
    ensures ElectionInv(voters, Receive(voters, s, m, permit))
    ensures Extends(s.votes, Receive(voters, s, m, permit).votes)
  {
    var me := m.to;
    var st := ReceiveHeader(s.nodes[me], m.from, m.cur, m.cfg);
    if m.AuthRequest? && m.from in s.nodes[me].epochs && me in voters && GrantsVote(st, permit, m.cur) {
      VoteStep(voters, s, m, permit);
    } else if m.AuthAck? && m.from in s.nodes[me].epochs && CountsAck(st, m.from in voters, m.cur) {
      CountStep(voters, s, m, permit);
    } else {
      QuietReceive(voters, s, m, permit);
    }
  }

  lemma QuietReceive(voters: set<NodeId>, s: Bus, m: Msg, permit: bool)
    requires ElectionInv(voters, s) && Enabled(voters, s, Deliver(m, permit))
    requires var st := ReceiveHeader(s.nodes[m.to], m.from, m.cur, m.cfg);
      && !(m.AuthRequest? && m.from in s.nodes[m.to].epochs && m.to in voters && GrantsVote(st, permit, m.cur))
      && !(m.AuthAck? && m.from in s.nodes[m.to].epochs && CountsAck(st, m.from in voters, m.cur))
    ensures ElectionInv(voters, Receive(voters, s, m, permit))
    ensures Extends(s.votes, Receive(voters, s, m, permit).votes)
  {
    ReceiveOrdered(voters, s, m, permit);
    assert Quiet(s, Receive(voters, s, m, permit));
    QuietKeeps(voters, s, Receive(voters, s, m, permit));
  }

  lemma ScheduleStep(voters: set<NodeId>, s: Bus, n: NodeId)
    requires ElectionInv(voters, s) && Enabled(voters, s, Schedule(n))
    ensures ElectionInv(voters, Next(voters, s, Schedule(n)))
  {
    var t := Next(voters, s, Schedule(n));
    EpochsOrderedStep(voters, s, Schedule(n));
    assert OnlyNode(s, t, n) && Advances(s, t);
    PacketsKept(voters, s, t);
    VotesKept(s, t);
    WinsKept(voters, s, t);
    assert CountSound(voters, t, n);
    forall c | c in t.nodes ensures CountSound(voters, t, c) {
      if c != n { CountKept(voters, s, t, c); }
    }
  }

  lemma RequestStep(voters: set<NodeId>, s: Bus, n: NodeId, all: set<NodeId>)
    requires ElectionInv(voters, s) && Enabled(voters, s, Request(n, all))
    ensures ElectionInv(voters, Next(voters, s, Request(n, all)))
  {
    var t := Next(voters, s, Request(n, all));
    EpochsOrderedStep(voters, s, Request(n, all));
    assert NodeOrdered(n, s.nodes[n]) && CountSound(voters, s, n);
    assert OnlyNode(s, t, n) && Advances(s, t);
    PacketsKept(voters, s, t);
    VotesKept(s, t);
    WinsKept(voters, s, t);
    assert CountSound(voters, t, n);
    forall c | c in t.nodes ensures CountSound(voters, t, c) {
      if c != n { CountKept(voters, s, t, c); }
    }
  }

  lemma WinnerHasMajority(voters: set<NodeId>, s: Bus, t: Bus, n: NodeId)
    requires ElectionInv(voters, s) && Enabled(voters, s, Win(n)) && t == Next(voters, s, Win(n))
    ensures MajorityFor(voters, t, n, s.nodes[n].authEpoch, Credit(s, n))
  {
    assert CountSound(voters, s, n);
    forall v | v in Credit(s, n) ensures VotedFor(t, v, s.nodes[n].authEpoch, n) {
      assert VotedFor(s, v, s.nodes[n].authEpoch, n);
    }
  }

  lemma WinStep(voters: set<NodeId>, s: Bus, n: NodeId)
    requires ElectionInv(voters, s) && Enabled(voters, s, Win(n))
    ensures ElectionInv(voters, Next(voters, s, Win(n)))
  {
    var t := Next(voters, s, Win(n));
    EpochsOrderedStep(voters, s, Win(n));
    assert CountSound(voters, s, n);
    assert OnlyNode(s, t, n) && Advances(s, t);
    PacketsKept(voters, s, t);
    VotesKept(s, t);
    WinnerHasMajority(voters, s, t, n);
    WinsKept(voters, s, t);
    forall c | c in t.nodes ensures CountSound(voters, t, c) {
      CountKept(voters, s, t, c);
    }
  }

  lemma QuietStep(voters: set<NodeId>, s: Bus, e: Event)
    requires ElectionInv(voters, s) && Enabled(voters, s, e)
    requires !e.Deliver? && !e.Schedule? && !e.Request? && !e.Win?
    ensures ElectionInv(voters, Next(voters, s, e)) && Extends(s.votes, Next(voters, s, e).votes)
  {
    EpochsOrderedStep(voters, s, e);
    assert Quiet(s, Next(voters, s, e));
    QuietKeeps(voters, s, Next(voters, s, e));
  }

  lemma ElectionStep(voters: set<NodeId>, s: Bus, e: Event)
    requires ElectionInv(voters, s) && Enabled(voters, s, e) && !AckInWindow(voters, s, e)
    ensures ElectionInv(voters, Next(voters, s, e))
    ensures Extends(s.votes, Next(voters, s, e).votes)
  {
    match e
    case Deliver(m, permit) => ReceiveStep(voters, s, m, permit);
    case Schedule(n) => ScheduleStep(voters, s, n);
    case Request(n, all) => RequestStep(voters, s, n, all);
    case Win(n) => WinStep(voters, s, n);
    case _ => QuietStep(voters, s, e);
  }

  lemma {:induction false} ElectionInvAlways(voters: set<NodeId>, s: Bus, es: seq<Event>, t: Bus)
    requires ElectionInv(voters, s) && CleanRun(voters, s, es, t)
    ensures ElectionInv(voters, t)
    ensures Extends(s.votes, t.votes)
    decreases |es|
  {
    if es != [] {
      ElectionStep(voters, s, es[0]);
      ElectionInvAlways(voters, Next(voters, s, es[0]), es[1..], t);
    }
  }

  lemma InitElection(voters: set<NodeId>, s: Bus)
    requires Init(voters, s)
    ensures ElectionInv(voters, s)
  {
    forall c | c in s.nodes ensures CountSound(voters, s, c) {}
  }

  lemma QuorumsMeet(voters: set<NodeId>, p: set<NodeId>, q: set<NodeId>)
    requires p <= voters && q <= voters && |p| >= Quorum(voters) && |q| >= Quorum(voters)
    ensures exists v :: v in p && v in q
  {
    if p * q == {} {
      assert |p + q| == |p| + |q|;
      SubsetSize(p + q, voters);
    } else {
      var v :| v in p * q;
    }
  }

  lemma {:induction false} SubsetSize(a: set<NodeId>, b: set<NodeId>)
    requires a <= b
    ensures |a| <= |b|
  {
    assert b == a + (b - a);
    assert a * (b - a) == {};
  }

  /** Election safety: on every run with a fixed set of voting masters in which no
      countable ack lands between a counter reset and the next request, at most
      one slave is ever elected for a given epoch. */
  lemma ElectionSafety(voters: set<NodeId>, s: Bus, es: seq<Event>, t: Bus, a: NodeId, b: NodeId, e: nat)
    requires Init(voters, s) && CleanRun(voters, s, es, t)
    requires (a, e) in t.elected && (b, e) in t.elected
    ensures a == b
  {
    InitElection(voters, s);
    ElectionInvAlways(voters, s, es, t);
    var w1, w2 := (a, e), (b, e);
    assert w1 in t.elected && w2 in t.elected;
    var p :| MajorityFor(voters, t, w1.0, w1.1, p);
    var q :| MajorityFor(voters, t, w2.0, w2.1, q);
    QuorumsMeet(voters, p, q);
    var v :| v in p && v in q;
    assert VotedFor(t, v, e, a) && VotedFor(t, v, e, b);
  }

  // ------------------------------------- the hypothesis cannot be left out

  lemma {:induction false} RunThen(voters: set<NodeId>, s: Bus, es: seq<Event>, t: Bus, e: Event)
    requires Run(voters, s, es, t) && Enabled(voters, t, e)
    ensures Run(voters, s, es + [e], Next(voters, t, e))
    decreases |es|
  {
    if es == [] {
      assert [e][1..] == [];
    } else {
      RunThen(voters, Next(voters, s, es[0]), es[1..], t, e);
      assert (es + [e])[1..] == es[1..] + [e];
    }
  }

  const VOTERS: set<NodeId> := {1, 2, 3}

  /** Three masters and two slaves, 10 and 20, all at epoch zero. */
  function Fresh(slave: bool): NodeState {
    NodeState(0, 0, 0, 0, false, slave, if slave then Some(3) else None,
              map[1 := 0, 2 := 0, 3 := 0, 10 := 0, 20 := 0])
  }

  ghost function SmallCluster(): Bus {
    Bus(map[1 := Fresh(false), 2 := Fresh(false), 3 := Fresh(false), 10 := Fresh(true), 20 := Fresh(true)],
        {}, map[], map[], {})
  }

  /** The state reached by extending a run with one event. */
  ghost predicate After(es: seq<Event>, t: Bus, es': seq<Event>, t': Bus) {
    Run(VOTERS, SmallCluster(), es, t) ==> Run(VOTERS, SmallCluster(), es', t')
  }

  lemma Then(es: seq<Event>, t: Bus, e: Event)
    requires Enabled(VOTERS, t, e)
    ensures After(es, t, es + [e], Next(VOTERS, t, e))
  {
    if Run(VOTERS, SmallCluster(), es, t) { RunThen(VOTERS, SmallCluster(), es, t, e); }
  }

  predicate ZeroEpochs(st: NodeState) {
    st.epochs == map[1 := 0, 2 := 0, 3 := 0, 10 := 0, 20 := 0]
  }

  lemma CastVote(es: seq<Event>, t: Bus, v: NodeId, c: NodeId, e: nat) returns (es': seq<Event>, t': Bus)
    requires v in VOTERS && (c == 10 || c == 20) && v in t.nodes && AuthRequest(c, v, e, 0) in t.net
    requires ZeroEpochs(t.nodes[v]) && !t.nodes[v].slave
    requires t.nodes[v].currentEpoch <= e && t.nodes[v].lastVoteEpoch < e
    ensures After(es, t, es', t') && t'.elected == t.elected
    ensures t'.nodes == t.nodes[v := t.nodes[v].(currentEpoch := e, lastVoteEpoch := e)]
    ensures t'.net == t.net + {AuthAck(v, c, e, 0)}
  {
    var ev := Deliver(AuthRequest(c, v, e, 0), true);
    Then(es, t, ev);
    es', t' := es + [ev], Next(VOTERS, t, ev);
  }

  lemma TakeAck(es: seq<Event>, t: Bus, v: NodeId, c: NodeId, e: nat) returns (es': seq<Event>, t': Bus)
    requires v in VOTERS && (c == 10 || c == 20) && c in t.nodes && AuthAck(v, c, e, 0) in t.net
    requires ZeroEpochs(t.nodes[c]) && t.nodes[c].authEpoch <= e <= t.nodes[c].currentEpoch
    ensures After(es, t, es', t') && t'.elected == t.elected
    ensures t'.nodes == t.nodes[c := t.nodes[c].(authCount := t.nodes[c].authCount + 1)]
    ensures t'.net == t.net - {AuthAck(v, c, e, 0)}
  {
    var ev := Deliver(AuthAck(v, c, e, 0), true);
    Then(es, t, ev);
    es', t' := es + [ev], Next(VOTERS, t, ev);
  }

  lemma AskVotes(es: seq<Event>, t: Bus, c: NodeId, e: nat) returns (es': seq<Event>, t': Bus)
    requires c in t.nodes && t.nodes[c].slave && !t.nodes[c].authSent && (c == 10 || c == 20)
    requires ZeroEpochs(t.nodes[c]) && t.nodes[c].currentEpoch + 1 == e
    ensures After(es, t, es', t') && t'.elected == t.elected
    ensures t'.nodes == t.nodes[c := t.nodes[c].(currentEpoch := e, authEpoch := e, authSent := true)]
    ensures t'.net == t.net + {AuthRequest(c, 1, e, 0), AuthRequest(c, 2, e, 0)}
  {
    var ev := Request(c, {1, 2});
    Then(es, t, ev);
    es', t' := es + [ev], Next(VOTERS, t, ev);
    assert Requests(c, t'.nodes[c], {1, 2}) == {AuthRequest(c, 1, e, 0), AuthRequest(c, 2, e, 0)};
  }

  lemma TakeOffice(es: seq<Event>, t: Bus, c: NodeId, e: nat) returns (es': seq<Event>, t': Bus)
    requires c in t.nodes && t.nodes[c].slave && t.nodes[c].authSent && (c == 10 || c == 20)
    requires t.nodes[c].authCount == 2 && t.nodes[c].authEpoch == e && ZeroEpochs(t.nodes[c])
    ensures After(es, t, es', t') && t'.elected == t.elected + {(c, e)}
    ensures t'.nodes.Keys == t.nodes.Keys && forall n :: n in t.nodes && n != c ==> t'.nodes[n] == t.nodes[n]
    ensures t'.net == t.net
  {
    assert |VOTERS| == 3;
    var ev := Win(c);
    Then(es, t, ev);
    es', t' := es + [ev], Next(VOTERS, t, ev);
  }

  /** The acks of epoch 1 reach slave 10 after it has reset its counter, so it wins
      epoch 2 without a single vote cast at that epoch. */
  lemma WinsOnOldAcks() returns (es: seq<Event>, t: Bus)
    ensures Run(VOTERS, SmallCluster(), es, t) && (10, 2) in t.elected
    ensures 20 in t.nodes && 1 in t.nodes && 2 in t.nodes && t.nodes[20] == Fresh(true)
    ensures t.nodes[1] == t.nodes[2] == Fresh(false).(currentEpoch := 1, lastVoteEpoch := 1)
  {
    es, t := [], SmallCluster();
    es, t := AskVotes(es, t, 10, 1);
    es, t := CastVote(es, t, 1, 10, 1);
    es, t := CastVote(es, t, 2, 10, 1);
    Then(es, t, Schedule(10));
    es, t := es + [Schedule(10)], Next(VOTERS, t, Schedule(10));
    assert AckInWindow(VOTERS, t, Deliver(AuthAck(1, 10, 1, 0), true));
    es, t := TakeAck(es, t, 1, 10, 1);
    es, t := TakeAck(es, t, 2, 10, 1);
    es, t := AskVotes(es, t, 10, 2);
    es, t := TakeOffice(es, t, 10, 2);
  }

  lemma HearPing(es: seq<Event>, t: Bus) returns (es': seq<Event>, t': Bus)
    requires 1 in t.nodes && 20 in t.nodes && t.nodes[20] == Fresh(true)
    requires t.nodes[1] == Fresh(false).(currentEpoch := 1, lastVoteEpoch := 1)
    ensures After(es, t, es', t') && t'.elected == t.elected
    ensures t'.nodes == t.nodes[20 := Fresh(true).(currentEpoch := 1)]
  {
    Then(es, t, SendPing(1, 20));
    var u, hello := Next(VOTERS, t, SendPing(1, 20)), Deliver(Ping(1, 20, 1, 0), true);
    Then(es + [SendPing(1, 20)], u, hello);
    es', t' := es + [SendPing(1, 20)] + [hello], Next(VOTERS, u, hello);
  }

  lemma FreshOrdered(n: NodeId, slave: bool)
    requires n in Fresh(slave).epochs
    ensures NodeOrdered(n, Fresh(slave))
  {}

  lemma SmallClusterAtRest()
    ensures Init(VOTERS, SmallCluster())
  {
    var s := SmallCluster();
    assert s.nodes.Keys == {1, 2, 3, 10, 20};
    forall n | n in s.nodes
      ensures NodeOrdered(n, s.nodes[n]) && s.nodes[n].authCount == 0 && !s.nodes[n].authSent
    {
      assert s.nodes[n] == Fresh(n >= 10);
      FreshOrdered(n, n >= 10);
    }
  }

  /** Without that hypothesis election safety fails: from a cluster at rest this run
      elects slaves 10 and 20 for the same epoch. */
  lemma WindowBreaksElectionSafety() returns (es: seq<Event>, t: Bus)
    ensures Init(VOTERS, SmallCluster()) && Run(VOTERS, SmallCluster(), es, t)
    ensures (10, 2) in t.elected && (20, 2) in t.elected
  {
    SmallClusterAtRest();
    es, t := WinsOnOldAcks();
    es, t := HearPing(es, t);
    es, t := AskVotes(es, t, 20, 2);
    es, t := CastVote(es, t, 1, 20, 2);
    es, t := CastVote(es, t, 2, 20, 2);
    es, t := TakeAck(es, t, 1, 20, 2);
    es, t := TakeAck(es, t, 2, 20, 2);
    es, t := TakeOffice(es, t, 20, 2);
  }
}
