/**
 What a packet teaches a node, and what winning an election is worth: the configEpoch the
 winner announces, and whether it outranks the master it replaces.
 */
module ElectionOutcome {
  import opened Basics
  import opened ClusterBus

  // ----------------------------------------------------------------- packets

  lemma HeaderRaises(st: NodeState, from: NodeId, cur: nat, cfg: nat)
    requires from in st.epochs
    ensures var t := ReceiveHeader(st, from, cur, cfg);
            && t.currentEpoch == (if cur > st.currentEpoch then cur else st.currentEpoch)
            && t.epochs == st.epochs[from := if cfg > st.epochs[from] then cfg else st.epochs[from]]
            && t.lastVoteEpoch == st.lastVoteEpoch && t.authEpoch == st.authEpoch && t.authCount == st.authCount
            && t.authSent == st.authSent && t.slave == st.slave && t.slaveof == st.slaveof
  {
    assert st.epochs[from := st.epochs[from]] == st.epochs;
  }

  /** What handling a packet leaves of the epochs, apart from the vote and the count. */
  lemma DeliveryEpochs(voters: set<NodeId>, s: Bus, m: Msg, permit: bool)
    requires Enabled(voters, s, Deliver(m, permit)) && m.from in s.nodes[m.to].epochs
    ensures var h, t := ReceiveHeader(s.nodes[m.to], m.from, m.cur, m.cfg), Next(voters, s, Deliver(m, permit)).nodes[m.to];
            && t.authEpoch == h.authEpoch
            && ((t.epochs == h.epochs && t.currentEpoch == h.currentEpoch)
                || t == Mint(h, m.to)
                || (m.Update? && t == ReceiveUpdate(h, m.about, m.aboutEpoch)))
  {}

  /** After a packet from a known node its epochs are known, and no epoch goes back. */
  lemma HeaderIsKnown(voters: set<NodeId>, s: Bus, m: Msg, permit: bool)
    requires Enabled(voters, s, Deliver(m, permit)) && m.from in s.nodes[m.to].epochs && EpochsOrdered(s)
    ensures var st, t := s.nodes[m.to], Next(voters, s, Deliver(m, permit)).nodes[m.to];
            && t.currentEpoch >= m.cur && t.epochs.Keys == st.epochs.Keys && t.epochs[m.from] >= m.cfg
            && t.currentEpoch >= st.currentEpoch
            && forall k :: k in st.epochs ==> st.epochs[k] <= t.epochs[k]
  {
    assert NodeOrdered(m.to, s.nodes[m.to]) && MsgOrdered(m);
    HeaderRaises(s.nodes[m.to], m.from, m.cur, m.cfg);
    DeliveryEpochs(voters, s, m, permit);
  }

  /** A packet from a node that is not known teaches nothing. */
  lemma StrangerIsIgnored(voters: set<NodeId>, s: Bus, m: Msg, permit: bool)
    requires Enabled(voters, s, Deliver(m, permit)) && m.from !in s.nodes[m.to].epochs
    ensures Next(voters, s, Deliver(m, permit)).nodes == s.nodes
  {}

  /** An UPDATE about a known node raises its epoch to the one it carries, and never lowers it. */
  lemma UpdateIsKnown(voters: set<NodeId>, s: Bus, m: Msg, permit: bool)
    requires Enabled(voters, s, Deliver(m, permit)) && m.Update? && m.from in s.nodes[m.to].epochs
    requires m.about in s.nodes[m.to].epochs && m.about != m.from
    ensures var st, t := s.nodes[m.to], Next(voters, s, Deliver(m, permit)).nodes[m.to];
            m.about in t.epochs && t.epochs[m.about] == if m.aboutEpoch > st.epochs[m.about] then m.aboutEpoch else st.epochs[m.about]
  {}

  /** A quorum is the least majority. */
  lemma QuorumIsMajority(voters: set<NodeId>)
    ensures 2 * Quorum(voters) > |voters| && 2 * (Quorum(voters) - 1) <= |voters|
  {}

  /** A slave announces its master's epoch, a master its own. */
  lemma AnnouncedIs(st: NodeState, me: NodeId, master: NodeId)
    requires me in st.epochs && master in st.epochs
    ensures st.slave && st.slaveof == Some(master) ==> AnnouncedEpoch(st, me) == st.epochs[master]
    ensures !st.slave || st.slaveof == None ==> AnnouncedEpoch(st, me) == st.epochs[me]
  {}

  // -------------------------------------------------------------- the winner

  /** The winner becomes a master that announces the epoch of its election, unless its own is
      greater already; it forgets and learns nothing else, and nobody else changes. */
  lemma WinnerTakesEpoch(voters: set<NodeId>, s: Bus, n: NodeId)
    requires Enabled(voters, s, Win(n))
    ensures var st, t := s.nodes[n], Next(voters, s, Win(n));
            && n in t.nodes && n in t.nodes[n].epochs && !t.nodes[n].slave && t.nodes[n].slaveof == None
            && AnnouncedEpoch(t.nodes[n], n) == (if st.epochs[n] < st.authEpoch then st.authEpoch else st.epochs[n])
            && t.nodes[n].currentEpoch == st.currentEpoch && t.nodes[n].epochs.Keys == st.epochs.Keys
            && (forall k :: k in st.epochs && k != n ==> t.nodes[n].epochs[k] == st.epochs[k])
            && (forall k :: k in s.nodes && k != n ==> k in t.nodes && t.nodes[k] == s.nodes[k])
            && t.net == s.net && t.votes == s.votes && t.elected == s.elected + {(n, st.authEpoch)}
  {}

  /** It outranks a node it knows iff that node's epoch is below its own or below the election's. */
  lemma WinnerOutranksIff(voters: set<NodeId>, s: Bus, n: NodeId, m: NodeId)
    requires Enabled(voters, s, Win(n)) && m != n && m in s.nodes[n].epochs
    ensures var t := Next(voters, s, Win(n)).nodes[n];
            m in t.epochs && (AnnouncedEpoch(t, n) > t.epochs[m] <==>
              s.nodes[n].epochs[m] < s.nodes[n].authEpoch || s.nodes[n].epochs[m] < s.nodes[n].epochs[n])
  {
    WinnerTakesEpoch(voters, s, n);
  }

  // ------------------------------------------- from the request to the victory

  /** The packet tells `n` that `m` has an epoch not below that of n's election. */
  predicate News(s: Bus, e: Event, n: NodeId, m: NodeId)
    requires n in s.nodes
  {
    e.Deliver? && e.m.to == n &&
      ((e.m.from == m && e.m.cfg >= s.nodes[n].authEpoch)
       || (e.m.Update? && e.m.about == m && e.m.aboutEpoch >= s.nodes[n].authEpoch))
  }

  /** One election of `n`: no further request, and no such news of `m`. */
  ghost predicate Undisturbed(voters: set<NodeId>, s: Bus, es: seq<Event>, n: NodeId, m: NodeId)
    decreases |es|
  {
    es != [] && Enabled(voters, s, es[0]) && n in s.nodes ==>
      && !(es[0].Request? && es[0].n == n) && !News(s, es[0], n, m)
      && Undisturbed(voters, Next(voters, s, es[0]), es[1..], n, m)
  }

  /** What `n` knows of `m` is older than n's election. */
  predicate Below(s: Bus, n: NodeId, m: NodeId) {
    && n in s.nodes && s.nodes[n].authEpoch > 0
    && (m in s.nodes[n].epochs ==> s.nodes[n].epochs[m] < s.nodes[n].authEpoch)
  }

  lemma DeliveryStaysBelow(voters: set<NodeId>, s: Bus, msg: Msg, permit: bool, n: NodeId, m: NodeId)
    requires Enabled(voters, s, Deliver(msg, permit)) && Below(s, n, m) && m != n && !News(s, Deliver(msg, permit), n, m)
    ensures var t := Next(voters, s, Deliver(msg, permit)); Below(t, n, m) && t.nodes[n].authEpoch == s.nodes[n].authEpoch
  {
    if msg.to == n {
      if msg.from in s.nodes[n].epochs {
        HeaderRaises(s.nodes[n], msg.from, msg.cur, msg.cfg);
        DeliveryEpochs(voters, s, msg, permit);
      } else {
        StrangerIsIgnored(voters, s, msg, permit);
      }
    } else {
      OthersKeepState(voters, s, msg, permit, n);
    }
  }

  lemma OthersKeepState(voters: set<NodeId>, s: Bus, msg: Msg, permit: bool, n: NodeId)
    requires Enabled(voters, s, Deliver(msg, permit)) && n in s.nodes && n != msg.to
    ensures var t := Next(voters, s, Deliver(msg, permit)); n in t.nodes && t.nodes[n] == s.nodes[n]
  {}

  lemma StepStaysBelow(voters: set<NodeId>, s: Bus, e: Event, n: NodeId, m: NodeId)
    requires Enabled(voters, s, e) && Below(s, n, m) && m != n && !News(s, e, n, m) && !(e.Request? && e.n == n)
    ensures Below(Next(voters, s, e), n, m) && Next(voters, s, e).nodes[n].authEpoch == s.nodes[n].authEpoch
  {
    if e.Deliver? { DeliveryStaysBelow(voters, s, e.m, e.permit, n, m); }
  }

  lemma {:induction false} ElectionStaysBelow(voters: set<NodeId>, s: Bus, es: seq<Event>, t: Bus, n: NodeId, m: NodeId)
    requires Run(voters, s, es, t) && Below(s, n, m) && m != n && Undisturbed(voters, s, es, n, m)
    ensures Below(t, n, m) && t.nodes[n].authEpoch == s.nodes[n].authEpoch
    decreases |es|
  {
    if es != [] {
      StepStaysBelow(voters, s, es[0], n, m);
      ElectionStaysBelow(voters, Next(voters, s, es[0]), es[1..], t, n, m);
    }
  }

  /** Wherever a run has led: a slave that asks for votes, and wins before it hears that its master
      has an epoch as great as that of the election, announces a greater one than its master. */
  lemma WinnerOutranksMaster(voters: set<NodeId>, start: Bus, before: seq<Event>, s: Bus, all: set<NodeId>,
                             es: seq<Event>, t: Bus, n: NodeId, m: NodeId)
    requires Init(voters, start) && Run(voters, start, before, s) && Enabled(voters, s, Request(n, all))
    requires Run(voters, Next(voters, s, Request(n, all)), es, t) && m != n
    requires Undisturbed(voters, Next(voters, s, Request(n, all)), es, n, m)
    requires Enabled(voters, t, Win(n)) && t.nodes[n].slaveof == Some(m) && m in t.nodes[n].epochs
    ensures var u := Next(voters, t, Win(n)).nodes[n];
            m in u.epochs && AnnouncedEpoch(u, n) > u.epochs[m] && AnnouncedEpoch(u, n) > s.nodes[n].currentEpoch
  {
    EpochsOrderedAlways(voters, start, before, s);
    assert NodeOrdered(n, s.nodes[n]);
    var r := Next(voters, s, Request(n, all));
    assert r.nodes[n].authEpoch == s.nodes[n].currentEpoch + 1;
    ElectionStaysBelow(voters, r, es, t, n, m);
    WinnerTakesEpoch(voters, t, n);
  }

  // -------------------------------------------- the hypothesis cannot be left out

  /** Master 3 takes a new epoch and tells slave 10, which has its votes already. */
  lemma HearMaster(es: seq<Event>, t: Bus) returns (es': seq<Event>, t': Bus)
    requires 3 in t.nodes && 10 in t.nodes && t.nodes[3] == Fresh(false)
    requires ZeroEpochs(t.nodes[10]) && t.nodes[10].currentEpoch == 1
    ensures After(es, t, es', t')
    ensures t'.nodes.Keys == t.nodes.Keys
    ensures t'.nodes[10] == t.nodes[10].(epochs := t.nodes[10].epochs[3 := 1])
  {
    var u := Next(VOTERS, t, Bump(3));
    Then(es, t, Bump(3));
    assert u.nodes[3].currentEpoch == 1 && u.nodes[3].epochs[3] == 1;
    var w := Next(VOTERS, u, SendPing(3, 10));
    Then(es + [Bump(3)], u, SendPing(3, 10));
    var hello := Deliver(Ping(3, 10, 1, 1), true);
    Then(es + [Bump(3)] + [SendPing(3, 10)], w, hello);
    es', t' := es + [Bump(3)] + [SendPing(3, 10)] + [hello], Next(VOTERS, w, hello);
  }

  /** From a cluster at rest: a slave is elected for epoch 1 when its master has taken epoch 1
      for itself, and does not outrank it. */
  lemma NewsOutranksWinner() returns (es: seq<Event>, t: Bus)
    ensures Init(VOTERS, SmallCluster()) && Run(VOTERS, SmallCluster(), es, t)
    ensures Enabled(VOTERS, t, Win(10)) && t.nodes[10].slaveof == Some(3) && t.nodes[10].authEpoch == 1
    ensures var u := Next(VOTERS, t, Win(10)).nodes[10]; 3 in u.epochs && 10 in u.epochs && AnnouncedEpoch(u, 10) == u.epochs[3]
  {
    SmallClusterAtRest();
    es, t := [], SmallCluster();
    es, t := AskVotes(es, t, 10, 1);
    es, t := CastVote(es, t, 1, 10, 1);
    es, t := CastVote(es, t, 2, 10, 1);
    es, t := TakeAck(es, t, 1, 10, 1);
    es, t := TakeAck(es, t, 2, 10, 1);
    es, t := HearMaster(es, t);
    assert |VOTERS| == 3;
    WinnerTakesEpoch(VOTERS, t, 10);
  }
}
