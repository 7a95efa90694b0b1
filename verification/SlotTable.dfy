/**
 The slot table of a cluster node: who owns each of the 16384 hash slots, which
 slots are being imported or migrated, and every operation that changes them.
 */
module SlotTable {
  import opened Basics

  function Count(bits: seq<bool>): nat {
    if bits == [] then 0 else (if bits[0] then 1 else 0) + Count(bits[1..])
  }

  lemma {:induction false} CountUpdate(bits: seq<bool>, j: nat, b: bool)
    requires j < |bits|
    ensures Count(bits[j := b]) == Count(bits) - (if bits[j] then 1 else 0) + (if b then 1 else 0)
    decreases |bits|
  {
    if j == 0 {
      assert bits[0 := b][1..] == bits[1..];
    } else {
      assert bits[j := b][1..] == bits[1..][j - 1 := b];
      CountUpdate(bits[1..], j - 1, b);
    }
  }

  lemma {:induction false} CountZero(bits: seq<bool>)
    ensures Count(bits) == 0 <==> forall j :: 0 <= j < |bits| ==> !bits[j]
    decreases |bits|
  {
    if bits != [] {
      CountZero(bits[1..]);
      assert forall j :: 0 < j < |bits| ==> bits[j] == bits[1..][j - 1];
      assert forall j :: 0 <= j < |bits| - 1 ==> bits[1..][j] == bits[j + 1];
    }
  }

  // ------------------------------------------------------------------ claims

  /** What a master's PING or PONG says: its name, epoch and slots. */
  datatype Claim = Claim(sender: nat, epoch: nat, bits: seq<bool>)

  datatype Owner = Free | By(name: nat, epoch: nat)

  /** Every master keeps to one epoch and one set of slots, and no two share an epoch. */
  ghost predicate Fixed(cs: seq<Claim>) {
    && (forall i :: 0 <= i < |cs| ==> |cs[i].bits| == SLOTS)
    && (forall i, j :: 0 <= i < |cs| && 0 <= j < |cs| ==>
          (cs[i].sender == cs[j].sender <==> cs[i].epoch == cs[j].epoch) &&
          (cs[i].sender == cs[j].sender ==> cs[i].bits == cs[j].bits))
  }

  /** The owner is the claimant of slot `k` with the greatest epoch, if there is one. */
  ghost predicate Wins(cs: seq<Claim>, k: nat, o: Owner)
    requires Fixed(cs) && k < SLOTS
  {
    match o
    case Free => forall i :: 0 <= i < |cs| ==> !cs[i].bits[k]
    case By(name, epoch) =>
      && (exists i :: 0 <= i < |cs| && cs[i].sender == name && cs[i].epoch == epoch && cs[i].bits[k])
      && (forall i :: 0 <= i < |cs| && cs[i].bits[k] ==> cs[i].epoch <= epoch)
  }

  function Decide(o: Owner, c: Claim, k: nat): Owner
    requires k < |c.bits|
  {
    if c.bits[k] && (o.Free? || (o.name != c.sender && o.epoch < c.epoch)) then By(c.sender, c.epoch) else o
  }

  lemma DecideWins(cs: seq<Claim>, c: Claim, k: nat, o: Owner)
    requires Fixed(cs + [c]) && Fixed(cs) && k < SLOTS && Wins(cs, k, o)
    ensures |c.bits| == SLOTS && Wins(cs + [c], k, Decide(o, c, k))
  {
    var ds := cs + [c];
    assert ds[|cs|] == c && forall i :: 0 <= i < |cs| ==> ds[i] == cs[i];
    var d := Decide(o, c, k);
    if o.By? {
      var i :| 0 <= i < |cs| && cs[i].sender == o.name && cs[i].epoch == o.epoch && cs[i].bits[k];
      assert ds[i] == cs[i];
    }
  }

  /** Claims decide a slot whatever their order and number: two nodes that saw the same
      claims agree on its owner. */
  lemma SameClaimsSameOwner(cs: seq<Claim>, ds: seq<Claim>, k: nat, o: Owner, p: Owner)
    requires Fixed(cs) && Fixed(ds) && k < SLOTS && Wins(cs, k, o) && Wins(ds, k, p)
    requires forall c :: c in cs <==> c in ds
    ensures o == p
  {
    if o.By? {
      var i :| 0 <= i < |cs| && cs[i].sender == o.name && cs[i].epoch == o.epoch && cs[i].bits[k];
      assert cs[i] in ds;
    }
    if p.By? {
      var j :| 0 <= j < |ds| && ds[j].sender == p.name && ds[j].epoch == p.epoch && ds[j].bits[k];
      assert ds[j] in cs;
    }
  }

  // ------------------------------------------------------------- the objects

  /** A known node: its epoch, role, and the bitmap of the slots it serves. */
  class Node {
    const name: nat
    var configEpoch: nat
    var bits: seq<bool>
    var numslots: nat
    var slave: bool
    var slaveof: Node?

    constructor (id: nat)
      ensures name == id && configEpoch == 0 && !slave && slaveof == null && numslots == 0
      ensures |bits| == SLOTS && forall j :: 0 <= j < SLOTS ==> !bits[j]
    {
      name, configEpoch, numslots, slave, slaveof := id, 0, 0, false, null;
      bits := seq(SLOTS, _ => false);
    }
  }

  class ClusterState {
    const myself: Node
    var nodes: set<Node>
    const slots: array<Node?>
    const importing: array<Node?>
    const migrating: array<Node?>

    /** Bitmaps and counters agree with the owner table, no slot I own is being imported,
        a slave neither imports nor migrates, I am not my own master, and every node referred
        to is known. */
    ghost predicate Valid()
      reads this, slots, importing, migrating, nodes
    {
      Tables() && ImportsForeign()
    }

    ghost predicate Tables()
      reads this, slots, importing, migrating, nodes
    {
      && Shape() && NamesDiffer() && Coherent() && References() && myself.slaveof != myself
      && (myself.slave ==> forall j :: 0 <= j < SLOTS ==> importing[j] == null && migrating[j] == null)
    }

    /** No slot I own is being imported. */
    ghost predicate ImportsForeign()
      requires Shape()
      reads this, slots, importing
    {
      forall j :: 0 <= j < SLOTS && importing[j] != null ==> slots[j] != myself
    }

    ghost predicate Shape()
      reads this
    {
      && slots.Length == importing.Length == migrating.Length == SLOTS
      && slots != importing && slots != migrating && importing != migrating
      && myself in nodes
    }

    ghost predicate NamesDiffer()
      reads this
    {
      forall m, n {:trigger m.name, n.name} :: m in nodes && n in nodes && m.name == n.name ==> m == n
    }

    ghost predicate Coherent()
      requires Shape()
      reads this, slots, nodes
    {
      && (forall n :: n in nodes ==> |n.bits| == SLOTS && n.numslots == Count(n.bits))
      && (forall n, j :: n in nodes && 0 <= j < SLOTS ==> (n.bits[j] <==> slots[j] == n))
    }

    ghost predicate References()
      requires Shape()
      reads this, slots, importing, migrating, nodes
    {
      && (forall j :: 0 <= j < SLOTS && slots[j] != null ==> slots[j] in nodes)
      && (forall j :: 0 <= j < SLOTS && importing[j] != null ==> importing[j] in nodes)
      && (forall j :: 0 <= j < SLOTS && migrating[j] != null ==> migrating[j] in nodes)
      && (forall n :: n in nodes && n.slaveof != null ==> n.slaveof in nodes)
    }

    constructor (name: nat)
      ensures Valid() && fresh(myself) && fresh(slots) && fresh(importing) && fresh(migrating)
      ensures nodes == {myself} && myself.name == name && forall j :: 0 <= j < SLOTS ==> slots[j] == null
      ensures !myself.slave && forall j :: 0 <= j < SLOTS ==> importing[j] == null && migrating[j] == null
    {
      var me := new Node(name);
      myself, nodes := me, {me};
      slots := new Node?[SLOTS](_ => null);
      importing := new Node?[SLOTS](_ => null);
      migrating := new Node?[SLOTS](_ => null);
      new;
      CountZero(myself.bits);
    }

    /** clusterAddSlot: refused when the slot has an owner. It does not look at the importing
        state; its callers see to it that no slot becomes mine while it is imported. */
    method AddSlot(n: Node, j: nat) returns (ok: bool)
      requires Tables() && n in nodes && j < SLOTS
      modifies slots, nodes`bits, nodes`numslots
      ensures Tables() && ok == (old(slots[j]) == null)
      ensures old(ImportsForeign()) && (n == myself ==> importing[j] == null) ==> ImportsForeign()
      ensures forall k :: 0 <= k < SLOTS ==> slots[k] == (if k == j && ok then n else old(slots[k]))
    {
      if slots[j] != null { return false; }
      CountUpdate(n.bits, j, true);
      n.bits, n.numslots := n.bits[j := true], n.numslots + 1;
      slots[j] := n;
      ok := true;
    }

    /** clusterDelSlot: the owner's bit is always set, so its assertion never fires. */
    method DelSlot(j: nat) returns (ok: bool)
      requires Valid() && j < SLOTS
      modifies slots, nodes`bits, nodes`numslots
      ensures Valid() && ok == (old(slots[j]) != null)
      ensures forall k :: 0 <= k < SLOTS ==> slots[k] == (if k == j then null else old(slots[k]))
      ensures forall n :: n in nodes ==> n.numslots == old(n.numslots) - (if old(slots[j]) == n then 1 else 0)
    {
      var n := slots[j];
      if n == null { return false; }
      assert n.bits[j];
      CountUpdate(n.bits, j, false);
      n.bits, n.numslots := n.bits[j := false], n.numslots - 1;
      slots[j] := null;
      ok := true;
    }

    /** clusterDelSlot followed by clusterAddSlot. */
    method Rebind(n: Node, j: nat)
      requires Valid() && n in nodes && j < SLOTS && (n == myself ==> importing[j] == null)
      modifies slots, nodes`bits, nodes`numslots
      ensures Valid() && forall k :: 0 <= k < SLOTS ==> slots[k] == (if k == j then n else old(slots[k]))
    {
      var _ := DelSlot(j);
      var _ := AddSlot(n, j);
    }

    /** clusterDelNodeSlots. */
    method DelNodeSlots(n: Node) returns (deleted: nat)
      requires Valid() && n in nodes
      modifies slots, nodes`bits, nodes`numslots
      ensures Valid() && n.numslots == 0 && deleted == old(n.numslots)
      ensures forall k :: 0 <= k < SLOTS ==> slots[k] == (if old(slots[k]) == n then null else old(slots[k]))
    {
      deleted := 0;
      var j := 0;
      while j < SLOTS
        invariant 0 <= j <= SLOTS && Valid() && deleted + n.numslots == old(n.numslots)
        invariant forall k :: 0 <= k < SLOTS ==>
          slots[k] == (if k < j && old(slots[k]) == n then null else old(slots[k]))
      {
        if n.bits[j] {
          var _ := DelSlot(j);
          deleted := deleted + 1;
        }
        j := j + 1;
      }
      forall k | 0 <= k < SLOTS ensures !n.bits[k] { assert slots[k] != n; }
      CountZero(n.bits);
    }

    /** clusterCloseAllSlots. */
    method CloseAllSlots()
      requires Valid()
      modifies importing, migrating
      ensures Valid() && forall k :: 0 <= k < SLOTS ==> importing[k] == null && migrating[k] == null
    {
      forall k | 0 <= k < SLOTS { migrating[k] := null; }
      forall k | 0 <= k < SLOTS { importing[k] := null; }
    }

    method ForgetAt(n: Node, j: nat)
      requires Valid() && j < SLOTS && n in nodes
      modifies slots, importing, migrating, nodes`bits, nodes`numslots
      ensures Valid()
      ensures forall k :: 0 <= k < SLOTS ==> slots[k] == (if k == j && old(slots[k]) == n then null else old(slots[k]))
      ensures forall k :: 0 <= k < SLOTS ==> importing[k] == (if k == j && old(importing[k]) == n then null else old(importing[k]))
      ensures forall k :: 0 <= k < SLOTS ==> migrating[k] == (if k == j && old(migrating[k]) == n then null else old(migrating[k]))
    {
      if importing[j] == n { importing[j] := null; }
      if migrating[j] == n { migrating[j] := null; }
      if slots[j] == n { var _ := DelSlot(j); }
    }

    /** clusterDelNode: nothing refers to the node any more. */
    method DelNode(n: Node)
      requires Valid() && n in nodes && n != myself
      modifies this`nodes, slots, importing, migrating, nodes`bits, nodes`numslots, nodes`slaveof
      ensures Valid() && nodes == old(nodes) - {n}
      ensures forall k :: 0 <= k < SLOTS ==> slots[k] == (if old(slots[k]) == n then null else old(slots[k]))
      ensures forall k :: 0 <= k < SLOTS ==> importing[k] == (if old(importing[k]) == n then null else old(importing[k]))
      ensures forall k :: 0 <= k < SLOTS ==> migrating[k] == (if old(migrating[k]) == n then null else old(migrating[k]))
      ensures forall m :: m in nodes ==> m.slaveof == (if old(m.slaveof) == n then null else old(m.slaveof))
    {
      var j := 0;
      while j < SLOTS
        invariant 0 <= j <= SLOTS && Valid() && nodes == old(nodes)
        invariant forall k :: 0 <= k < SLOTS ==>
          slots[k] == (if k < j && old(slots[k]) == n then null else old(slots[k]))
        invariant forall k :: 0 <= k < SLOTS ==>
          importing[k] == (if k < j && old(importing[k]) == n then null else old(importing[k]))
        invariant forall k :: 0 <= k < SLOTS ==>
          migrating[k] == (if k < j && old(migrating[k]) == n then null else old(migrating[k]))
        invariant forall m :: m in nodes ==> m.slaveof == old(m.slaveof)
      {
        ForgetAt(n, j);
        j := j + 1;
      }
      FreeNode(n);
    }

    /** freeClusterNode: its slaves no longer have a master, and the node leaves the table. */
    method FreeNode(n: Node)
      requires Valid() && n in nodes && n != myself
      requires forall k :: 0 <= k < SLOTS ==> slots[k] != n && importing[k] != n && migrating[k] != n
      modifies this`nodes, nodes`slaveof
      ensures Valid() && nodes == old(nodes) - {n}
      ensures forall m :: m in nodes ==> m.slaveof == (if old(m.slaveof) == n then null else old(m.slaveof))
    {
      forall m | m in nodes { m.slaveof := if m.slaveof == n then null else m.slaveof; }
      nodes := nodes - {n};
    }

    /** clusterSetNodeAsMaster. */
    method SetNodeAsMaster(n: Node)
      requires Valid() && n in nodes
      modifies n`slave, n`slaveof
      ensures Valid() && !n.slave && (old(n.slave) ==> n.slaveof == null)
    {
      if !n.slave { return; }
      n.slave, n.slaveof := false, null;
    }

    /** clusterSetMaster, whose assertions are the precondition. */
    method SetMaster(n: Node)
      requires Valid() && n in nodes && n != myself && myself.numslots == 0
      modifies myself`slave, myself`slaveof, importing, migrating
      ensures Valid() && myself.slave && myself.slaveof == n
      ensures old(myself.slave) ==> importing[..] == old(importing[..]) && migrating[..] == old(migrating[..])
    {
      if !myself.slave {
        CloseAllSlots();
        myself.slave := true;
      }
      myself.slaveof := n;
    }

    /** The master whose slots matter to me: myself, or the one I replicate. */
    function CurMaster(): Node?
      reads this, myself
    {
      if myself.slave then myself.slaveof else myself
    }

    /** A claim of slot `j` under `epoch` moves it: it is not bound to the sender, not being
        imported, and free or owned under a smaller epoch. */
    predicate Rebinds(sender: Node, epoch: nat, claimed: seq<bool>, j: int)
      requires Shape() && 0 <= j < SLOTS == |claimed|
      requires slots[j] != null ==> slots[j] in nodes
      reads this, slots, importing, nodes
    {
      claimed[j] && slots[j] != sender && importing[j] == null && (slots[j] == null || slots[j].configEpoch < epoch)
    }

    /** My master loses a slot; without a master I count a free slot as one of its. */
    /** A claim moves exactly the claimed slots that are not the sender's and not being imported, and
        that are free or owned under a smaller epoch. */
    lemma RebindsIs(sender: Node, epoch: nat, claimed: seq<bool>, j: int)
      requires Valid() && 0 <= j < SLOTS == |claimed|
      ensures !claimed[j] || slots[j] == sender || importing[j] != null ==> !Rebinds(sender, epoch, claimed, j)
      ensures slots[j] != null && slots[j].configEpoch >= epoch ==> !Rebinds(sender, epoch, claimed, j)
      ensures claimed[j] && importing[j] == null && slots[j] == null ==> Rebinds(sender, epoch, claimed, j)
      ensures claimed[j] && importing[j] == null && slots[j] != null && slots[j] != sender && slots[j].configEpoch < epoch ==>
        Rebinds(sender, epoch, claimed, j)
    {}

    ghost predicate LosesSlot(sender: Node, epoch: nat, claimed: seq<bool>)
      requires Shape() && References() && |claimed| == SLOTS
      reads this, slots, importing, migrating, nodes, myself
    {
      exists k :: 0 <= k < SLOTS && Rebinds(sender, epoch, claimed, k) && slots[k] == CurMaster()
    }

    /** The claim takes every slot of the node. */
    ghost predicate TakesAll(sender: Node, epoch: nat, claimed: seq<bool>, n: Node?)
      requires Shape() && References() && |claimed| == SLOTS
      reads this, slots, importing, migrating, nodes
    {
      forall k :: 0 <= k < SLOTS && slots[k] == n ==> Rebinds(sender, epoch, claimed, k)
    }

    /** The claim takes the last slots of my master, so that I should replicate the sender. */
    ghost predicate Demotes(sender: Node, epoch: nat, claimed: seq<bool>)
      requires Shape() && References() && |claimed| == SLOTS
      reads this, slots, importing, migrating, nodes, myself
    {
      && sender != myself && CurMaster() != null && LosesSlot(sender, epoch, claimed)
      && TakesAll(sender, epoch, claimed, CurMaster())
    }

    /** A master is demoted by a claim of all its slots, a slave by one of all of its master's. */
    lemma DemotesIs(sender: Node, epoch: nat, claimed: seq<bool>, cur: Node?)
      requires Valid() && |claimed| == SLOTS && cur == (if myself.slave then myself.slaveof else myself)
      ensures Demotes(sender, epoch, claimed) <==>
        && sender != myself && cur != null
        && (exists k :: 0 <= k < SLOTS && slots[k] == cur)
        && (forall k :: 0 <= k < SLOTS && slots[k] == cur ==> Rebinds(sender, epoch, claimed, k))
    {
      if k :| 0 <= k < SLOTS && slots[k] == cur && Rebinds(sender, epoch, claimed, k) { assert LosesSlot(sender, epoch, claimed); }
    }

    /** The claim stops the process: I have no master and a free slot is taken, or I should
        replicate the sender and keep a slot of my own. */
    ghost predicate Stops(sender: Node, epoch: nat, claimed: seq<bool>)
      requires Shape() && References() && |claimed| == SLOTS
      reads this, slots, importing, migrating, nodes, myself
    {
      || (sender != myself && CurMaster() == null && LosesSlot(sender, epoch, claimed))
      || (Demotes(sender, epoch, claimed) && !TakesAll(sender, epoch, claimed, myself))
    }

    /** The loop of clusterUpdateSlotsConfigWith: the slots that move, the ones among them
        that were mine and hold keys, and whether my master lost one. */
    method RebindClaimed(sender: Node, epoch: nat, claimed: seq<bool>, keys: seq<bool>)
      returns (dirty: seq<nat>, lost: bool)
      requires Valid() && sender in nodes && sender != myself && |claimed| == |keys| == SLOTS
      modifies slots, nodes`bits, nodes`numslots
      ensures Valid()
      ensures forall k :: 0 <= k < SLOTS ==>
        slots[k] == (if old(Rebinds(sender, epoch, claimed, k)) then sender else old(slots[k]))
      ensures lost <==> exists k :: 0 <= k < SLOTS && old(Rebinds(sender, epoch, claimed, k)) && old(slots[k]) == CurMaster()
      ensures forall k: nat :: k in dirty <==>
        k < SLOTS && old(Rebinds(sender, epoch, claimed, k)) && old(slots[k]) == myself && keys[k]
    {
      dirty, lost := [], false;
      var j := 0;
      while j < SLOTS
        invariant 0 <= j <= SLOTS && Valid()
        invariant forall k :: 0 <= k < SLOTS ==>
          slots[k] == (if k < j && old(Rebinds(sender, epoch, claimed, k)) then sender else old(slots[k]))
        invariant lost <==> exists k :: 0 <= k < j && old(Rebinds(sender, epoch, claimed, k)) && old(slots[k]) == CurMaster()
        invariant forall k: nat :: k in dirty <==>
          k < j && old(Rebinds(sender, epoch, claimed, k)) && old(slots[k]) == myself && keys[k]
      {
        assert slots[j] == old(slots[j]);
        if Rebinds(sender, epoch, claimed, j) {
          if slots[j] == myself && keys[j] { dirty := dirty + [j]; }
          if slots[j] == CurMaster() { lost := true; }
          Rebind(sender, j);
        }
        j := j + 1;
      }
    }

    /** clusterUpdateSlotsConfigWith. `alive` is false when the process stops on an assertion
        of clusterSetMaster or on a missing master. `purged` are the slots whose keys are
        deleted: those that were mine and are lost, unless I was demoted. */
    method UpdateSlotsConfigWith(sender: Node, epoch: nat, claimed: seq<bool>, keys: seq<bool>)
      returns (alive: bool, purged: seq<nat>)
      requires Valid() && sender in nodes && |claimed| == |keys| == SLOTS
      modifies slots, importing, migrating, nodes`bits, nodes`numslots, myself`slave, myself`slaveof
      ensures Valid()
      ensures forall k :: 0 <= k < SLOTS ==>
        slots[k] == (if sender != myself && old(Rebinds(sender, epoch, claimed, k)) then sender else old(slots[k]))
      ensures alive <==> !old(Stops(sender, epoch, claimed))
      ensures myself.slave == (old(myself.slave) || (alive && old(Demotes(sender, epoch, claimed))))
      ensures myself.slaveof == if alive && old(Demotes(sender, epoch, claimed)) then sender else old(myself.slaveof)
      ensures forall k: nat :: k in purged <==>
        && alive && sender != myself && !old(Demotes(sender, epoch, claimed))
        && k < SLOTS && old(Rebinds(sender, epoch, claimed, k)) && old(slots[k]) == myself && keys[k]
      ensures old(myself.slave) || !myself.slave ==> importing[..] == old(importing[..]) && migrating[..] == old(migrating[..])
    {
      if sender == myself { return true, []; }
      var cur := CurMaster();
      var dirty, lost := RebindClaimed(sender, epoch, claimed, keys);
      assert lost == old(LosesSlot(sender, epoch, claimed));
      if lost && cur == null { return false, []; }
      if cur != null { OwnsNone(cur); }
      OwnsNone(myself);
      if lost && cur.numslots == 0 {
        assert old(Demotes(sender, epoch, claimed));
        if myself.numslots != 0 { return false, []; }
        SetMaster(sender);
        return true, [];
      }
      return true, dirty;
    }

    lemma OwnsNone(n: Node)
      requires Valid() && n in nodes
      ensures n.numslots == 0 <==> forall k :: 0 <= k < SLOTS ==> slots[k] != n
    {
      CountZero(n.bits);
      assert forall k :: 0 <= k < SLOTS ==> (n.bits[k] <==> slots[k] == n);
    }

    /** The first loop of ADDSLOTS and DELSLOTS: every argument is a slot, free or assigned as
        it must be, and named once. */
    method CheckSlotArgs(del: bool, args: seq<int>) returns (ok: bool)
      requires Shape()
      ensures ok <==>
        && (forall i :: 0 <= i < |args| ==> 0 <= args[i] < SLOTS && (slots[args[i]] != null) == del)
        && (forall i, k :: 0 <= i < k < |args| ==> args[i] != args[k])
    {
      var seen := new nat[SLOTS](_ => 0);
      var i := 0;
      while i < |args|
        invariant 0 <= i <= |args|
        invariant forall k :: 0 <= k < i ==> 0 <= args[k] < SLOTS && (slots[args[k]] != null) == del
        invariant forall k, l :: 0 <= k < l < i ==> args[k] != args[l]
        invariant forall s :: 0 <= s < SLOTS ==> seen[s] <= 1 && (seen[s] == 1 <==> s in args[..i])
      {
        var slot := args[i];
        if slot < 0 || slot >= SLOTS { return false; }
        if del && slots[slot] == null { return false; }
        if !del && slots[slot] != null { return false; }
        if seen[slot] == 1 {
          var k :| 0 <= k < i && args[..i][k] == slot;
          assert args[k] == args[i];
          return false;
        }
        seen[slot] := seen[slot] + 1;
        assert args[..i + 1] == args[..i] + [slot];
        i := i + 1;
      }
      ok := true;
    }

    /** One slot of ADDSLOTS or DELSLOTS: the assertion on the outcome holds. */
    method TakeSlot(del: bool, j: nat)
      requires Valid() && j < SLOTS && (slots[j] != null) == del
      modifies slots, importing, nodes`bits, nodes`numslots
      ensures Valid()
      ensures forall k :: 0 <= k < SLOTS ==> slots[k] == (if k == j then (if del then null else myself) else old(slots[k]))
      ensures forall k :: 0 <= k < SLOTS ==> importing[k] == (if k == j then null else old(importing[k]))
    {
      importing[j] := null;
      var done: bool;
      if del { done := DelSlot(j); } else { done := AddSlot(myself, j); }
      assert done;
    }

    /** CLUSTER ADDSLOTS and DELSLOTS: all the slots or none. */
    method AddDelSlots(del: bool, args: seq<int>) returns (ok: bool)
      requires Valid()
      modifies slots, importing, nodes`bits, nodes`numslots
      ensures Valid()
      ensures ok <==>
        && (forall i :: 0 <= i < |args| ==> 0 <= args[i] < SLOTS && (old(slots[args[i]]) != null) == del)
        && (forall i, k :: 0 <= i < k < |args| ==> args[i] != args[k])
      ensures forall k :: 0 <= k < SLOTS ==>
        slots[k] == (if ok && k in args then (if del then null else myself) else old(slots[k]))
      ensures forall k :: 0 <= k < SLOTS ==> importing[k] == (if ok && k in args then null else old(importing[k]))
    {
      ok := CheckSlotArgs(del, args);
      if !ok { return; }
      var j := 0;
      while j < SLOTS
        invariant 0 <= j <= SLOTS && Valid()
        invariant forall k :: 0 <= k < SLOTS ==>
          slots[k] == (if k < j && k in args then (if del then null else myself) else old(slots[k]))
        invariant forall k :: 0 <= k < SLOTS ==> importing[k] == (if k < j && k in args then null else old(importing[k]))
      {
        if j in args {
          var i :| 0 <= i < |args| && args[i] == j;
          assert (old(slots[args[i]]) != null) == del;
          TakeSlot(del, j);
        }
        j := j + 1;
      }
    }

    /** CLUSTER FLUSHSLOTS. */
    method FlushSlots(dbEmpty: bool) returns (ok: bool)
      requires Valid()
      modifies slots, nodes`bits, nodes`numslots
      ensures Valid() && ok == dbEmpty
      ensures forall k :: 0 <= k < SLOTS ==> slots[k] == (if ok && old(slots[k]) == myself then null else old(slots[k]))
    {
      if !dbEmpty { return false; }
      var _ := DelNodeSlots(myself);
      ok := true;
    }

    /** CLUSTER SETSLOT <slot> MIGRATING and IMPORTING. */
    method SetSlotMigrating(slot: int, n: Node?) returns (ok: bool)
      requires Valid() && (n != null ==> n in nodes)
      modifies migrating
      ensures Valid()
      ensures ok <==> !myself.slave && 0 <= slot < SLOTS && slots[slot] == myself && n != null
      ensures forall k :: 0 <= k < SLOTS ==> migrating[k] == (if ok && k == slot then n else old(migrating[k]))
    {
      if myself.slave || slot < 0 || slot >= SLOTS { return false; }
      if slots[slot] != myself || n == null { return false; }
      migrating[slot] := n;
      ok := true;
    }

    method SetSlotImporting(slot: int, n: Node?) returns (ok: bool)
      requires Valid() && (n != null ==> n in nodes)
      modifies importing
      ensures Valid()
      ensures ok <==> !myself.slave && 0 <= slot < SLOTS && slots[slot] != myself && n != null
      ensures forall k :: 0 <= k < SLOTS ==> importing[k] == (if ok && k == slot then n else old(importing[k]))
    {
      if myself.slave || slot < 0 || slot >= SLOTS { return false; }
      if slots[slot] == myself || n == null { return false; }
      importing[slot] := n;
      ok := true;
    }

    method SetSlotStable(slot: int) returns (ok: bool)
      requires Valid()
      modifies importing, migrating
      ensures Valid() && (ok <==> !myself.slave && 0 <= slot < SLOTS)
      ensures forall k :: 0 <= k < SLOTS ==> importing[k] == (if ok && k == slot then null else old(importing[k]))
      ensures forall k :: 0 <= k < SLOTS ==> migrating[k] == (if ok && k == slot then null else old(migrating[k]))
    {
      if myself.slave || slot < 0 || slot >= SLOTS { return false; }
      importing[slot], migrating[slot] := null, null;
      ok := true;
    }

    /** Some known epoch is greater than mine, or I have none yet. */
    ghost predicate Behind(current: nat)
      reads this, nodes, myself
    {
      || myself.configEpoch == 0 || current > myself.configEpoch
      || exists n :: n in nodes && n.configEpoch > myself.configEpoch
    }

    /** clusterGetMaxEpoch. */
    method GetMaxEpoch(current: nat) returns (max: nat)
      ensures current <= max && forall n :: n in nodes ==> n.configEpoch <= max
      ensures max == current || exists n :: n in nodes && n.configEpoch == max
    {
      max := current;
      var rest := nodes;
      while rest != {}
        invariant rest <= nodes && current <= max && forall n :: n in nodes - rest ==> n.configEpoch <= max
        invariant max == current || exists n :: n in nodes && n.configEpoch == max
      {
        var n :| n in rest;
        rest := rest - {n};
        if n.configEpoch > max { max := n.configEpoch; }
      }
    }

    /** clusterBumpConfigEpochWithoutConsensus. */
    method BumpConfigEpoch(current: nat) returns (next: nat)
      requires myself in nodes
      modifies myself`configEpoch
      ensures next == if old(Behind(current)) then current + 1 else current
      ensures next == current + 1 <==>
        || old(myself.configEpoch) == 0 || current > old(myself.configEpoch)
        || exists n :: n in nodes && old(n.configEpoch) > old(myself.configEpoch)
      ensures myself.configEpoch == if old(Behind(current)) then next else old(myself.configEpoch)
    {
      var max := GetMaxEpoch(current);
      next := current;
      if myself.configEpoch == 0 || myself.configEpoch != max {
        next := current + 1;
        myself.configEpoch := next;
      }
    }

    /** CLUSTER SETSLOT <slot> NODE. `keys` is how many keys the slot holds here, `current` the
        current epoch, which taking over an imported slot may raise to `next`. */
    method SetSlotNode(slot: int, n: Node?, keys: nat, current: nat) returns (ok: bool, next: nat)
      requires Valid() && (n != null ==> n in nodes)
      modifies slots, importing, migrating, nodes`bits, nodes`numslots, myself`configEpoch
      ensures Valid()
      ensures ok <==> !myself.slave && 0 <= slot < SLOTS && n != null && !(old(slots[slot]) == myself && n != myself && keys != 0)
      ensures forall k :: 0 <= k < SLOTS ==> slots[k] == (if ok && k == slot then n else old(slots[k]))
      ensures forall k :: 0 <= k < SLOTS ==>
        importing[k] == (if ok && k == slot && n == myself then null else old(importing[k]))
      ensures forall k :: 0 <= k < SLOTS ==>
        migrating[k] == (if ok && k == slot && keys == 0 then null else old(migrating[k]))
      ensures var bumps := ok && n == myself && old(importing[slot]) != null && old(Behind(current));
        next == (if bumps then current + 1 else current) && myself.configEpoch == (if bumps then next else old(myself.configEpoch))
    {
      next := current;
      if myself.slave || slot < 0 || slot >= SLOTS || n == null { return false, next; }
      if slots[slot] == myself && n != myself && keys != 0 { return false, next; }
      next := CloseSlot(slot, n == myself, keys, current);
      Rebind(n, slot);
      ok := true;
    }

    /** The states of the slot that assigning it ends. */
    method CloseSlot(slot: nat, mine: bool, keys: nat, current: nat) returns (next: nat)
      requires Valid() && slot < SLOTS
      modifies importing, migrating, myself`configEpoch
      ensures Valid()
      ensures forall k :: 0 <= k < SLOTS ==> importing[k] == (if k == slot && mine then null else old(importing[k]))
      ensures forall k :: 0 <= k < SLOTS ==> migrating[k] == (if k == slot && keys == 0 then null else old(migrating[k]))
      ensures var bumps := mine && old(importing[slot]) != null && old(Behind(current));
        next == (if bumps then current + 1 else current) && myself.configEpoch == (if bumps then next else old(myself.configEpoch))
    {
      next := current;
      if keys == 0 { migrating[slot] := null; }
      if mine && importing[slot] != null {
        next := BumpConfigEpoch(current);
        importing[slot] := null;
      }
    }

    /** clusterFailoverReplaceYourMaster: I become a master and take all my master's slots. */
    method FailoverReplaceYourMaster()
      requires Valid()
      modifies slots, nodes`bits, nodes`numslots, myself`slave, myself`slaveof
      ensures Valid()
      ensures !old(myself.slave) || old(myself.slaveof) == null ==>
        myself.slave == old(myself.slave) && forall k :: 0 <= k < SLOTS ==> slots[k] == old(slots[k])
      ensures old(myself.slave) && old(myself.slaveof) != null ==>
        && !myself.slave && myself.slaveof == null && old(myself.slaveof).numslots == 0
        && forall k :: 0 <= k < SLOTS ==>
             slots[k] == (if old(slots[k]) == old(myself.slaveof) then myself else old(slots[k]))
    {
      var master := myself.slaveof;
      if !myself.slave || master == null { return; }
      SetNodeAsMaster(myself);
      var j := 0;
      while j < SLOTS
        invariant 0 <= j <= SLOTS && Valid() && !myself.slave && myself.slaveof == null
        invariant forall k :: 0 <= k < SLOTS ==> importing[k] == null
        invariant forall k :: 0 <= k < SLOTS ==>
          slots[k] == (if k < j && old(slots[k]) == master then myself else old(slots[k]))
      {
        if master.bits[j] { Rebind(myself, j); }
        j := j + 1;
      }
      forall k | 0 <= k < SLOTS ensures !master.bits[k] { assert slots[k] != master; }
      CountZero(master.bits);
    }

    /** A master that now says it is a slave gives up its slots. */
    method SenderTurnedSlave(sender: Node, master: Node?)
      requires Valid() && sender in nodes && sender != myself && (master != null ==> master in nodes)
      modifies slots, nodes`bits, nodes`numslots, sender`slave, sender`slaveof
      ensures Valid() && sender.slave && (master != null ==> sender.slaveof == master)
      ensures forall k :: 0 <= k < SLOTS ==>
        slots[k] == (if !old(sender.slave) && old(slots[k]) == sender then null else old(slots[k]))
    {
      if !sender.slave {
        var _ := DelNodeSlots(sender);
        sender.slave := true;
      }
      if master != null { sender.slaveof := master; }
    }

    /** I am a master and hold keys of the slot, but neither own nor import it. */
    predicate Unclaimed(keys: seq<bool>, k: int)
      requires Shape() && 0 <= k < SLOTS == |keys|
      reads this, myself, slots, importing
    {
      !myself.slave && keys[k] && slots[k] != myself && importing[k] == null
    }

    /** verifyClusterConfigWithData after its database check: a slot that holds keys becomes
        mine if it is free, and is imported from its owner otherwise. */
    method VerifyConfigWithData(keys: seq<bool>)
      requires Valid() && |keys| == SLOTS
      modifies slots, importing, nodes`bits, nodes`numslots
      ensures Valid()
      ensures forall k :: 0 <= k < SLOTS ==>
        slots[k] == (if old(Unclaimed(keys, k)) && old(slots[k]) == null then myself else old(slots[k]))
      ensures forall k :: 0 <= k < SLOTS ==>
        importing[k] == (if old(Unclaimed(keys, k)) && old(slots[k]) != null then old(slots[k]) else old(importing[k]))
      ensures !myself.slave ==> forall k :: 0 <= k < SLOTS && keys[k] ==> slots[k] == myself || importing[k] != null
    {
      if myself.slave { return; }
      var j := 0;
      while j < SLOTS
        invariant 0 <= j <= SLOTS && Valid()
        invariant forall k :: 0 <= k < SLOTS ==>
          slots[k] == (if k < j && old(Unclaimed(keys, k)) && old(slots[k]) == null then myself else old(slots[k]))
        invariant forall k :: 0 <= k < SLOTS ==>
          importing[k] == (if k < j && old(Unclaimed(keys, k)) && old(slots[k]) != null then old(slots[k]) else old(importing[k]))
      {
        if keys[j] && slots[j] != myself && importing[j] == null {
          if slots[j] == null {
            var _ := AddSlot(myself, j);
          } else {
            importing[j] := slots[j];
          }
        }
        j := j + 1;
      }
    }

    /** A node is met: it serves nothing yet. */
    method AddNode(name: nat) returns (n: Node)
      requires Valid() && forall m :: m in nodes ==> m.name != name
      modifies this`nodes
      ensures Valid() && fresh(n) && n.name == name && n.configEpoch == 0 && !n.slave && nodes == old(nodes) + {n}
    {
      n := new Node(name);
      CountZero(n.bits);
      nodes := nodes + {n};
    }

    /** A PING or PONG: the header raises the sender's epoch, and a master whose slots differ
        from what is recorded has its claim looked at. */
    method ProcessClaim(sender: Node, epoch: nat, claimed: seq<bool>, keys: seq<bool>) returns (alive: bool, purged: seq<nat>)
      requires Valid() && sender in nodes && sender != myself && |claimed| == |keys| == SLOTS
      modifies sender`configEpoch, slots, importing, migrating, nodes`bits, nodes`numslots, myself`slave, myself`slaveof
      ensures Valid()
      ensures sender.configEpoch == if epoch > old(sender.configEpoch) then epoch else old(sender.configEpoch)
      ensures forall k :: 0 <= k < SLOTS ==>
        slots[k] == (if !sender.slave && old(Rebinds(sender, epoch, claimed, k)) then sender else old(slots[k]))
      ensures alive <==> sender.slave || !old(Stops(sender, epoch, claimed))
      ensures var demoted := !sender.slave && alive && old(Demotes(sender, epoch, claimed));
        && myself.slave == (old(myself.slave) || demoted)
        && myself.slaveof == (if demoted then sender else old(myself.slaveof))
      ensures forall k: nat :: k in purged <==>
        && alive && !sender.slave && !old(Demotes(sender, epoch, claimed))
        && k < SLOTS && old(Rebinds(sender, epoch, claimed, k)) && old(slots[k]) == myself && keys[k]
      ensures old(myself.slave) || !myself.slave ==> importing[..] == old(importing[..]) && migrating[..] == old(migrating[..])
    {
      RaiseEpoch(sender, epoch, claimed);
      alive, purged := true, [];
      if sender.slave { return; }
      if sender.bits == claimed {
        NothingNew(sender, epoch, claimed);
        return;
      }
      alive, purged := UpdateSlotsConfigWith(sender, epoch, claimed, keys);
    }

    /** The sender's epoch does not bear on what its claim does. */
    method RaiseEpoch(sender: Node, epoch: nat, ghost claimed: seq<bool>)
      requires Valid() && sender in nodes && sender != myself && |claimed| == SLOTS
      modifies sender`configEpoch
      ensures Valid()
      ensures sender.configEpoch == if epoch > old(sender.configEpoch) then epoch else old(sender.configEpoch)
      ensures forall k :: 0 <= k < SLOTS ==> Rebinds(sender, epoch, claimed, k) == old(Rebinds(sender, epoch, claimed, k))
      ensures Stops(sender, epoch, claimed) == old(Stops(sender, epoch, claimed))
      ensures Demotes(sender, epoch, claimed) == old(Demotes(sender, epoch, claimed))
    {
      if epoch > sender.configEpoch { sender.configEpoch := epoch; }
    }

    /** A claim of what is recorded moves nothing. */
    lemma NothingNew(sender: Node, epoch: nat, claimed: seq<bool>)
      requires Valid() && sender in nodes && sender.bits == claimed
      ensures forall k :: 0 <= k < SLOTS ==> !Rebinds(sender, epoch, claimed, k)
      ensures !Stops(sender, epoch, claimed) && !Demotes(sender, epoch, claimed)
    {}

    ghost function OwnerAt(k: nat): Owner
      requires Valid() && k < SLOTS
      reads this, slots, importing, migrating, nodes
    {
      if slots[k] == null then Free else By(slots[k].name, slots[k].configEpoch)
    }

    /** Every claim comes from another known master that is not yet known under a greater epoch. */
    ghost predicate Known(cs: seq<Claim>)
      reads this, nodes
    {
      forall i :: 0 <= i < |cs| ==> cs[i].sender != myself.name && exists n :: n in nodes && Sends(n, cs[i])
    }

    /** The node is a master that may send this claim. */
    predicate Sends(n: Node, c: Claim)
      reads n
    {
      n.name == c.sender && !n.slave && n.configEpoch <= c.epoch
    }

    /** One claim decides every slot, provided the sender owns what it owns under this epoch. */
    method ProcessOne(n: Node, c: Claim, keys: seq<bool>)
      requires Valid() && n in nodes && n != myself && Sends(n, c) && |c.bits| == |keys| == SLOTS
      requires myself.slave ==> myself.slaveof != null && myself.numslots == 0
      requires forall k :: 0 <= k < SLOTS ==> importing[k] == null && (slots[k] == n ==> n.configEpoch == c.epoch)
      modifies n`configEpoch, slots, importing, migrating, nodes`bits, nodes`numslots, myself`slave, myself`slaveof
      ensures Valid() && n.configEpoch == c.epoch && (myself.slave ==> myself.slaveof != null && myself.numslots == 0)
      ensures forall k :: 0 <= k < SLOTS ==> importing[k] == null
      ensures forall k :: 0 <= k < SLOTS ==> OwnerAt(k) == Decide(old(OwnerAt(k)), c, k)
    {
      OwnsNone(myself);
      var _, _ := ProcessClaim(n, c.epoch, c.bits, keys);
      OwnsNone(myself);
    }

    /** Raising a sender to the epoch of its claim leaves every claim acceptable. */
    method ProcessKnown(n: Node, cs: seq<Claim>, i: nat, keys: seq<bool>)
      requires Valid() && i < |cs| && Fixed(cs) && Known(cs) && |keys| == SLOTS
      requires n in nodes && n != myself && Sends(n, cs[i])
      requires Settled() && forall k :: 0 <= k < SLOTS ==> slots[k] == n ==> n.configEpoch == cs[i].epoch
      modifies n`configEpoch, slots, importing, migrating, nodes`bits, nodes`numslots, myself`slave, myself`slaveof
      ensures Valid() && Settled() && Known(cs)
      ensures forall k :: 0 <= k < SLOTS ==> OwnerAt(k) == Decide(old(OwnerAt(k)), cs[i], k)
    {
      ProcessOne(n, cs[i], keys);
      forall j | 0 <= j < |cs| ensures exists m :: m in nodes && Sends(m, cs[j]) {
        var m :| m in nodes && old(Sends(m, cs[j]));
        assert m == n ==> cs[j].epoch == cs[i].epoch;
        assert Sends(m, cs[j]);
      }
    }

    /** I import nothing, and if I am a slave I have a master and no slots. */
    ghost predicate Settled()
      requires Shape()
      reads this, importing, myself
    {
      && (forall k :: 0 <= k < SLOTS ==> importing[k] == null)
      && (myself.slave ==> myself.slaveof != null && myself.numslots == 0)
    }

    ghost predicate Decided(cs: seq<Claim>)
      requires Valid() && Fixed(cs)
      reads this, slots, importing, migrating, nodes
    {
      forall k :: 0 <= k < SLOTS ==> Wins(cs, k, OwnerAt(k))
    }

    method ProcessNext(cs: seq<Claim>, i: nat, keys: seq<bool>)
      requires Valid() && Settled() && i < |cs| && Fixed(cs) && Fixed(cs[..i]) && Known(cs) && |keys| == SLOTS
      requires Decided(cs[..i])
      modifies nodes`configEpoch, slots, importing, migrating, nodes`bits, nodes`numslots, myself`slave, myself`slaveof
      ensures Valid() && Settled() && Known(cs) && Fixed(cs[..i + 1]) && Decided(cs[..i + 1])
    {
      var c := cs[i];
      var n :| n in nodes && Sends(n, c);
      forall k | 0 <= k < SLOTS && slots[k] == n ensures n.configEpoch == c.epoch {
        OwnersClaim(cs, i, k, OwnerAt(k));
      }
      ProcessKnown(n, cs, i, keys);
      assert cs[..i + 1] == cs[..i] + [c];
      forall k | 0 <= k < SLOTS ensures Wins(cs[..i + 1], k, OwnerAt(k)) {
        DecideWins(cs[..i], c, k, old(OwnerAt(k)));
      }
    }

    /** Claims processed one by one, in any order and with repeats, from an empty table: each
        slot ends with the claimant of greatest epoch. */
    method ProcessClaims(cs: seq<Claim>, keys: seq<bool>)
      requires Valid() && Settled() && Fixed(cs) && Known(cs) && |keys| == SLOTS
      requires forall k :: 0 <= k < SLOTS ==> slots[k] == null
      modifies nodes`configEpoch, slots, importing, migrating, nodes`bits, nodes`numslots, myself`slave, myself`slaveof
      ensures Valid() && forall k :: 0 <= k < SLOTS ==> Wins(cs, k, OwnerAt(k))
      ensures forall k :: 0 <= k < SLOTS && slots[k] == null ==> forall i :: 0 <= i < |cs| ==> !cs[i].bits[k]
      ensures forall k :: 0 <= k < SLOTS && slots[k] != null ==>
        && (exists i :: 0 <= i < |cs| && cs[i].bits[k] && cs[i].sender == slots[k].name && cs[i].epoch == slots[k].configEpoch)
        && forall i :: 0 <= i < |cs| && cs[i].bits[k] ==> cs[i].epoch <= slots[k].configEpoch
    {
      var i := 0;
      while i < |cs|
        invariant 0 <= i <= |cs| && Valid() && Settled() && Known(cs) && Fixed(cs[..i]) && Decided(cs[..i])
      {
        ProcessNext(cs, i, keys);
        i := i + 1;
      }
      assert cs[..i] == cs;
      forall k | 0 <= k < SLOTS
        ensures Wins(cs, k, OwnerAt(k))
        ensures slots[k] == null ==> forall i :: 0 <= i < |cs| ==> !cs[i].bits[k]
        ensures slots[k] != null ==>
          && (exists i :: 0 <= i < |cs| && cs[i].bits[k] && cs[i].sender == slots[k].name && cs[i].epoch == slots[k].configEpoch)
          && forall i :: 0 <= i < |cs| && cs[i].bits[k] ==> cs[i].epoch <= slots[k].configEpoch
      {
        assert Wins(cs, k, OwnerAt(k));
      }
    }

    /** What the importing state and the keys make of a slot when the tables are checked. */
    lemma UnclaimedIs(keys: seq<bool>, k: int)
      requires Shape() && 0 <= k < SLOTS == |keys|
      ensures Unclaimed(keys, k) <==> !(myself.slave || !keys[k] || slots[k] == myself || importing[k] != null)
    {}
  }

  lemma OwnersClaim(cs: seq<Claim>, i: nat, k: nat, o: Owner)
    requires Fixed(cs) && i < |cs| && k < SLOTS && Fixed(cs[..i]) && Wins(cs[..i], k, o)
    ensures o.By? && o.name == cs[i].sender ==> o.epoch == cs[i].epoch
  {}

  /** A slave of `master`, which owns slot 0, with a slot of its own. */
  ghost predicate SlaveWithSlot(st: ClusterState, master: Node, winner: Node)
    reads st, st.slots, st.importing, st.migrating, st.nodes
  {
    && st.Valid() && {master, winner} <= st.nodes && winner != st.myself && winner != master && !winner.slave
    && st.myself.slave && st.myself.slaveof == master && master.configEpoch == 0
    && st.slots[1] == st.myself && forall k :: 0 <= k < SLOTS ==> (st.slots[k] == master <==> k == 0)
  }

  method SlaveOf(master: Node, st: ClusterState)
    requires st.Valid() && master in st.nodes && master != st.myself && !st.myself.slave
    requires forall k :: 0 <= k < SLOTS ==> st.slots[k] == null
    modifies st.slots, st.importing, st.migrating, st.nodes`bits, st.nodes`numslots, st.myself`slave, st.myself`slaveof
    ensures st.Valid() && st.myself.slave && st.myself.slaveof == master
    ensures forall k :: 0 <= k < SLOTS ==> st.slots[k] == (if k == 0 then master else null)
  {
    var _ := st.AddSlot(master, 0);
    st.OwnsNone(st.myself);
    st.SetMaster(master);
  }

  /** ADDSLOTS binds a slot to a slave: it does not look at the role. */
  method SlaveTakesSlot() returns (st: ClusterState, master: Node, winner: Node, added: bool)
    ensures added && SlaveWithSlot(st, master, winner)
    ensures fresh(st) && fresh(st.slots) && fresh(st.importing) && fresh(st.migrating) && fresh(st.nodes)
  {
    st := new ClusterState(0);
    master := st.AddNode(1);
    winner := st.AddNode(2);
    SlaveOf(master, st);
    added := st.AddDelSlots(false, [1]);
  }

  /** A claim of all that the slave's master has stops the slave. */
  method MasterLosesAll(st: ClusterState, master: Node, winner: Node) returns (alive: bool)
    requires SlaveWithSlot(st, master, winner)
    modifies winner`configEpoch, st.slots, st.importing, st.migrating, st.nodes`bits, st.nodes`numslots
    modifies st.myself`slave, st.myself`slaveof
    ensures !alive
  {
    var claim := seq(SLOTS, k => k == 0);
    assert st.Rebinds(winner, 1, claim, 0) && !st.Rebinds(winner, 1, claim, 1);
    var purged;
    alive, purged := st.ProcessClaim(winner, 1, claim, claim);
  }

  /** From an empty table: a slave is given a slot, and stops when its master is failed over. */
  method SlaveWithSlotStops() returns (added: bool, alive: bool)
    ensures added && !alive
  {
    var st, master, winner;
    st, master, winner, added := SlaveTakesSlot();
    alive := MasterLosesAll(st, master, winner);
  }
}
