/**
 The planner of the cluster tool: how many slots each master should lose or gain, the
 correction for rounding, and the two index loop that moves slots until all are balanced.

 Nodes are numbers; weights and shares are exact.
 */
module Rebalance {
  import opened Basics
  import opened Reshard

  // ------------------------------------------------------------------- shares

  function SumReal(ws: seq<real>): real { if ws == [] then 0.0 else ws[0] + SumReal(ws[1..]) }

  /** The slots a node of weight `w` should have. */
  function Expected(w: real, total: real): int
    requires total > 0.0
  {
    (SLOTS as real / total * w).Floor
  }

  /** Weights add up. */
  lemma {:induction false} SumRealSnoc(ws: seq<real>, w: real)
    ensures SumReal([]) == 0.0 && SumReal(ws + [w]) == SumReal(ws) + w
    decreases |ws|
  {
    if ws == [] {
      assert [w][1..] == [];
    } else {
      assert (ws + [w])[1..] == ws[1..] + [w];
      SumRealSnoc(ws[1..], w);
    }
  }

  /** The exact share, rounded down. */
  lemma ExpectedIs(w: real, total: real, e: int)
    requires total > 0.0 && w >= 0.0
    ensures e == Expected(w, total) <==> e as real * total <= SLOTS as real * w < (e + 1) as real * total
  {
    var x := SLOTS as real / total * w;
    TimesTotal(SLOTS, w, total);
    ScaleBound(e as real, x, total);
    ScaleBound((e + 1) as real, x, total);
    assert e == x.Floor <==> e as real <= x < (e + 1) as real;
  }

  lemma TimesTotal(a: nat, w: real, total: real)
    requires total > 0.0
    ensures a as real / total * w * total == a as real * w
    ensures a as real / total * w == a as real * w / total
  {}

  lemma ScaleBound(a: real, x: real, total: real)
    requires total > 0.0
    ensures a <= x <==> a * total <= x * total
  {}

  function Shares(ws: seq<real>, total: real): (r: seq<int>)
    requires total > 0.0
    ensures |r| == |ws|
  {
    if ws == [] then [] else [Expected(ws[0], total)] + Shares(ws[1..], total)
  }

  lemma {:induction false} SharesFloor(ws: seq<real>, total: real)
    requires total > 0.0 && forall i :: 0 <= i < |ws| ==> ws[i] >= 0.0
    ensures Sum(Shares(ws, total)) as real <= SLOTS as real / total * SumReal(ws)
    ensures forall i :: 0 <= i < |ws| ==> Shares(ws, total)[i] >= 0
    decreases |ws|
  {
    if ws != [] {
      var unit := SLOTS as real / total;
      SharesFloor(ws[1..], total);
      var s := Shares(ws, total);
      assert s[1..] == Shares(ws[1..], total);
      assert unit * ws[0] >= 0.0;
      assert unit * (ws[0] + SumReal(ws[1..])) == unit * ws[0] + unit * SumReal(ws[1..]);
    }
  }

  lemma Cancel(n: int, a: nat, t: real)
    requires t > 0.0 && n as real <= a as real / t * t
    ensures n <= a
  {
    assert a as real / t * t == a as real;
  }

  /** Rounding down never hands out more than all slots. */
  lemma SharesWithin(ws: seq<real>, total: real)
    requires total == SumReal(ws) > 0.0 && forall i :: 0 <= i < |ws| ==> ws[i] >= 0.0
    ensures Sum(Shares(ws, total)) <= SLOTS
  {
    SharesFloor(ws, total);
    Cancel(Sum(Shares(ws, total)), SLOTS, total);
  }

  // ------------------------------------------------------------ the correction

  lemma {:induction false} SumUpdate(bs: seq<int>, i: nat, v: int)
    requires i < |bs|
    ensures Sum(bs[i := v]) == Sum(bs) - bs[i] + v
    decreases |bs|
  {
    if i == 0 {
      assert bs[0 := v][1..] == bs[1..];
    } else {
      assert bs[i := v][1..] == bs[1..][i - 1 := v];
      SumUpdate(bs[1..], i - 1, v);
    }
  }

  /** One pass over the nodes: every node that is to gain slots gains one more, while there is need. */
  method Pass(balance: array<int>, total: int) returns (left: int)
    requires total == Sum(balance[..]) && total > 0
    modifies balance
    ensures left == Sum(balance[..]) && 0 <= left <= total
    ensures forall i :: 0 <= i < balance.Length ==>
      (old(balance[i]) >= 0 ==> balance[i] == old(balance[i])) && (old(balance[i]) < 0 ==> balance[i] <= old(balance[i]))
    ensures left == total <==> forall i :: 0 <= i < balance.Length ==> old(balance[i]) >= 0
  {
    left := total;
    var i := 0;
    while i < balance.Length
      invariant 0 <= i <= balance.Length && left == Sum(balance[..]) && 0 <= left <= total
      invariant forall k :: 0 <= k < balance.Length ==>
        (old(balance[k]) >= 0 || k >= i ==> balance[k] == old(balance[k])) && (old(balance[k]) < 0 ==> balance[k] <= old(balance[k]))
      invariant left == total <==> forall k :: 0 <= k < i ==> old(balance[k]) >= 0
    {
      if balance[i] < 0 && left > 0 {
        ghost var before := balance[..];
        balance[i] := balance[i] - 1;
        assert balance[..] == before[i := before[i] - 1];
        SumUpdate(before, i, before[i] - 1);
        left := left - 1;
      }
      i := i + 1;
    }
  }

  /** The correction loop. It needs a node that is to gain slots; then it ends with sums that match. */
  method Correct(balance: array<int>, total: int)
    requires total == Sum(balance[..]) && total >= 0
    requires total > 0 ==> exists i :: 0 <= i < balance.Length && balance[i] < 0
    modifies balance
    ensures Sum(balance[..]) == 0
    ensures forall i :: 0 <= i < balance.Length ==>
      (old(balance[i]) >= 0 ==> balance[i] == old(balance[i])) && (old(balance[i]) < 0 ==> balance[i] <= old(balance[i]))
  {
    var left := total;
    while left > 0
      invariant left == Sum(balance[..]) && left >= 0
      invariant left > 0 ==> exists i :: 0 <= i < balance.Length && balance[i] < 0
      invariant forall i :: 0 <= i < balance.Length ==>
        (old(balance[i]) >= 0 ==> balance[i] == old(balance[i])) && (old(balance[i]) < 0 ==> balance[i] <= old(balance[i]))
    {
      ghost var k :| 0 <= k < balance.Length && balance[k] < 0;
      left := Pass(balance, left);
      assert balance[k] < 0;
    }
  }

  // ------------------------------------------------------------------- sorting

  /** Every node once. */
  ghost predicate Lists(sn: seq<nat>, n: nat) {
    && |sn| == n
    && (forall i :: 0 <= i < n ==> sn[i] < n)
    && (forall i, j :: 0 <= i < j < n ==> sn[i] != sn[j])
  }

  ghost predicate Sorted(sn: seq<nat>, balance: seq<int>) {
    && (forall i :: 0 <= i < |sn| ==> sn[i] < |balance|)
    && (forall i, j :: 0 <= i < j < |sn| ==> balance[sn[i]] <= balance[sn[j]])
  }

  lemma InsertKeeps(sn: seq<nat>, balance: seq<int>, p: nat, k: nat)
    requires p <= |sn| && k < |balance| && Lists(sn, k) && Sorted(sn, balance)
    requires forall i :: p <= i < |sn| ==> balance[sn[i]] > balance[k]
    requires p > 0 ==> balance[sn[p - 1]] <= balance[k]
    ensures Lists(sn[..p] + [k] + sn[p..], k + 1) && Sorted(sn[..p] + [k] + sn[p..], balance)
  {
    var r := sn[..p] + [k] + sn[p..];
    forall i | 0 <= i < |r| ensures r[i] == (if i < p then sn[i] else if i == p then k else sn[i - 1]) && r[i] < k + 1 {}
    forall i, j | 0 <= i < j < |r| ensures r[i] != r[j] && balance[r[i]] <= balance[r[j]] {
      var a, b := if i < p then i else i - 1, if j < p then j else j - 1;
      assert i != p && j != p ==> sn[a] != sn[b] && balance[sn[a]] <= balance[sn[b]];
      assert i < p && j == p ==> i == p - 1 || balance[sn[i]] <= balance[sn[p - 1]];
    }
  }

  /** The balances in the order of the list. */
  ghost function InOrder(sn: seq<nat>, balance: seq<int>): (bs: seq<int>)
    requires forall i :: 0 <= i < |sn| ==> sn[i] < |balance|
    ensures |bs| == |sn| && forall i :: 0 <= i < |sn| ==> bs[i] == balance[sn[i]]
  {
    seq(|sn|, i requires 0 <= i < |sn| => balance[sn[i]])
  }

  lemma {:induction false} SumConcat(a: seq<int>, b: seq<int>)
    ensures Sum(a + b) == Sum(a) + Sum(b)
    decreases |a|
  {
    if a == [] {
      assert a + b == b;
    } else {
      assert (a + b)[1..] == a[1..] + b;
      SumConcat(a[1..], b);
    }
  }

  lemma InsertSums(sn: seq<nat>, balance: seq<int>, p: nat, k: nat)
    requires p <= |sn| && k < |balance| && forall i :: 0 <= i < |sn| ==> sn[i] < |balance|
    ensures Sum(InOrder(sn[..p] + [k] + sn[p..], balance)) == Sum(InOrder(sn, balance)) + balance[k]
  {
    var bs, x := InOrder(sn, balance), [balance[k]];
    var a, b := bs[..p], bs[p..];
    assert InOrder(sn[..p] + [k] + sn[p..], balance) == a + (x + b);
    SumConcat(a, x + b);
    SumConcat(x, b);
    SumConcat(a, b);
    assert bs == a + b;
  }

  lemma SumPrefix(balance: seq<int>, k: nat)
    requires k < |balance|
    ensures Sum(balance[..k + 1]) == Sum(balance[..k]) + balance[k]
  {
    var one := [balance[k]];
    assert balance[..k + 1] == balance[..k] + one && one[1..] == [];
    SumConcat(balance[..k], one);
  }

  method Position(sn: seq<nat>, balance: seq<int>, k: nat) returns (p: nat)
    requires k < |balance| && Lists(sn, k) && Sorted(sn, balance)
    ensures p <= |sn| && (forall i :: p <= i < |sn| ==> balance[sn[i]] > balance[k])
    ensures p > 0 ==> balance[sn[p - 1]] <= balance[k]
  {
    p := |sn|;
    while p > 0 && balance[sn[p - 1]] > balance[k]
      invariant 0 <= p <= |sn| && forall i :: p <= i < |sn| ==> balance[sn[i]] > balance[k]
    {
      p := p - 1;
    }
  }

  /** A list of the first `k` nodes, sorted. */
  ghost predicate SortedUpto(sn: seq<nat>, balance: seq<int>, k: nat)
    requires k <= |balance|
  {
    Lists(sn, k) && Sorted(sn, balance) && Sum(InOrder(sn, balance)) == Sum(balance[..k])
  }

  method Insert(sn: seq<nat>, balance: seq<int>, k: nat) returns (r: seq<nat>)
    requires k < |balance| && SortedUpto(sn, balance, k)
    ensures SortedUpto(r, balance, k + 1)
  {
    var p := Position(sn, balance, k);
    InsertKeeps(sn, balance, p, k);
    InsertSums(sn, balance, p, k);
    SumPrefix(balance, k);
    r := sn[..p] + [k] + sn[p..];
  }

  /** Any sort by balance will do; this one inserts. */
  method SortByBalance(balance: seq<int>) returns (sn: seq<nat>)
    ensures Lists(sn, |balance|) && Sorted(sn, balance) && Sum(InOrder(sn, balance)) == Sum(balance)
  {
    sn := [];
    var k := 0;
    assert balance[..0] == [];
    while k < |balance|
      invariant 0 <= k <= |balance| && SortedUpto(sn, balance, k)
    {
      sn := Insert(sn, balance, k);
      k := k + 1;
    }
    assert balance[..k] == balance;
  }

  // ------------------------------------------------------------------- moving

  /** compute_reshard_table for one source: it gives what is asked while it has it, its lowest
      slots first. */
  method TableOf(source: set<nat>, numslots: nat) returns (moved: seq<nat>)
    requires source != {}
    ensures |moved| == Least(numslots, |source|)
    ensures (forall i :: 0 <= i < |moved| ==> moved[i] in source) && forall i, j :: 0 <= i < j < |moved| ==> moved[i] < moved[j]
    ensures forall x, i :: x in source && x !in moved && 0 <= i < |moved| ==> moved[i] < x
  {
    OneSource(source, numslots);
    var plan := ReshardTable([source], numslots);
    moved := seq(|plan|, i requires 0 <= i < |plan| => plan[i].slot);
    forall x, i | x in source && x !in moved && 0 <= i < |moved| ensures moved[i] < x {
      assert plan[i].source == 0;
      forall k | 0 <= k < |plan| ensures plan[k] != Move(0, x) { assert moved[k] in moved; }
    }
  }

  // ---------------------------------------------------------- the two index loop

  lemma {:induction false} SumPositive(bs: seq<int>, k: nat)
    requires k < |bs| && bs[k] > 0 && forall i :: 0 <= i < |bs| ==> bs[i] >= 0
    ensures Sum(bs) > 0
    decreases |bs|
  {
    if k == 0 { SumAtLeast(bs[1..]); } else { SumPositive(bs[1..], k - 1); }
  }

  lemma {:induction false} SumAtLeast(bs: seq<int>)
    requires forall i :: 0 <= i < |bs| ==> bs[i] >= 0
    ensures Sum(bs) >= 0
    decreases |bs|
  {
    if bs != [] { SumAtLeast(bs[1..]); }
  }

  lemma {:induction false} SumNegative(bs: seq<int>, k: nat)
    requires k < |bs| && bs[k] < 0 && forall i :: 0 <= i < |bs| ==> bs[i] <= 0
    ensures Sum(bs) < 0
    decreases |bs|
  {
    if k == 0 { SumAtMost(bs[1..]); } else { SumNegative(bs[1..], k - 1); }
  }

  lemma {:induction false} SumAtMost(bs: seq<int>)
    requires forall i :: 0 <= i < |bs| ==> bs[i] <= 0
    ensures Sum(bs) <= 0
    decreases |bs|
  {
    if bs != [] { SumAtMost(bs[1..]); }
  }

  /** Between the indexes losers never stand before gainers; outside all is balanced. */
  ghost predicate Between(bs: seq<int>, d: int, s: int) {
    && Sum(bs) == 0 && 0 <= d <= |bs| && -1 <= s < |bs|
    && (forall i :: 0 <= i < |bs| && (i < d || i > s) ==> bs[i] == 0)
    && (forall i, j :: d <= i < j <= s ==> (bs[i] > 0 ==> bs[j] > 0) && (bs[j] < 0 ==> bs[i] < 0))
  }

  lemma EndsOpposite(bs: seq<int>, d: int, s: int)
    requires Between(bs, d, s) && d < s
    ensures bs[d] <= 0 <= bs[s]
  {
    if bs[d] > 0 { SumPositive(bs, d); }
    if bs[s] < 0 { SumNegative(bs, s); }
  }

  lemma AllBalanced(bs: seq<int>, d: int, s: int)
    requires Between(bs, d, s) && d >= s
    ensures forall i :: 0 <= i < |bs| ==> bs[i] == 0
  {
    if d == s {
      if bs[d] > 0 { SumPositive(bs, d); }
      if bs[d] < 0 { SumNegative(bs, d); }
    }
  }

  /** Moving as many slots as both ends allow balances at least one of them. */
  lemma MoveKeeps(bs: seq<int>, d: int, s: int, m: nat)
    requires Between(bs, d, s) && d < s && bs[d] + m <= 0 <= bs[s] - m && (bs[d] + m == 0 || bs[s] - m == 0)
    ensures var cs := bs[d := bs[d] + m][s := bs[s] - m];
            Between(cs, if cs[d] == 0 then d + 1 else d, if cs[s] == 0 then s - 1 else s)
  {
    SumUpdate(bs, d, bs[d] + m);
    SumUpdate(bs[d := bs[d] + m], s, bs[s] - m);
  }

  ghost predicate Apart(ss: seq<set<nat>>) {
    forall i, j :: 0 <= i < |ss| && 0 <= j < |ss| && i != j ==> ss[i] !! ss[j]
  }

  /** The slot is with some node. */
  ghost predicate Covered(ss: seq<set<nat>>, x: nat) { exists i :: 0 <= i < |ss| && x in ss[i] }

  /** move_slot, as far as the tool's own tables go. */
  method MoveSlot(slots: array<set<nat>>, src: nat, dst: nat, slot: nat)
    requires src < slots.Length && dst < slots.Length && src != dst && slot in slots[src] && Apart(slots[..])
    modifies slots
    ensures Apart(slots[..]) && forall x: nat :: Covered(slots[..], x) <==> old(Covered(slots[..], x))
    ensures slots[src] == old(slots[src]) - {slot} && slots[dst] == old(slots[dst]) + {slot}
    ensures |slots[src]| == |old(slots[src])| - 1 && |slots[dst]| == |old(slots[dst])| + 1
    ensures forall i :: 0 <= i < slots.Length && i != src && i != dst ==> slots[i] == old(slots[i])
  {
    ghost var before := slots[..];
    assert before[src] !! before[dst];
    slots[src] := slots[src] - {slot};
    slots[dst] := slots[dst] + {slot};
    ghost var after := slots[..];
    assert after[src] == before[src] - {slot} && after[dst] == before[dst] + {slot};
    assert forall i :: 0 <= i < |after| && i != src && i != dst ==> after[i] == before[i];
    forall x: nat ensures Covered(after, x) <==> Covered(before, x) {
      if Covered(before, x) {
        var i :| 0 <= i < |before| && x in before[i];
        assert x in after[if x == slot then dst else i];
      }
      if Covered(after, x) {
        var i :| 0 <= i < |after| && x in after[i];
        assert x in before[if x == slot then src else i];
      }
    }
  }

  /** The moves of one reshard table. */
  method MoveTable(slots: array<set<nat>>, src: nat, dst: nat, table: seq<nat>)
    requires src < slots.Length && dst < slots.Length && src != dst && Apart(slots[..])
    requires (forall i :: 0 <= i < |table| ==> table[i] in slots[src]) && forall i, j :: 0 <= i < j < |table| ==> table[i] != table[j]
    modifies slots
    ensures Apart(slots[..]) && forall x: nat :: Covered(slots[..], x) <==> old(Covered(slots[..], x))
    ensures |slots[src]| == |old(slots[src])| - |table| && |slots[dst]| == |old(slots[dst])| + |table|
    ensures forall i :: 0 <= i < slots.Length && i != src && i != dst ==> slots[i] == old(slots[i])
  {
    var k := 0;
    while k < |table|
      invariant 0 <= k <= |table| && Apart(slots[..])
      invariant forall x: nat :: Covered(slots[..], x) <==> old(Covered(slots[..], x))
      invariant forall i :: k <= i < |table| ==> table[i] in slots[src]
      invariant |slots[src]| == |old(slots[src])| - k && |slots[dst]| == |old(slots[dst])| + k
      invariant forall i :: 0 <= i < slots.Length && i != src && i != dst ==> slots[i] == old(slots[i])
    {
      MoveSlot(slots, src, dst, table[k]);
      k := k + 1;
    }
  }

  /** What stays true while slots move: with its balance taken off, every node has its target. */
  ghost predicate OnTarget(slots: seq<set<nat>>, balance: seq<int>, target: seq<nat>) {
    && |slots| == |balance| == |target| && Apart(slots)
    && (forall i :: 0 <= i < |slots| ==> |slots[i]| == target[i] + balance[i])
  }

  function Abs(x: int): nat { if x < 0 then -x else x }

  /** One turn of the loop: the table has the length asked for, so its check never fails. */
  method Turn(slots: array<set<nat>>, balance: array<int>, src: nat, dst: nat, ghost target: seq<nat>) returns (m: nat)
    requires src < slots.Length && dst < slots.Length && src != dst && OnTarget(slots[..], balance[..], target)
    requires balance[dst] <= 0 <= balance[src]
    modifies slots, balance
    ensures OnTarget(slots[..], balance[..], target)
    ensures forall x: nat :: Covered(slots[..], x) <==> old(Covered(slots[..], x))
    ensures m == (if Abs(old(balance[dst])) < Abs(old(balance[src])) then Abs(old(balance[dst])) else Abs(old(balance[src])))
    ensures balance[..] == old(balance[..])[dst := old(balance[dst]) + m][src := old(balance[src]) - m]
  {
    m := if Abs(balance[dst]) < Abs(balance[src]) then Abs(balance[dst]) else Abs(balance[src]);
    ghost var ss := slots[..];
    if m > 0 {
      assert |ss[src]| == target[src] + balance[src];
      var table := TableOf(slots[src], m);
      assert |table| == m;
      MoveTable(slots, src, dst, table);
    }
    balance[dst] := balance[dst] + m;
    balance[src] := balance[src] - m;
  }

  lemma InOrderMove(sn: seq<nat>, b: seq<int>, c: seq<int>, d: nat, s: nat, v: int, w: int)
    requires Lists(sn, |b|) && d < |sn| && s < |sn| && d != s && c == b[sn[d] := v][sn[s] := w]
    ensures InOrder(sn, c) == InOrder(sn, b)[d := v][s := w]
  {
    var bs, cs := InOrder(sn, b), InOrder(sn, c);
    forall i | 0 <= i < |sn| ensures cs[i] == bs[d := v][s := w][i] {
      assert i != d ==> sn[i] != sn[d];
      assert i != s ==> sn[i] != sn[s];
    }
  }

  /** One turn at two indexes: at least one of them moves on. */
  method TurnAt(slots: array<set<nat>>, balance: array<int>, sn: seq<nat>, d: nat, s: nat, ghost target: seq<nat>)
    returns (d': nat, s': int)
    requires Lists(sn, balance.Length) && OnTarget(slots[..], balance[..], target)
    requires d < s < |sn| && Between(InOrder(sn, balance[..]), d, s)
    modifies slots, balance
    ensures OnTarget(slots[..], balance[..], target) && Between(InOrder(sn, balance[..]), d', s') && s' - d' < s - d
    ensures forall x: nat :: Covered(slots[..], x) <==> old(Covered(slots[..], x))
  {
    ghost var b, bs := balance[..], InOrder(sn, balance[..]);
    EndsOpposite(bs, d, s);
    var m := Turn(slots, balance, sn[s], sn[d], target);
    InOrderMove(sn, b, balance[..], d, s, bs[d] + m, bs[s] - m);
    MoveKeeps(bs, d, s, m);
    d' := if balance[sn[d]] == 0 then d + 1 else d;
    s' := if balance[sn[s]] == 0 then s - 1 else s;
  }

  lemma SortedBetween(sn: seq<nat>, balance: seq<int>)
    requires Lists(sn, |balance|) && Sorted(sn, balance) && Sum(InOrder(sn, balance)) == 0
    ensures Between(InOrder(sn, balance), 0, |sn| - 1)
  {}

  /** The two index loop: it ends with every balance zero and the slots still divided up. */
  method TwoIndexes(slots: array<set<nat>>, balance: array<int>, sn: seq<nat>, ghost target: seq<nat>)
    requires Lists(sn, balance.Length) && Sorted(sn, balance[..]) && Sum(InOrder(sn, balance[..])) == 0
    requires OnTarget(slots[..], balance[..], target)
    modifies slots, balance
    ensures OnTarget(slots[..], balance[..], target)
    ensures forall x: nat :: Covered(slots[..], x) <==> old(Covered(slots[..], x))
    ensures forall i :: 0 <= i < |sn| ==> balance[sn[i]] == 0
  {
    var d, s := 0, |sn| - 1;
    SortedBetween(sn, balance[..]);
    while d < s
      invariant 0 <= d && s < |sn| && OnTarget(slots[..], balance[..], target) && Between(InOrder(sn, balance[..]), d, s)
      invariant forall x: nat :: Covered(slots[..], x) <==> old(Covered(slots[..], x))
      decreases s - d
    {
      d, s := TurnAt(slots, balance, sn, d, s, target);
    }
    AllBalanced(InOrder(sn, balance[..]), d, s);
  }

  // --------------------------------------------------------------- the command

  /** The numbers below `n`. */
  function Below(n: nat): (s: set<nat>)
    ensures |s| == n && forall i: nat :: i in s <==> i < n
  {
    if n == 0 then {} else Below(n - 1) + {n - 1}
  }

  lemma {:induction false} EveryNode(sn: seq<nat>, n: nat, k: nat)
    requires Lists(sn, n) && k < n
    ensures exists i :: 0 <= i < n && sn[i] == k
  {
    if forall i :: 0 <= i < n ==> sn[i] != k {
      Spread(sn, n, Below(n) - {k});
    }
  }

  /** Distinct members of a set are no more than it has. */
  lemma {:induction false} Spread(sn: seq<nat>, n: nat, s: set<nat>)
    requires |sn| == n && (forall i :: 0 <= i < n ==> sn[i] in s) && forall i, j :: 0 <= i < j < n ==> sn[i] != sn[j]
    ensures n <= |s|
    decreases n
  {
    if n > 0 {
      var rest := s - {sn[n - 1]};
      assert forall i :: 0 <= i < n - 1 ==> sn[..n - 1][i] == sn[i] && sn[i] in rest;
      Spread(sn[..n - 1], n - 1, rest);
    }
  }

  /** What a node is to lose or gain before the correction. */
  ghost function Balance(slots: seq<set<nat>>, ws: seq<real>, i: nat): int
    requires |slots| == |ws| && i < |ws| && SumReal(ws) > 0.0
  {
    |slots[i]| - Expected(ws[i], SumReal(ws))
  }

  lemma {:induction false} ShareAt(ws: seq<real>, total: real, i: nat)
    requires total > 0.0 && i < |ws|
    ensures Shares(ws, total)[i] == Expected(ws[i], total)
    decreases |ws|
  {
    if i > 0 { ShareAt(ws[1..], total, i - 1); }
  }

  lemma {:induction false} SumMinus(a: seq<int>, b: seq<int>, c: seq<int>)
    requires |a| == |b| == |c| && forall i :: 0 <= i < |a| ==> c[i] == a[i] - b[i]
    ensures Sum(c) == Sum(a) - Sum(b)
    decreases |a|
  {
    if a != [] { SumMinus(a[1..], b[1..], c[1..]); }
  }

  lemma RestCovered(ss: seq<set<nat>>, all: set<nat>, x: nat)
    requires ss != [] && Apart(ss) && (x in all <==> Covered(ss, x))
    ensures x in all - ss[0] <==> Covered(ss[1..], x)
  {
    if x in all - ss[0] {
      var i :| 0 <= i < |ss| && x in ss[i];
      assert ss[1..][i - 1] == ss[i];
    }
    if Covered(ss[1..], x) {
      var i :| 0 <= i < |ss| - 1 && x in ss[1..][i];
      assert x in ss[i + 1] && ss[0] !! ss[i + 1];
    }
  }

  lemma RestSize(first: set<nat>, all: set<nat>)
    requires first <= all
    ensures |all| == |all - first| + |first|
  {
    assert all == (all - first) + first && (all - first) !! first;
  }

  /** Sets apart that cover all slots have that many members together. */
  lemma {:induction false} SizesAddUp(ss: seq<set<nat>>, all: set<nat>)
    requires Apart(ss) && forall x: nat {:trigger x in all} {:trigger Covered(ss, x)} :: x in all <==> Covered(ss, x)
    ensures Sum(Sizes(ss)) == |all|
    decreases |ss|
  {
    if ss == [] {
      forall x ensures x !in all { assert !Covered(ss, x); }
      assert all == {};
    } else {
      var rest, more := all - ss[0], ss[1..];
      assert Sizes(ss)[1..] == Sizes(more);
      forall x: nat ensures x in rest <==> Covered(more, x) { RestCovered(ss, all, x); }
      SizesAddUp(more, rest);
      forall x | x in ss[0] ensures x in all { assert Covered(ss, x); }
      RestSize(ss[0], all);
    }
  }

  /** The balances of the tool, node by node. */
  method Balances(slots: array<set<nat>>, ws: seq<real>) returns (balance: array<int>)
    requires slots.Length == |ws| && SumReal(ws) > 0.0
    ensures fresh(balance) && balance.Length == |ws|
    ensures forall i :: 0 <= i < |ws| ==> balance[i] == Balance(slots[..], ws, i)
  {
    balance := new int[|ws|];
    var total := SumReal(ws);
    var i := 0;
    while i < |ws|
      invariant 0 <= i <= |ws| && forall k :: 0 <= k < i ==> balance[k] == Balance(slots[..], ws, k)
    {
      balance[i] := |slots[i]| - Expected(ws[i], total);
      i := i + 1;
    }
  }

  /** With all slots covered the balances never sum to less than zero. */
  lemma SumNotNegative(slots: seq<set<nat>>, ws: seq<real>, bs: seq<int>)
    requires |slots| == |ws| == |bs| && SumReal(ws) > 0.0 && forall i :: 0 <= i < |ws| ==> ws[i] >= 0.0
    requires Apart(slots) && forall x: nat :: x < SLOTS <==> Covered(slots, x)
    requires forall i :: 0 <= i < |ws| ==> bs[i] == Balance(slots, ws, i)
    ensures Sum(bs) >= 0 && forall i :: 0 <= i < |ws| ==> bs[i] <= |slots[i]|
  {
    var total := SumReal(ws);
    var shares := Shares(ws, total);
    forall i | 0 <= i < |ws| ensures bs[i] == Sizes(slots)[i] - shares[i] { ShareAt(ws, total, i); }
    SumMinus(Sizes(slots), shares, bs);
    SizesAddUp(slots, Below(SLOTS));
    SharesWithin(ws, total);
    SharesFloor(ws, total);
  }

  // ------------------------------------------------------------- the threshold

  function AbsReal(x: real): real { if x < 0.0 then -x else x }

  /** The node is further from its share than the threshold allows, in percent. A threshold of
      zero is never exceeded. */
  predicate Over(threshold: real, have: nat, expected: int) {
    threshold > 0.0 &&
      if have > 0 then AbsReal(100.0 - 100.0 * expected as real / have as real) > threshold else expected > 0
  }

  /** The difference to the share, in percent of what the node has. */
  lemma OverIs(threshold: real, have: nat, expected: int)
    ensures threshold <= 0.0 ==> !Over(threshold, have, expected)
    ensures threshold > 0.0 && have == 0 ==> (Over(threshold, have, expected) <==> expected > 0)
    ensures threshold > 0.0 && have > 0 && have >= expected ==>
      (Over(threshold, have, expected) <==> 100.0 * (have - expected) as real > threshold * have as real)
    ensures threshold > 0.0 && have > 0 && have < expected ==>
      (Over(threshold, have, expected) <==> 100.0 * (expected - have) as real > threshold * have as real)
  {
    if have > 0 {
      var q := 100.0 * expected as real / have as real;
      PercentOf(expected as real, have as real, threshold);
    }
  }

  lemma PercentOf(e: real, h: real, t: real)
    requires h > 0.0
    ensures 100.0 - 100.0 * e / h > t <==> 100.0 * (h - e) > t * h
    ensures 100.0 * e / h - 100.0 > t <==> 100.0 * (e - h) > t * h
    ensures e <= h <==> 100.0 - 100.0 * e / h >= 0.0
  {
    var q := 100.0 * e / h;
    assert q * h == 100.0 * e;
    Bounded(100.0 - q, 100.0 * (h - e), t, h);
    Bounded(q - 100.0, 100.0 * (e - h), t, h);
    ScaleBound(q, 100.0, h);
  }

  lemma Bounded(x: real, xh: real, t: real, h: real)
    requires h > 0.0 && x * h == xh
    ensures x > t <==> xh > t * h
  {
    ScaleBound(x, t, h);
  }

  ghost predicate Reached(threshold: real, slots: seq<set<nat>>, ws: seq<real>)
    requires |slots| == |ws| && SumReal(ws) > 0.0
  {
    exists i :: 0 <= i < |ws| && Over(threshold, |slots[i]|, Expected(ws[i], SumReal(ws)))
  }

  /** The correction gets nowhere: there is something to correct, and no node that gains. */
  ghost predicate Stalls(slots: seq<set<nat>>, ws: seq<real>)
    requires |slots| == |ws| && SumReal(ws) > 0.0
  {
    && (exists i :: 0 <= i < |ws| && Balance(slots, ws, i) > 0)
    && forall i :: 0 <= i < |ws| ==> Balance(slots, ws, i) >= 0
  }

  /** In terms of the exact shares: nobody has less than its share rounded down, and somebody
      has more than its share. */
  lemma StallsIs(slots: seq<set<nat>>, ws: seq<real>)
    requires |slots| == |ws| && SumReal(ws) > 0.0
    ensures Stalls(slots, ws) <==>
      && (exists i :: 0 <= i < |ws| && |slots[i]| as real > SLOTS as real * ws[i] / SumReal(ws))
      && forall i :: 0 <= i < |ws| ==> |slots[i]| as real + 1.0 > SLOTS as real * ws[i] / SumReal(ws)
  {
    forall i | 0 <= i < |ws|
      ensures Balance(slots, ws, i) > 0 <==> |slots[i]| as real > SLOTS as real * ws[i] / SumReal(ws)
      ensures Balance(slots, ws, i) >= 0 <==> |slots[i]| as real + 1.0 > SLOTS as real * ws[i] / SumReal(ws)
    {
      SignOf(|slots[i]|, ws[i], SumReal(ws));
    }
    if i :| 0 <= i < |ws| && |slots[i]| as real > SLOTS as real * ws[i] / SumReal(ws) { assert Balance(slots, ws, i) > 0; }
    if i :| 0 <= i < |ws| && Balance(slots, ws, i) < 0 { assert !Stalls(slots, ws); }
  }

  lemma SignOf(have: nat, w: real, total: real)
    requires total > 0.0
    ensures have - Expected(w, total) > 0 <==> have as real > SLOTS as real * w / total
    ensures have - Expected(w, total) >= 0 <==> have as real + 1.0 > SLOTS as real * w / total
  {
    TimesTotal(SLOTS, w, total);
    FloorBelow(have, SLOTS as real / total * w);
  }

  lemma FloorBelow(n: int, x: real)
    ensures n > x.Floor <==> n as real > x
    ensures n >= x.Floor <==> n as real + 1.0 > x
  {
    var e := x.Floor;
    assert e as real <= x < e as real + 1.0;
    if n > e { assert n as real >= e as real + 1.0; }
    if n < e { assert n as real + 1.0 <= e as real; }
  }

  method AnyOver(threshold: real, slots: array<set<nat>>, ws: seq<real>) returns (reached: bool)
    requires slots.Length == |ws| && SumReal(ws) > 0.0
    ensures reached <==> Reached(threshold, slots[..], ws)
  {
    reached := false;
    var i := 0;
    while i < |ws|
      invariant 0 <= i <= |ws|
      invariant reached <==> exists k :: 0 <= k < i && Over(threshold, |slots[..][k]|, Expected(ws[k], SumReal(ws)))
    {
      if Over(threshold, |slots[i]|, Expected(ws[i], SumReal(ws))) { reached := true; }
      i := i + 1;
    }
  }

  /** Further from its share, rounded down, than the threshold allows, in percent of what it has. */
  predicate FarOff(threshold: real, have: nat, share: real) {
    threshold > 0.0 &&
      if have == 0 then share >= 1.0
      else 100.0 * (have - share.Floor) as real > threshold * have as real
           || 100.0 * (share.Floor - have) as real > threshold * have as real
  }

  lemma ReachedIs(threshold: real, slots: seq<set<nat>>, ws: seq<real>)
    requires |slots| == |ws| && SumReal(ws) > 0.0
    ensures Reached(threshold, slots, ws) <==>
            exists i :: 0 <= i < |ws| && FarOff(threshold, |slots[i]|, SLOTS as real * ws[i] / SumReal(ws))
  {
    forall i | 0 <= i < |ws|
      ensures Over(threshold, |slots[i]|, Expected(ws[i], SumReal(ws)))
              <==> FarOff(threshold, |slots[i]|, SLOTS as real * ws[i] / SumReal(ws))
    {
      FarOffIsOver(threshold, |slots[i]|, ws[i], SumReal(ws));
    }
    if i :| 0 <= i < |ws| && Over(threshold, |slots[i]|, Expected(ws[i], SumReal(ws))) {
      assert FarOff(threshold, |slots[i]|, SLOTS as real * ws[i] / SumReal(ws));
    }
    if i :| 0 <= i < |ws| && FarOff(threshold, |slots[i]|, SLOTS as real * ws[i] / SumReal(ws)) {
      assert Over(threshold, |slots[i]|, Expected(ws[i], SumReal(ws)));
    }
  }

  lemma FarOffIsOver(threshold: real, have: nat, w: real, total: real)
    requires total > 0.0
    ensures Over(threshold, have, Expected(w, total)) <==> FarOff(threshold, have, SLOTS as real * w / total)
  {
    TimesTotal(SLOTS, w, total);
    var e := Expected(w, total);
    OverIs(threshold, have, e);
    FloorBelow(0, SLOTS as real / total * w);
    if threshold > 0.0 && have > 0 { NotFar(threshold, have, e); }
  }

  lemma NotFar(threshold: real, have: nat, e: int)
    requires threshold > 0.0 && have > 0
    ensures have >= e ==> !(100.0 * (e - have) as real > threshold * have as real)
    ensures have < e ==> !(100.0 * (have - e) as real > threshold * have as real)
  {
    assert threshold * have as real > 0.0;
  }

  /** rebalance_cluster_cmd. Within the threshold nothing moves. Otherwise every node ends with
      its old number of slots less its corrected balance, and the slots are divided among the
      nodes as before, none lost and none shared. A node that has its share or more ends with the
      share, rounded down; one that has less ends with that or more. The correction must not stall. */
  method RebalanceCluster(slots: array<set<nat>>, ws: seq<real>, threshold: real) returns (moved: bool, ghost corrected: seq<int>)
    requires slots.Length == |ws| && SumReal(ws) > 0.0 && forall i :: 0 <= i < |ws| ==> ws[i] >= 0.0
    requires Apart(slots[..]) && forall x: nat :: x < SLOTS <==> Covered(slots[..], x)
    requires Reached(threshold, slots[..], ws) ==> !Stalls(slots[..], ws)
    modifies slots
    ensures moved <==> old(Reached(threshold, slots[..], ws))
    ensures moved <==> exists i :: 0 <= i < |ws| && FarOff(threshold, |old(slots[..])[i]|, SLOTS as real * ws[i] / SumReal(ws))
    ensures !moved ==> slots[..] == old(slots[..])
    ensures moved ==> |corrected| == |ws| && Sum(corrected) == 0
    ensures moved ==> forall i :: 0 <= i < |ws| ==>
      (old(Balance(slots[..], ws, i)) >= 0 ==> corrected[i] == old(Balance(slots[..], ws, i)))
      && (old(Balance(slots[..], ws, i)) < 0 ==> corrected[i] <= old(Balance(slots[..], ws, i)))
    ensures Apart(slots[..]) && forall x: nat :: x < SLOTS <==> Covered(slots[..], x)
    ensures moved ==> forall i :: 0 <= i < |ws| ==> |slots[i]| == |old(slots[i])| - corrected[i]
    ensures moved ==> forall i :: 0 <= i < |ws| ==>
      var share := SLOTS as real * ws[i] / SumReal(ws);
      && (|old(slots[i])| as real + 1.0 > share ==> |slots[i]| as real <= share < |slots[i]| as real + 1.0)
      && (|old(slots[i])| as real + 1.0 <= share ==> |old(slots[i])| < |slots[i]| && share < |slots[i]| as real + 1.0)
  {
    corrected := [];
    moved := AnyOver(threshold, slots, ws);
    ReachedIs(threshold, slots[..], ws);
    if moved {
      corrected := MoveAll(slots, ws);
      forall i | 0 <= i < |ws| ensures EndsAt(SLOTS as real * ws[i] / SumReal(ws), |old(slots[i])|, |slots[i]|) {
        EndsWhere(ws[i], SumReal(ws), |old(slots[..])[i]|, corrected[i]);
      }
    }
  }

  /** A node that has its share or more ends with the share, rounded down; one that has less ends
      with that or more. */
  predicate EndsAt(share: real, before: nat, after: nat) {
    && (before as real + 1.0 > share ==> after as real <= share < after as real + 1.0)
    && (before as real + 1.0 <= share ==> before < after && share < after as real + 1.0)
  }

  lemma EndsWhere(w: real, total: real, before: nat, corrected: int)
    requires total > 0.0 && w >= 0.0 && before - corrected >= 0
    requires var b := before - Expected(w, total); if b >= 0 then corrected == b else corrected <= b
    ensures EndsAt(SLOTS as real * w / total, before, before - corrected)
  {
    TimesTotal(SLOTS, w, total);
  }

  /** The command from the correction on. */
  method MoveAll(slots: array<set<nat>>, ws: seq<real>) returns (ghost corrected: seq<int>)
    requires slots.Length == |ws| && SumReal(ws) > 0.0 && forall i :: 0 <= i < |ws| ==> ws[i] >= 0.0
    requires Apart(slots[..]) && forall x: nat :: x < SLOTS <==> Covered(slots[..], x)
    requires !Stalls(slots[..], ws)
    modifies slots
    ensures |corrected| == |ws| && Sum(corrected) == 0
    ensures forall i :: 0 <= i < |ws| ==>
      (old(Balance(slots[..], ws, i)) >= 0 ==> corrected[i] == old(Balance(slots[..], ws, i)))
      && (old(Balance(slots[..], ws, i)) < 0 ==> corrected[i] <= old(Balance(slots[..], ws, i)))
    ensures Apart(slots[..]) && forall x: nat :: x < SLOTS <==> Covered(slots[..], x)
    ensures forall i :: 0 <= i < |ws| ==> |slots[i]| == |old(slots[i])| - corrected[i]
  {
    var balance := Balances(slots, ws);
    SumNotNegative(slots[..], ws, balance[..]);
    ghost var b0 := balance[..];
    var total := Sum(balance[..]);
    if forall i :: 0 <= i < |ws| ==> b0[i] >= 0 { AllZeroSum(b0); }
    Correct(balance, total);
    corrected := balance[..];
    ghost var target := seq(|ws|, i requires 0 <= i < |ws| => |old(slots[..])[i]| - corrected[i]);
    var sn := SortByBalance(balance[..]);
    TwoIndexes(slots, balance, sn, target);
    forall i | 0 <= i < |ws| ensures |slots[i]| == |old(slots[i])| - corrected[i] {
      EveryNode(sn, |ws|, i);
      assert slots[..][i] == slots[i];
    }
  }

  lemma {:induction false} AllZeroSum(bs: seq<int>)
    requires forall i :: 0 <= i < |bs| ==> bs[i] == 0
    ensures Sum(bs) == 0
    decreases |bs|
  {
    if bs != [] { AllZeroSum(bs[1..]); }
  }

  // ---------------------------------------------------------------- the stall

  lemma {:induction false} EqualWeights(ws: seq<real>)
    requires forall i :: 0 <= i < |ws| ==> ws[i] == 1.0
    ensures SumReal(ws) == |ws| as real
    decreases |ws|
  {
    if ws != [] { EqualWeights(ws[1..]); }
  }

  /** The slots of 22 masters: 744 each, and the last has 16 more. */
  function Uneven(): (r: seq<set<nat>>)
    ensures |r| == 22
  {
    seq(22, i requires 0 <= i < 22 => Range(744 * i, if i == 21 then 760 else 744))
  }

  function Range(start: nat, n: nat): (s: set<nat>)
    ensures |s| == n && forall x: nat :: x in s <==> start <= x < start + n
    decreases n
  {
    if n == 0 then {} else Range(start, n - 1) + {start + n - 1}
  }

  lemma UnevenApart()
    ensures Apart(Uneven())
  {}

  lemma UnevenCovers(ss: seq<set<nat>>)
    requires ss == Uneven()
    ensures forall x: nat :: x < SLOTS <==> Covered(ss, x)
  {
    forall x: nat ensures x < SLOTS <==> Covered(ss, x) {
      var i := if x / 744 > 21 then 21 else x / 744;
      if x < SLOTS { assert x in ss[i]; }
    }
  }

  lemma EqualShares(total: real)
    requires total == 22.0
    ensures Expected(1.0, total) == 744 && Over(2.0, 760, 744)
  {}

  /** 22 masters of equal weight, one of them with 760 slots and the others with 744: all slots are
      covered, the threshold of two percent is exceeded, and the correction stalls. */
  lemma CorrectionCanStall(ws: seq<real>, slots: seq<set<nat>>)
    requires |ws| == 22 && (forall i :: 0 <= i < 22 ==> ws[i] == 1.0) && slots == Uneven()
    ensures SumReal(ws) == 22.0 && Apart(slots) && forall x: nat :: x < SLOTS <==> Covered(slots, x)
    ensures Reached(2.0, slots, ws) && Stalls(slots, ws)
    ensures forall i :: 0 <= i < 22 ==> Balance(slots, ws, i) == if i == 21 then 16 else 0
  {
    EqualWeights(ws);
    EqualShares(SumReal(ws));
    UnevenApart();
    UnevenCovers(slots);
    UnevenSizes(slots);
    UnevenBalances(ws, slots);
  }

  lemma UnevenSizes(slots: seq<set<nat>>)
    requires slots == Uneven()
    ensures forall i :: 0 <= i < 22 ==> |slots[i]| == if i == 21 then 760 else 744
  {}

  lemma UnevenBalances(ws: seq<real>, slots: seq<set<nat>>)
    requires |ws| == |slots| == 22 && (forall i :: 0 <= i < 22 ==> ws[i] == 1.0) && SumReal(ws) > 0.0
    requires Expected(1.0, SumReal(ws)) == 744 && Over(2.0, 760, 744)
    requires forall i :: 0 <= i < 22 ==> |slots[i]| == if i == 21 then 760 else 744
    ensures Reached(2.0, slots, ws) && Stalls(slots, ws)
    ensures forall i :: 0 <= i < 22 ==> Balance(slots, ws, i) == if i == 21 then 16 else 0
  {
    assert Over(2.0, |slots[21]|, Expected(ws[21], SumReal(ws)));
    assert Balance(slots, ws, 21) == 16;
  }

  /** A pass leaves the balances of a stalled correction, and their sum, as they are, so that the
      loop never ends. */
  method StalledPass(balance: array<int>, total: int) returns (left: int)
    requires total == Sum(balance[..]) && total > 0 && forall i :: 0 <= i < balance.Length ==> balance[i] >= 0
    modifies balance
    ensures left == total && balance[..] == old(balance[..])
  {
    left := Pass(balance, total);
  }
}
