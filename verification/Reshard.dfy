/**
 The reshard plan of the cluster tool: which slots the source nodes give when so many are
 asked for. Shares are exact.
 */
module Reshard {
  function Sum(bs: seq<int>): int { if bs == [] then 0 else bs[0] + Sum(bs[1..]) }

  function Sizes(ss: seq<set<nat>>): (r: seq<int>)
    ensures |r| == |ss| && forall i :: 0 <= i < |ss| ==> r[i] == |ss[i]|
  {
    seq(|ss|, i requires 0 <= i < |ss| => |ss[i]|)
  }

  function Least(a: int, b: int): int { if a < b then a else b }

  // ------------------------------------------------------------------ quotas

  function Ceil(x: real): int { if x == x.Floor as real then x.Floor else x.Floor + 1 }

  /** What a source of `size` slots is to give, of `numslots` asked for and `total` there are. */
  function Share(numslots: nat, total: nat, size: int): real
    requires total > 0
  {
    numslots as real / total as real * size as real
  }

  /** The first source is rounded up, the others are rounded down. */
  function Quota(numslots: nat, total: nat, size: int, first: bool): int
    requires total > 0
  {
    if first then Ceil(Share(numslots, total, size)) else Share(numslots, total, size).Floor
  }

  /** The least number of slots not below the exact share for the first source, the greatest not
      above it for the others. */
  lemma QuotaIs(numslots: nat, total: nat, size: nat, q: int)
    requires total > 0
    ensures q == Quota(numslots, total, size, true) <==> (q - 1) * total < numslots * size <= q * total
    ensures q == Quota(numslots, total, size, false) <==> q * total <= numslots * size < (q + 1) * total
  {
    var x := Share(numslots, total, size);
    Scaled(numslots, total, size);
    AgainstShare(q - 1, x, numslots * size, total);
    AgainstShare(q, x, numslots * size, total);
    AgainstShare(q + 1, x, numslots * size, total);
    var e := x.Floor;
    assert e as real <= x < e as real + 1.0;
  }

  lemma Scaled(numslots: nat, total: nat, size: nat)
    requires total > 0
    ensures Share(numslots, total, size) * total as real == (numslots * size) as real
  {
    var unit := numslots as real / total as real;
    assert unit * total as real == numslots as real;
    Reorder(unit, size as real, total as real);
    assert (numslots * size) as real == numslots as real * size as real;
  }

  lemma Reorder(a: real, b: real, c: real)
    ensures a * b * c == a * c * b
  {}

  lemma AgainstShare(q: int, x: real, scaled: nat, total: nat)
    requires total > 0 && x * total as real == scaled as real
    ensures q as real <= x <==> q * total <= scaled
    ensures q as real < x <==> q * total < scaled
  {
    assert (q * total) as real == q as real * total as real;
    Monotone(q as real, x, total as real);
  }

  lemma Monotone(a: real, b: real, c: real)
    requires c > 0.0
    ensures a <= b <==> a * c <= b * c
    ensures a < b <==> a * c < b * c
  {}

  lemma ShareNotNegative(numslots: nat, total: nat, size: nat)
    requires total > 0
    ensures Share(numslots, total, size) >= 0.0
  {
    var unit := numslots as real / total as real;
    assert unit >= 0.0;
  }

  lemma ShareWithin(numslots: nat, total: nat, size: nat)
    requires total > 0 && numslots <= total
    ensures 0.0 <= Share(numslots, total, size) <= size as real
  {
    var unit := numslots as real / total as real;
    assert 0.0 <= unit <= 1.0;
    assert unit * size as real <= 1.0 * size as real;
  }

  /** How many slots each source has for the plan: its quota, or all it has. */
  function Given(sizes: seq<int>, numslots: nat, total: nat, first: bool): (r: seq<int>)
    requires total > 0
    ensures |r| == |sizes|
  {
    if sizes == [] then []
    else [Least(Quota(numslots, total, sizes[0], first), sizes[0])] + Given(sizes[1..], numslots, total, false)
  }

  lemma {:induction false} SumConcat(a: seq<int>, b: seq<int>)
    ensures Sum(a + b) == Sum(a) + Sum(b)
    decreases |a|
  {
    if a == [] {
      assert a + b == b;
    } else {
      assert (a + b)[1..] == a[1..] + b;
      SumConcat(a[1..], b);
    }
  }

  lemma {:induction false} GivenAt(sizes: seq<int>, numslots: nat, total: nat, first: bool, i: nat)
    requires total > 0 && i < |sizes|
    ensures Given(sizes, numslots, total, first)[i] == Least(Quota(numslots, total, sizes[i], first && i == 0), sizes[i])
    decreases i
  {
    if i > 0 { GivenAt(sizes[1..], numslots, total, false, i - 1); }
  }

  /** The shares of sources that are rounded down lose less than one slot each. */
  lemma {:induction false} FloorsLose(sizes: seq<int>, numslots: nat, total: nat)
    requires total > 0 && numslots <= total && forall i :: 0 <= i < |sizes| ==> sizes[i] >= 0
    ensures var g := Sum(Given(sizes, numslots, total, false)) as real; var exact := Share(numslots, total, Sum(sizes));
            g <= exact && g >= exact - |sizes| as real && (sizes != [] ==> g > exact - |sizes| as real)
    decreases |sizes|
  {
    if sizes != [] {
      FloorsLose(sizes[1..], numslots, total);
      ShareWithin(numslots, total, sizes[0]);
      ShareSum(numslots, total, sizes[0], Sum(sizes[1..]));
      assert Given(sizes, numslots, total, false)[1..] == Given(sizes[1..], numslots, total, false);
    }
  }

  lemma ShareSum(numslots: nat, total: nat, a: int, b: int)
    requires total > 0
    ensures Share(numslots, total, a + b) == Share(numslots, total, a) + Share(numslots, total, b)
  {
    var unit := numslots as real / total as real;
    assert unit * (a as real + b as real) == unit * a as real + unit * b as real;
  }

  lemma ShareAll(numslots: nat, total: nat)
    requires total > 0
    ensures Share(numslots, total, total) == numslots as real
  {}

  lemma CeilWithin(x: real, size: nat)
    requires x <= size as real
    ensures Ceil(x) <= size && Ceil(x) as real >= x
  {}

  /** With `k` sources the quotas fall short of what is asked by at most `k - 2` slots; with one
      source or two they never do. */
  lemma QuotasSuffice(sizes: seq<int>, numslots: nat)
    requires Sum(sizes) > 0 && numslots <= Sum(sizes) && forall i :: 0 <= i < |sizes| ==> sizes[i] >= 0
    ensures var g := Sum(Given(sizes, numslots, Sum(sizes), true));
            g >= numslots - (if |sizes| > 2 then |sizes| - 2 else 0)
  {
    var total, rest := Sum(sizes), sizes[1..];
    FloorsLose(rest, numslots, total);
    ShareWithin(numslots, total, sizes[0]);
    ShareSum(numslots, total, sizes[0], Sum(rest));
    ShareAll(numslots, total);
    CeilWithin(Share(numslots, total, sizes[0]), sizes[0]);
    assert Given(sizes, numslots, total, true)[1..] == Given(rest, numslots, total, false);
  }

  /** Four sources of four slots, asked for six: two and one and one and one are planned. */
  lemma PlanCanFallShort()
    ensures Sum([4, 4, 4, 4]) == 16 && Sum(Given([4, 4, 4, 4], 6, 16, true)) == 5
  {
    var s: seq<int> := [4, 4, 4, 4];
    var g := Given(s, 6, 16, true);
    assert Share(6, 16, 4) == 1.5;
    assert Quota(6, 16, 4, true) == 2 && Quota(6, 16, 4, false) == 1;
    forall i | 0 <= i < 4 ensures g[i] == if i == 0 then 2 else 1 { GivenAt(s, 6, 16, true, i); }
    SumFour(s);
    SumFour(g);
  }

  lemma SumFour(s: seq<int>)
    requires |s| == 4
    ensures Sum(s) == s[0] + s[1] + s[2] + s[3]
  {
    SumFirst(s, s[1..]);
    SumFirst(s[1..], s[2..]);
    SumFirst(s[2..], s[3..]);
    SumFirst(s[3..], []);
  }

  lemma SumFirst(s: seq<int>, rest: seq<int>)
    requires s != [] && rest == s[1..]
    ensures Sum(s) == s[0] + Sum(rest)
  {}

  // ---------------------------------------------------------------- the table

  method Lowest(s: set<nat>) returns (m: nat)
    requires s != {}
    ensures m in s && forall x :: x in s ==> m <= x
  {
    m :| m in s;
    var rest := s - {m};
    while rest != {}
      invariant m in s && rest <= s && forall x :: x in s && x !in rest ==> m <= x
    {
      var x :| x in rest;
      rest := rest - {x};
      if x < m { m := x; }
    }
  }

  /** The `n` lowest members, or all, in order. */
  ghost predicate LowestOf(low: seq<nat>, source: set<nat>, n: int) {
    && |low| == (if n < 0 then 0 else Least(n, |source|))
    && (forall i :: 0 <= i < |low| ==> low[i] in source)
    && (forall i, j :: 0 <= i < j < |low| ==> low[i] < low[j])
    && (forall x, i :: x in source && x !in low && 0 <= i < |low| ==> low[i] < x)
  }

  /** Sort, and take a slice from the start. */
  method TakeLowest(source: set<nat>, n: int) returns (low: seq<nat>)
    ensures LowestOf(low, source, n)
  {
    low := [];
    var rest := source;
    while rest != {} && |low| < n
      invariant rest <= source && |rest| + |low| == |source| && (n >= 0 ==> |low| <= n) && (n < 0 ==> low == [])
      invariant forall i :: 0 <= i < |low| ==> low[i] in source && low[i] !in rest
      invariant forall i, j :: 0 <= i < j < |low| ==> low[i] < low[j]
      invariant forall x, i :: x in rest && 0 <= i < |low| ==> low[i] < x
      invariant forall x :: x in source && x !in low ==> x in rest
    {
      var m := Lowest(rest);
      rest, low := rest - {m}, low + [m];
    }
    assert rest == {} ==> |rest| == 0;
  }

  datatype Move = Move(source: nat, slot: nat)

  /** What one source gives, until enough are planned. */
  method AddMoves(moved: seq<Move>, i: nat, low: seq<nat>, numslots: nat) returns (r: seq<Move>)
    requires |moved| <= numslots
    ensures |r| == Least(numslots, |moved| + |low|) && moved <= r
    ensures forall k :: |moved| <= k < |r| ==> r[k] == Move(i, low[k - |moved|])
  {
    r := moved;
    var j := 0;
    while j < |low|
      invariant 0 <= j <= |low| && |r| == Least(numslots, |moved| + j) && moved <= r
      invariant forall k :: |moved| <= k < |r| ==> r[k] == Move(i, low[k - |moved|])
    {
      if |r| < numslots { r := r + [Move(i, low[j])]; }
      j := j + 1;
    }
  }

  /** The plan names slots of its sources, each once, source by source and in order. */
  ghost predicate IsPlan(moved: seq<Move>, sources: seq<set<nat>>) {
    && (forall k :: 0 <= k < |moved| ==> moved[k].source < |sources| && moved[k].slot in sources[moved[k].source])
    && (forall k, l :: 0 <= k < l < |moved| ==>
          moved[k].source < moved[l].source || (moved[k].source == moved[l].source && moved[k].slot < moved[l].slot))
  }

  /** No slot that stays behind is lower than one that its source gives. */
  ghost predicate LowestFirst(moved: seq<Move>, sources: seq<set<nat>>) {
    forall k, x :: 0 <= k < |moved| && moved[k].source < |sources| && x in sources[moved[k].source] ==>
      Move(moved[k].source, x) in moved || moved[k].slot < x
  }

  lemma AddLowest(moved: seq<Move>, r: seq<Move>, sources: seq<set<nat>>, i: nat, low: seq<nat>, n: int)
    requires i < |sources| && LowestOf(low, sources[i], n) && LowestFirst(moved, sources) && moved <= r
    requires |r| <= |moved| + |low| && forall k :: |moved| <= k < |r| ==> r[k] == Move(i, low[k - |moved|])
    requires forall k :: 0 <= k < |moved| ==> moved[k].source < i
    ensures LowestFirst(r, sources)
  {
    forall k, x | 0 <= k < |r| && r[k].source < |sources| && x in sources[r[k].source]
      ensures Move(r[k].source, x) in r || r[k].slot < x
    {
      if k < |moved| {
        assert r[k] == moved[k];
      } else if x in low {
        var j :| 0 <= j < |low| && low[j] == x;
        assert |moved| + j < |r| ==> r[|moved| + j] == Move(i, x);
      }
    }
  }

  /** compute_reshard_table on sources sorted from bigger to smaller. There are as many slots as
      were asked for, if the quotas suffice. */
  method ReshardTable(sources: seq<set<nat>>, numslots: nat) returns (moved: seq<Move>)
    requires Sum(Sizes(sources)) > 0
    ensures IsPlan(moved, sources) && LowestFirst(moved, sources)
    ensures |moved| == Least(numslots, Sum(Given(Sizes(sources), numslots, Sum(Sizes(sources)), true)))
  {
    moved := [];
    var sizes := Sizes(sources);
    var total := Sum(sizes);
    ghost var given := Given(sizes, numslots, total, true);
    var i := 0;
    while i < |sources|
      invariant 0 <= i <= |sources| && IsPlan(moved, sources) && LowestFirst(moved, sources)
      invariant forall k :: 0 <= k < |moved| ==> moved[k].source < i
      invariant |moved| == Least(numslots, Sum(given[..i]))
    {
      var low := TakeLowest(sources[i], Quota(numslots, total, |sources[i]|, i == 0));
      GivenAt(sizes, numslots, total, true, i);
      QuotaNotNegative(numslots, total, |sources[i]|, i == 0);
      assert given[..i + 1] == given[..i] + [given[i]];
      SumConcat(given[..i], [given[i]]);
      ghost var before := moved;
      moved := AddMoves(moved, i, low, numslots);
      AddLowest(before, moved, sources, i, low, Quota(numslots, total, |sources[i]|, i == 0));
      i := i + 1;
    }
    assert given[..i] == given;
  }

  lemma QuotaNotNegative(numslots: nat, total: nat, size: nat, first: bool)
    requires total > 0
    ensures Quota(numslots, total, size, first) >= 0
  {
    ShareNotNegative(numslots, total, size);
  }

  /** A single source gives what is asked, or all it has. */
  lemma OneSource(source: set<nat>, numslots: nat)
    requires source != {}
    ensures Sum(Sizes([source])) == |source|
    ensures Sum(Given(Sizes([source]), numslots, |source|, true)) == Least(numslots, |source|)
  {
    var sizes := Sizes([source]);
    assert sizes == [|source|] && sizes[1..] == [];
    assert Given(sizes, numslots, |source|, true)[1..] == [];
    ShareAll(numslots, |source|);
  }
}
