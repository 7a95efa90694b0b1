/**
 Where a request goes: getNodeByQuery, and what a client meets that follows redirections
 while a slot is being migrated.
 */
module Routing {
  import opened Basics
  import opened Resp

  /** What a node knows. Slot tables name nodes by number. */
  datatype View<!K> = View(
    me: nat,
    owner: nat -> Option<nat>,
    importing: nat -> Option<nat>,
    migrating: nat -> Option<nat>,
    stateOk: bool,
    master: Option<nat>,
    holds: K -> bool)

  /** The keys of every command (one command unless it is EXEC), and what kind of command it is. */
  datatype Request<!K> = Request(
    cmds: seq<seq<K>>,
    exec: bool,
    inMulti: bool,
    migrate: bool,
    readCommand: bool,
    askingCommand: bool,
    readonlyClient: bool)

  datatype Reply = Serve | Moved(node: nat) | Ask(node: nat) | CrossSlot | TryAgain | Unbound | Down

  function Flat<K>(cmds: seq<seq<K>>): seq<K> {
    if cmds == [] then [] else cmds[0] + Flat(cmds[1..])
  }

  lemma {:induction false} FlatSnoc<K>(cmds: seq<seq<K>>, c: seq<K>)
    ensures Flat(cmds + [c]) == Flat(cmds) + c
    decreases |cmds|
  {
    if cmds == [] {
      assert (cmds + [c])[1..] == [];
    } else {
      assert (cmds + [c])[1..] == cmds[1..] + [c];
      FlatSnoc(cmds[1..], c);
    }
  }

  /** The keys of all commands, none left out, in order. */
  lemma {:induction false} FlatHolds<K>(cmds: seq<seq<K>>, k: K)
    ensures k in Flat(cmds) <==> exists i :: 0 <= i < |cmds| && k in cmds[i]
    ensures cmds != [] && cmds[0] != [] ==> Flat(cmds) != [] && Flat(cmds)[0] == cmds[0][0]
    decreases |cmds|
  {
    if cmds != [] {
      FlatHolds(cmds[1..], k);
      if k in Flat(cmds[1..]) {
        var i :| 0 <= i < |cmds[1..]| && k in cmds[1..][i];
        assert k in cmds[i + 1];
      }
      if i :| 0 < i < |cmds| && k in cmds[i] { assert cmds[1..][i - 1] == cmds[i]; }
    }
  }

  // -------------------------------------------------------------------- rules

  predicate Migrating<K>(v: View<K>, slot: nat) {
    v.owner(slot) == Some(v.me) && v.migrating(slot).Some?
  }

  predicate Importing<K>(v: View<K>, slot: nat) {
    !Migrating(v, slot) && v.importing(slot).Some?
  }

  predicate Missing<K>(v: View<K>, ks: seq<K>) { exists i :: 0 <= i < |ks| && !v.holds(ks[i]) }

  predicate Several<K(==)>(ks: seq<K>) { exists i :: 0 <= i < |ks| && ks[i] != ks[0] }

  predicate Scattered<K>(hash: K -> nat, ks: seq<K>) { exists i :: 0 <= i < |ks| && hash(ks[i]) != hash(ks[0]) }

  function Route<K(==)>(hash: K -> nat, v: View<K>, q: Request<K>, asking: bool): Reply {
    var ks := Flat(q.cmds);
    if q.exec && !q.inMulti then Serve
    else if ks == [] then Serve
    else
      var slot := hash(ks[0]);
      var n := v.owner(slot);
      if n.None? then Unbound
      else if Scattered(hash, ks) then CrossSlot
      else if !v.stateOk then Down
      else if (Migrating(v, slot) || Importing(v, slot)) && q.migrate then Serve
      else if Migrating(v, slot) && Missing(v, ks) then Ask(v.migrating(slot).value)
      else if Importing(v, slot) && (asking || q.askingCommand) then
        if Several(ks) && Missing(v, ks) then TryAgain else Serve
      else if q.readonlyClient && q.readCommand && v.master == n then Serve
      else if n.value == v.me then Serve
      else Moved(n.value)
  }

  // --------------------------------------------------------------- the method

  /** What the loops over commands and keys find out. */
  datatype Scan<!K> = NoKey | Bad(reply: Reply) | Keys(first: K, several: bool, missing: nat)

  /** The scan of the keys seen so far. */
  ghost predicate Scanned<K(!new)>(hash: K -> nat, v: View<K>, ks: seq<K>, s: Scan<K>) {
    match s
    case NoKey => ks == []
    case Bad(r) => false
    case Keys(first, several, missing) =>
      && ks != [] && first == ks[0] && v.owner(hash(first)).Some?
      && (forall i :: 0 <= i < |ks| ==> hash(ks[i]) == hash(first))
      && (several <==> Several(ks))
      && (Migrating(v, hash(first)) || Importing(v, hash(first)) ==> (missing > 0 <==> Missing(v, ks)))
  }

  /** One key: the first fixes the slot, the others must agree with it. */
  method ScanKey<K(==, !new)>(hash: K -> nat, v: View<K>, s: Scan<K>, key: K, ghost ks: seq<K>) returns (r: Scan<K>)
    requires Scanned(hash, v, ks, s)
    ensures r.Bad? ==> r.reply == (if ks == [] then Unbound else CrossSlot)
    ensures r.Bad? <==> (if ks == [] then v.owner(hash(key)).None? else hash(key) != hash(ks[0]))
    ensures !r.Bad? ==> Scanned(hash, v, ks + [key], r)
  {
    var several := false;
    var missing := 0;
    var first := key;
    if s.NoKey? {
      if v.owner(hash(key)).None? { return Bad(Unbound); }
    } else {
      first, several, missing := s.first, s.several, s.missing;
      if first != key {
        if hash(first) != hash(key) { return Bad(CrossSlot); }
        several := true;
      }
    }
    var slot := hash(first);
    if (Migrating(v, slot) || Importing(v, slot)) && !v.holds(key) { missing := missing + 1; }
    r := Keys(first, several, missing);
    ghost var all := ks + [key];
    assert forall i :: 0 <= i < |ks| ==> all[i] == ks[i];
    assert all[|ks|] == key;
    assert Several(all) <==> (ks != [] && Several(ks)) || (ks != [] && key != ks[0]) by { SnocSeveral(ks, key); }
    assert Missing(v, all) <==> Missing(v, ks) || !v.holds(key) by { SnocMissing(v, ks, key); }
  }

  lemma SnocSeveral<K>(ks: seq<K>, key: K)
    ensures Several(ks + [key]) <==> ks != [] && (Several(ks) || key != ks[0])
  {
    var all := ks + [key];
    assert all[|ks|] == key && forall i :: 0 <= i < |ks| ==> all[i] == ks[i];
  }

  lemma SnocMissing<K>(v: View<K>, ks: seq<K>, key: K)
    ensures Missing(v, ks + [key]) <==> Missing(v, ks) || !v.holds(key)
  {
    var all := ks + [key];
    assert all[|ks|] == key && forall i :: 0 <= i < |ks| ==> all[i] == ks[i];
  }

  /** The keys of one command. */
  method ScanCommand<K(==, !new)>(hash: K -> nat, v: View<K>, start: Scan<K>, keys: seq<K>, ghost before: seq<K>) returns (r: Scan<K>)
    requires Scanned(hash, v, before, start)
    ensures !r.Bad? ==> Scanned(hash, v, before + keys, r)
    ensures r.Bad? ==> Refused(hash, v, before + keys, r.reply)
  {
    r := start;
    var j := 0;
    assert before + keys[..0] == before;
    while j < |keys|
      invariant 0 <= j <= |keys| && Scanned(hash, v, before + keys[..j], r)
    {
      ghost var seen := before + keys[..j];
      r := ScanKey(hash, v, r, keys[j], seen);
      assert before + keys[..j + 1] == seen + [keys[j]];
      if r.Bad? {
        RefusedEarly(hash, v, seen, keys[j], keys[j + 1..]);
        assert before + keys == seen + [keys[j]] + keys[j + 1..];
        return;
      }
      j := j + 1;
    }
    assert keys[..j] == keys;
  }

  /** Why a request is refused before anything else is looked at. */
  ghost predicate Refused<K>(hash: K -> nat, v: View<K>, ks: seq<K>, reply: Reply) {
    && ks != []
    && (if v.owner(hash(ks[0])).None? then reply == Unbound else Scattered(hash, ks) && reply == CrossSlot)
  }

  lemma RefusedEarly<K>(hash: K -> nat, v: View<K>, seen: seq<K>, key: K, more: seq<K>)
    requires seen != [] ==> v.owner(hash(seen[0])).Some?
    requires if seen == [] then v.owner(hash(key)).None? else hash(key) != hash(seen[0])
    ensures Refused(hash, v, seen + [key] + more, if seen == [] then Unbound else CrossSlot)
  {
    var all := seen + [key] + more;
    assert all[|seen|] == key;
    if seen != [] { assert all[0] == seen[0]; }
  }

  lemma RefusedMore<K>(hash: K -> nat, v: View<K>, ks: seq<K>, more: seq<K>, reply: Reply)
    requires Refused(hash, v, ks, reply)
    ensures Refused(hash, v, ks + more, reply)
  {
    var all := ks + more;
    assert all[0] == ks[0];
    if v.owner(hash(ks[0])).Some? {
      var i :| 0 <= i < |ks| && hash(ks[i]) != hash(ks[0]);
      assert all[i] == ks[i];
    }
  }

  /** The keys of the later commands follow those of the first. */
  lemma {:induction false} FlatSplit<K>(cmds: seq<seq<K>>, i: nat)
    requires i <= |cmds|
    ensures Flat(cmds) == Flat(cmds[..i]) + Flat(cmds[i..])
    decreases i
  {
    if i == 0 {
      assert cmds[..0] == [] && cmds[0..] == cmds;
    } else {
      FlatSplit(cmds[1..], i - 1);
      assert cmds[..i][1..] == cmds[1..][..i - 1] && cmds[1..][i - 1..] == cmds[i..];
    }
  }

  lemma RefusedInAll<K>(hash: K -> nat, v: View<K>, cmds: seq<seq<K>>, i: nat, reply: Reply)
    requires i <= |cmds| && Refused(hash, v, Flat(cmds[..i]), reply)
    ensures Refused(hash, v, Flat(cmds), reply)
  {
    FlatSplit(cmds, i);
    RefusedMore(hash, v, Flat(cmds[..i]), Flat(cmds[i..]), reply);
  }

  /** getNodeByQuery, with the keys of the request. Each reply is given exactly when the source gives it:
      no slot is looked at for a request without keys; then the slot must have an owner, the keys
      must share it, and the cluster must be up; a migrating slot sends away what it lacks; an
      imported one serves what is asked for, if all of several keys are there. */
  method GetNodeByQuery<K(==, !new)>(hash: K -> nat, v: View<K>, q: Request<K>, asking: bool) returns (reply: Reply, ghost ks: seq<K>)
    ensures reply == Route(hash, v, q, asking) && ks == Flat(q.cmds)
    ensures (q.exec && !q.inMulti) || ks == [] ==> reply == Serve
    ensures !(q.exec && !q.inMulti) && ks != [] ==>
      var slot := hash(ks[0]);
      var n := v.owner(slot);
      var up := n.Some? && (forall i :: 0 <= i < |ks| ==> hash(ks[i]) == slot) && v.stateOk;
      var mig := n == Some(v.me) && v.migrating(slot).Some?;
      var imp := !mig && v.importing(slot).Some?;
      var all := forall i :: 0 <= i < |ks| ==> v.holds(ks[i]);
      var several := exists i :: 0 <= i < |ks| && ks[i] != ks[0];
      && (reply == Unbound <==> n.None?)
      && (reply == CrossSlot <==> n.Some? && exists i :: 0 <= i < |ks| && hash(ks[i]) != slot)
      && (reply == Down <==> n.Some? && (forall i :: 0 <= i < |ks| ==> hash(ks[i]) == slot) && !v.stateOk)
      && (reply.Ask? <==> up && mig && !q.migrate && !all)
      && (reply.Ask? ==> v.migrating(slot) == Some(reply.node))
      && (reply == TryAgain <==> up && imp && !q.migrate && (asking || q.askingCommand) && several && !all)
      && (reply.Moved? <==> up && n != Some(v.me) && !(imp && (q.migrate || asking || q.askingCommand))
                            && !(q.readonlyClient && q.readCommand && v.master == n))
      && (reply.Moved? ==> n == Some(reply.node))
  {
    ks := Flat(q.cmds);
    if q.exec && !q.inMulti { return Serve, ks; }
    var s: Scan<K> := NoKey;
    var i := 0;
    while i < |q.cmds|
      invariant 0 <= i <= |q.cmds| && Scanned(hash, v, Flat(q.cmds[..i]), s)
    {
      ghost var before := Flat(q.cmds[..i]);
      s := ScanCommand(hash, v, s, q.cmds[i], before);
      assert q.cmds[..i + 1] == q.cmds[..i] + [q.cmds[i]];
      FlatSnoc(q.cmds[..i], q.cmds[i]);
      if s.Bad? {
        RefusedInAll(hash, v, q.cmds, i + 1, s.reply);
        return s.reply, ks;
      }
      i := i + 1;
    }
    assert q.cmds[..i] == q.cmds;
    if s.NoKey? { return Serve, ks; }
    assert !Scattered(hash, ks);
    if !v.stateOk { return Down, ks; }
    var slot := hash(s.first);
    var n := v.owner(slot).value;
    var mig, imp := Migrating(v, slot), Importing(v, slot);
    if (mig || imp) && q.migrate { return Serve, ks; }
    if mig && s.missing > 0 { return Ask(v.migrating(slot).value), ks; }
    if imp && (asking || q.askingCommand) {
      return if s.several && s.missing > 0 then TryAgain else Serve, ks;
    }
    if q.readonlyClient && q.readCommand && v.master == Some(n) { return Serve, ks; }
    return if n == v.me then Serve else Moved(n), ks;
  }

  // -------------------------------------------------------------- a migration

  /** A request that is sent somewhere has all its keys in one slot. */
  lemma RoutedKeysShareSlot<K>(hash: K -> nat, v: View<K>, q: Request<K>, asking: bool, i: nat, j: nat)
    requires !(q.exec && !q.inMulti) && i < |Flat(q.cmds)| && j < |Flat(q.cmds)|
    requires var r := Route(hash, v, q, asking); r.Serve? || r.Moved? || r.Ask?
    ensures hash(Flat(q.cmds)[i]) == hash(Flat(q.cmds)[j])
  {
    var ks := Flat(q.cmds);
    assert !Scattered(hash, ks);
    assert hash(ks[i]) == hash(ks[0]) && hash(ks[j]) == hash(ks[0]);
  }

  /** While a slot is open, a request other than MIGRATE that names several keys runs only
      where all of them are. */
  lemma OpenSlotServesWhatItHolds<K>(hash: K -> nat, v: View<K>, q: Request<K>, asking: bool, i: nat)
    requires !(q.exec && !q.inMulti) && i < |Flat(q.cmds)| && !q.migrate && v.master.None?
    requires Route(hash, v, q, asking).Serve?
    requires var slot := hash(Flat(q.cmds)[0]);
             Migrating(v, slot) || (Importing(v, slot) && v.owner(slot) != Some(v.me) && Several(Flat(q.cmds)))
    ensures v.holds(Flat(q.cmds)[i])
  {
    var ks := Flat(q.cmds);
    assert !Missing(v, ks);
  }

  /** A client that follows redirections is served after `hops` of them by `server`. */
  ghost predicate ServedIn<K>(hash: K -> nat, views: nat -> View<K>, q: Request<K>, at: nat, asking: bool,
                              hops: nat, server: nat, asked: bool)
    decreases hops
  {
    match Route(hash, views(at), q, asking)
    case Serve => hops == 0 && server == at && asked == asking
    case Moved(n) => hops > 0 && ServedIn(hash, views, q, n, false, hops - 1, server, asked)
    case Ask(n) => hops > 0 && ServedIn(hash, views, q, n, true, hops - 1, server, asked)
    case _ => false
  }

  /** Where a request ends is determined. */
  lemma {:induction false} ServedOnce<K>(hash: K -> nat, views: nat -> View<K>, q: Request<K>, at: nat, asking: bool,
                                         h1: nat, s1: nat, a1: bool, h2: nat, s2: nat, a2: bool)
    requires ServedIn(hash, views, q, at, asking, h1, s1, a1) && ServedIn(hash, views, q, at, asking, h2, s2, a2)
    ensures h1 == h2 && s1 == s2 && a1 == a2
    decreases h1
  {
    match Route(hash, views(at), q, asking)
    case Moved(n) => ServedOnce(hash, views, q, n, false, h1 - 1, s1, a1, h2 - 1, s2, a2);
    case Ask(n) => ServedOnce(hash, views, q, n, true, h1 - 1, s1, a1, h2 - 1, s2, a2);
    case _ =>
  }

  /** Slot `slot` moves from `a` to `b`: every master names `a`, only `a` migrates it and only
      `b` imports it. */
  ghost predicate Moving<K>(views: nat -> View<K>, masters: set<nat>, slot: nat, a: nat, b: nat) {
    && a in masters && b in masters && a != b
    && (forall n :: n in masters ==>
          views(n).me == n && views(n).stateOk && views(n).master.None? && views(n).owner(slot) == Some(a))
    && views(a).migrating(slot) == Some(b)
    && (forall n :: n in masters ==> (views(n).importing(slot).Some? <==> n == b))
  }

  /** A request for one key; `ac` is whether its command has the asking flag, as RESTORE-ASKING has. */
  function OneKey<K>(key: K, ac: bool, rc: bool, ro: bool): Request<K> {
    Request([[key]], false, false, false, rc, ac, ro)
  }

  lemma FlatOne<K>(key: K)
    ensures Flat([[key]]) == [key]
  {
    assert [[key]][1..] == [];
    assert [key] + [] == [key];
  }

  lemma AtOwner<K>(hash: K -> nat, views: nat -> View<K>, masters: set<nat>, a: nat, b: nat, key: K, ac: bool, rc: bool, ro: bool)
    requires Moving(views, masters, hash(key), a, b)
    ensures Route(hash, views(a), OneKey(key, ac, rc, ro), false) == if views(a).holds(key) then Serve else Ask(b)
    ensures Route(hash, views(b), OneKey(key, ac, rc, ro), true) == Serve
    ensures ac ==> Route(hash, views(b), OneKey(key, ac, rc, ro), false) == Serve
  {
    FlatOne(key);
    var ks := [key];
    assert ks[0] == key && forall n :: n in masters ==> (Missing(views(n), ks) <==> !views(n).holds(key)) by {
      forall n | n in masters ensures Missing(views(n), ks) <==> !views(n).holds(key) {
        assert !views(n).holds(key) ==> !views(n).holds(ks[0]);
      }
    }
  }

  lemma Elsewhere<K>(hash: K -> nat, views: nat -> View<K>, masters: set<nat>, a: nat, b: nat,
                     key: K, ac: bool, rc: bool, ro: bool, at: nat)
    requires Moving(views, masters, hash(key), a, b) && at in masters && at != a && !(ac && at == b)
    ensures Route(hash, views(at), OneKey(key, ac, rc, ro), false) == Moved(a)
  {
    FlatOne(key);
  }

  /** From any master, a request for one key reaches, in at most two redirections, the old owner
      if it still holds the key and otherwise the new one under ASKING, and nobody else. Only a
      command with the asking flag that is sent to the new one is served there at once. */
  lemma MigrationServesOnce<K>(hash: K -> nat, views: nat -> View<K>, masters: set<nat>, a: nat, b: nat,
                               key: K, ac: bool, rc: bool, ro: bool, at: nat)
    returns (hops: nat)
    requires Moving(views, masters, hash(key), a, b) && at in masters
    ensures hops <= 2
    ensures var direct, held := ac && at == b, views(a).holds(key);
            ServedIn(hash, views, OneKey(key, ac, rc, ro), at, false, hops, if held && !direct then a else b, !held && !direct)
    ensures forall h: nat, s: nat, u: bool :: ServedIn(hash, views, OneKey(key, ac, rc, ro), at, false, h, s, u) ==>
              var direct, held := ac && at == b, views(a).holds(key);
              h == hops && s == (if held && !direct then a else b) && u == (!held && !direct)
  {
    var q, held, direct := OneKey(key, ac, rc, ro), views(a).holds(key), ac && at == b;
    AtOwner(hash, views, masters, a, b, key, ac, rc, ro);
    var server, asked := if held && !direct then a else b, !held && !direct;
    var fromOwner: nat := if held then 0 else 1;
    if direct {
      hops := 0;
    } else {
      assert ServedIn(hash, views, q, b, true, 0, b, true);
      assert ServedIn(hash, views, q, a, false, fromOwner, server, asked);
      hops := fromOwner;
      if at != a {
        Elsewhere(hash, views, masters, a, b, key, ac, rc, ro, at);
        hops := fromOwner + 1;
      }
    }
    assert ServedIn(hash, views, q, at, false, hops, server, asked);
    forall h: nat, s: nat, u: bool | ServedIn(hash, views, q, at, false, h, s, u)
      ensures h == hops && s == server && u == asked
    {
      ServedOnce(hash, views, q, at, false, h, s, u, hops, server, asked);
    }
  }
}
