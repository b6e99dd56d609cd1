/** The multi-MAC audit: scripts/audit-multi-mac-assets.ts.

`contains` stands for Netmask's containment test; text it rejects contains nothing. */
module MacAudit {
  import opened Wrappers

  type Containment = (string, string) -> bool

  datatype Entry = Entry(mac: string, subnet: Option<string>, device: string)
  datatype Asset = Asset(id: string, ip: Option<string>, primary: Option<string>, macs: seq<Entry>)

  datatype Verdict = NoAction | Manual | Prune(kept: seq<Entry>, dropped: seq<Entry>)

  predicate Truthy(s: Option<string>) { s.Some? && s.value != "" }

  predicate OnSubnet(contains: Containment, e: Entry, ip: Option<string>) {
    Truthy(e.subnet) && Truthy(ip) && contains(e.subnet.value, ip.value)
  }

  function DistinctSubnets(macs: seq<Entry>): set<string> {
    set i | 0 <= i < |macs| && Truthy(macs[i].subnet) :: macs[i].subnet.value
  }

  predicate Flagged(a: Asset) { |a.macs| >= 2 && |DistinctSubnets(a.macs)| >= 2 }

  function Kept(contains: Containment, macs: seq<Entry>, ip: Option<string>): seq<Entry> {
    if macs == [] then []
    else (if OnSubnet(contains, macs[0], ip) then [macs[0]] else []) + Kept(contains, macs[1..], ip)
  }

  predicate SharesMac(e: Entry, kept: seq<Entry>) { exists i :: 0 <= i < |kept| && kept[i].mac == e.mac }

  function Dropped(macs: seq<Entry>, kept: seq<Entry>): seq<Entry> {
    if macs == [] then []
    else (if SharesMac(macs[0], kept) then [] else [macs[0]]) + Dropped(macs[1..], kept)
  }

  function Judge(contains: Containment, a: Asset): Verdict {
    if !Flagged(a) then NoAction
    else
      var kept := Kept(contains, a.macs, a.ip);
      if kept == [] then Manual
      else
        var dropped := Dropped(a.macs, kept);
        if dropped == [] then NoAction else Prune(kept, dropped)
  }

  function Pruned(a: Asset, kept: seq<Entry>): Asset
    requires kept != []
  {
    a.(primary := Some(kept[0].mac), macs := kept)
  }

  /** What a run with `--apply` makes of an asset. */
  function Audited(contains: Containment, a: Asset): Asset {
    var v := Judge(contains, a);
    if v.Prune? && v.kept != [] then Pruned(a, v.kept) else a
  }

  // ----- The filters

  lemma {:induction false} KeptMembers(contains: Containment, macs: seq<Entry>, ip: Option<string>, e: Entry)
    ensures e in Kept(contains, macs, ip) <==> e in macs && OnSubnet(contains, e, ip)
  {
    if macs != [] {
      KeptMembers(contains, macs[1..], ip, e);
      assert e in macs <==> e == macs[0] || e in macs[1..];
    }
  }

  lemma {:induction false} KeptFixpoint(contains: Containment, macs: seq<Entry>, ip: Option<string>)
    requires forall i :: 0 <= i < |macs| ==> OnSubnet(contains, macs[i], ip)
    ensures Kept(contains, macs, ip) == macs
  {
    if macs != [] {
      KeptFixpoint(contains, macs[1..], ip);
      assert macs == [macs[0]] + macs[1..];
    }
  }

  lemma {:induction false} DroppedMembers(macs: seq<Entry>, kept: seq<Entry>, e: Entry)
    ensures e in Dropped(macs, kept) <==> e in macs && !SharesMac(e, kept)
  {
    if macs != [] {
      DroppedMembers(macs[1..], kept, e);
      assert e in macs <==> e == macs[0] || e in macs[1..];
    }
  }

  lemma {:induction false} DroppedNothing(macs: seq<Entry>, kept: seq<Entry>)
    requires forall i :: 0 <= i < |macs| ==> SharesMac(macs[i], kept)
    ensures Dropped(macs, kept) == []
  {
    if macs != [] { DroppedNothing(macs[1..], kept); }
  }

  // ----- Theorems

  /** The asset has MACs on two subnets. */
  predicate OnTwoSubnets(a: Asset) {
    exists i, j :: 0 <= i < |a.macs| && 0 <= j < |a.macs|
      && Truthy(a.macs[i].subnet) && Truthy(a.macs[j].subnet) && a.macs[i].subnet != a.macs[j].subnet
  }

  lemma FlaggedIff(a: Asset)
    ensures Flagged(a) <==> OnTwoSubnets(a)
  {
    var nets := DistinctSubnets(a.macs);
    if i, j :| 0 <= i < |a.macs| && 0 <= j < |a.macs|
               && Truthy(a.macs[i].subnet) && Truthy(a.macs[j].subnet) && a.macs[i].subnet != a.macs[j].subnet {
      TwoAtLeast(nets, a.macs[i].subnet.value, a.macs[j].subnet.value);
    }
    if |nets| >= 2 {
      var x :| x in nets;
      assert |nets - {x}| >= 1;
      var y :| y in nets - {x};
      var i :| 0 <= i < |a.macs| && Truthy(a.macs[i].subnet) && a.macs[i].subnet.value == x;
      var j :| 0 <= j < |a.macs| && Truthy(a.macs[j].subnet) && a.macs[j].subnet.value == y;
      assert OnTwoSubnets(a);
    }
  }

  /** What becomes of an asset. It is left alone unless it has MACs on two subnets. Then it goes to review if
      none of them contains its IP; it is pruned if one does and some MAC has no entry on such a subnet; else
      it is left alone too. */
  lemma JudgementIs(contains: Containment, a: Asset)
    ensures
      var v := Judge(contains, a);
      var some := exists i :: 0 <= i < |a.macs| && OnSubnet(contains, a.macs[i], a.ip);
      var stray := exists i :: 0 <= i < |a.macs| && !MacOnSubnet(contains, a, a.macs[i]);
      && (v.Manual? <==> OnTwoSubnets(a) && !some)
      && (v.Prune? <==> OnTwoSubnets(a) && some && stray)
  {
    hide Flagged, OnSubnet, MacOnSubnet, OnTwoSubnets;
    FlaggedIff(a);
    var kept := Kept(contains, a.macs, a.ip);
    if kept != [] {
      KeptMembers(contains, a.macs, a.ip, kept[0]);
      var i :| 0 <= i < |a.macs| && a.macs[i] == kept[0];
    }
    if i :| 0 <= i < |a.macs| && OnSubnet(contains, a.macs[i], a.ip) {
      KeptMembers(contains, a.macs, a.ip, a.macs[i]);
    }
    var dropped := Dropped(a.macs, kept);
    if dropped != [] {
      DroppedMembers(a.macs, kept, dropped[0]);
      var i :| 0 <= i < |a.macs| && a.macs[i] == dropped[0];
      KeptMacs(contains, a, a.macs[i]);
    }
    if i :| 0 <= i < |a.macs| && !MacOnSubnet(contains, a, a.macs[i]) {
      KeptMacs(contains, a, a.macs[i]);
      DroppedMembers(a.macs, kept, a.macs[i]);
    }
  }

  /** A second run prunes nothing, whatever the containment test is. */
  lemma AuditIsIdempotent(contains: Containment, a: Asset)
    ensures !Judge(contains, Audited(contains, a)).Prune?
    ensures Audited(contains, Audited(contains, a)) == Audited(contains, a)
  {
    var v, b := Judge(contains, a), Audited(contains, a);
    if v.Prune? {
      assert b.macs == v.kept;
      forall i | 0 <= i < |b.macs| ensures OnSubnet(contains, b.macs[i], b.ip) {
        KeptMembers(contains, a.macs, a.ip, b.macs[i]);
      }
      KeptFixpoint(contains, b.macs, b.ip);
      DroppedNothing(b.macs, b.macs);
    }
  }

  /** A pruned asset's new primary MAC is one of its own, on a subnet that contains its IP. */
  lemma NewPrimaryOnSubnet(contains: Containment, a: Asset)
    requires Judge(contains, a).Prune?
    ensures
      var b := Audited(contains, a);
      b.macs != [] && b.macs[0] in a.macs && OnSubnet(contains, b.macs[0], a.ip) && b.primary == Some(b.macs[0].mac)
  {
    var kept := Judge(contains, a).kept;
    KeptMembers(contains, a.macs, a.ip, kept[0]);
  }

  lemma {:induction false} KeptSplits(contains: Containment, xs: seq<Entry>, ys: seq<Entry>, ip: Option<string>)
    ensures Kept(contains, xs + ys, ip) == Kept(contains, xs, ip) + Kept(contains, ys, ip)
  {
    if xs == [] {
      assert xs + ys == ys;
    } else {
      assert (xs + ys)[1..] == xs[1..] + ys && (xs + ys)[0] == xs[0];
      KeptSplits(contains, xs[1..], ys, ip);
    }
  }

  /** Pruning keeps the entries on the subnet in their order, and the primary MAC is that of the first. */
  lemma PruneKeepsOrder(contains: Containment, a: Asset, i: nat, j: nat)
    requires Judge(contains, a).Prune? && i < j < |a.macs|
    requires OnSubnet(contains, a.macs[i], a.ip) && OnSubnet(contains, a.macs[j], a.ip)
    ensures
      var b := Audited(contains, a);
      && b.id == a.id && b.ip == a.ip
      && (exists k, m :: 0 <= k < m < |b.macs| && b.macs[k] == a.macs[i] && b.macs[m] == a.macs[j])
      && ((forall k :: 0 <= k < i ==> !OnSubnet(contains, a.macs[k], a.ip)) ==> b.primary == Some(a.macs[i].mac))
  {
    hide OnSubnet, Kept;
    var macs, ip := a.macs, a.ip;
    var before, mid := Kept(contains, macs[..i], ip), Kept(contains, macs[i + 1..j], ip);
    KeptOne(contains, macs, i, ip);
    assert macs[i + 1..] == macs[i + 1..j] + [macs[j]] + macs[j + 1..];
    KeptOne(contains, macs[i + 1..], j - i - 1, ip);
    assert macs[i + 1..][..j - i - 1] == macs[i + 1..j];
    var b := Audited(contains, a);
    assert b.macs[|before|] == macs[i] && b.macs[|before| + 1 + |mid|] == macs[j];
    if before != [] {
      KeptMembers(contains, macs[..i], ip, before[0]);
      var k :| 0 <= k < i && macs[..i][k] == before[0];
      assert OnSubnet(contains, macs[k], ip);
    }
  }

  lemma KeptOne(contains: Containment, macs: seq<Entry>, i: nat, ip: Option<string>)
    requires i < |macs| && OnSubnet(contains, macs[i], ip)
    ensures Kept(contains, macs, ip) == Kept(contains, macs[..i], ip) + [macs[i]] + Kept(contains, macs[i + 1..], ip)
  {
    assert macs == macs[..i] + macs[i..];
    KeptSplits(contains, macs[..i], macs[i..], ip);
  }

  /** No MAC is both kept and dropped, something is dropped, and every original entry is kept,
      dropped, or shares its MAC with a kept one. */
  lemma PruneIsAccountedFor(contains: Containment, a: Asset, e: Entry)
    requires Judge(contains, a).Prune? && e in a.macs
    ensures
      var v := Judge(contains, a);
      && v.dropped != []
      && (e in v.dropped ==> !SharesMac(e, v.kept))
      && (e in v.kept || e in v.dropped || SharesMac(e, v.kept))
      && (e in v.kept <==> OnSubnet(contains, e, a.ip))
  {
    var v := Judge(contains, a);
    KeptMembers(contains, a.macs, a.ip, e);
    DroppedMembers(a.macs, v.kept, e);
  }

  /** Some entry with the MAC of `e` is on a subnet that contains the asset's IP. */
  predicate MacOnSubnet(contains: Containment, a: Asset, e: Entry) {
    exists i :: 0 <= i < |a.macs| && a.macs[i].mac == e.mac && OnSubnet(contains, a.macs[i], a.ip)
  }

  lemma KeptMacs(contains: Containment, a: Asset, e: Entry)
    ensures SharesMac(e, Kept(contains, a.macs, a.ip)) <==> MacOnSubnet(contains, a, e)
  {
    hide Kept, OnSubnet;
    var kept := Kept(contains, a.macs, a.ip);
    if i :| 0 <= i < |kept| && kept[i].mac == e.mac {
      KeptMembers(contains, a.macs, a.ip, kept[i]);
      var j :| 0 <= j < |a.macs| && a.macs[j] == kept[i];
    }
    if i :| 0 <= i < |a.macs| && a.macs[i].mac == e.mac && OnSubnet(contains, a.macs[i], a.ip) {
      KeptMembers(contains, a.macs, a.ip, a.macs[i]);
      var j :| 0 <= j < |kept| && kept[j] == a.macs[i];
    }
  }

  /** A pruned asset loses an entry without its being listed as dropped exactly when the entry is off
      the subnet but another one with the same MAC is on it. */
  lemma SilentLossIff(contains: Containment, a: Asset, e: Entry)
    requires Judge(contains, a).Prune? && e in a.macs
    ensures
      var v := Judge(contains, a);
      (e !in Audited(contains, a).macs && e !in v.dropped) <==>
        !OnSubnet(contains, e, a.ip) && MacOnSubnet(contains, a, e)
  {
    KeptMacs(contains, a, e);
    var v := Judge(contains, a);
    KeptMembers(contains, a.macs, a.ip, e);
    DroppedMembers(a.macs, v.kept, e);
  }

  /** Such an asset: one MAC seen on two subnets, and another one off the subnet. */
  lemma SilentLoss()
    ensures
      var a := Asset("x", Some("ip"), None,
        [Entry("m", Some("n1"), "d"), Entry("m", Some("n2"), "d"), Entry("k", Some("n2"), "d")]);
      var contains := (net: string, ip: string) => net == "n1";
      var v := Judge(contains, a);
      && v == Prune([a.macs[0]], [a.macs[2]])
      && a.macs[1] !in Audited(contains, a).macs && a.macs[1] !in v.dropped
  {
    var a := Asset("x", Some("ip"), None,
      [Entry("m", Some("n1"), "d"), Entry("m", Some("n2"), "d"), Entry("k", Some("n2"), "d")]);
    var contains := (net: string, ip: string) => net == "n1";
    hide Kept, Dropped;
    assert a.macs[0].subnet.value in DistinctSubnets(a.macs) && a.macs[1].subnet.value in DistinctSubnets(a.macs);
    TwoAtLeast(DistinctSubnets(a.macs), "n1", "n2");
    FirstOfThree(contains, a.macs[0], a.macs[1], a.macs[2], a.ip);
  }

  lemma FirstOfThree(contains: Containment, e0: Entry, e1: Entry, e2: Entry, ip: Option<string>)
    requires OnSubnet(contains, e0, ip) && !OnSubnet(contains, e1, ip) && !OnSubnet(contains, e2, ip)
    requires e0.mac == e1.mac != e2.mac
    ensures Kept(contains, [e0, e1, e2], ip) == [e0] && Dropped([e0, e1, e2], [e0]) == [e2]
  {
    hide SharesMac, OnSubnet;
    hide Kept, Dropped;
    SharesOne(e0, e0);
    SharesOne(e1, e0);
    SharesOne(e2, e0);
    assert [e2] == [e2] + [] && [e1, e2] == [e1] + [e2] && [e0, e1, e2] == [e0] + [e1, e2];
    NothingLeft(contains, [e0], ip);
    FirstEntry(contains, e2, [], [e0], ip);
    FirstEntry(contains, e1, [e2], [e0], ip);
    FirstEntry(contains, e0, [e1, e2], [e0], ip);
  }

  lemma NothingLeft(contains: Containment, kept: seq<Entry>, ip: Option<string>)
    ensures Kept(contains, [], ip) == [] && Dropped([], kept) == []
  {
  }

  lemma FirstEntry(contains: Containment, e: Entry, macs: seq<Entry>, kept: seq<Entry>, ip: Option<string>)
    ensures Kept(contains, [e] + macs, ip) == (if OnSubnet(contains, e, ip) then [e] else []) + Kept(contains, macs, ip)
    ensures Dropped([e] + macs, kept) == (if SharesMac(e, kept) then [] else [e]) + Dropped(macs, kept)
  {
    assert ([e] + macs)[1..] == macs;
  }

  lemma SharesOne(e: Entry, e': Entry)
    ensures SharesMac(e, [e']) <==> e.mac == e'.mac
  {
    assert [e'][0] == e';
  }

  lemma TwoAtLeast(s: set<string>, x: string, y: string)
    requires x in s && y in s && x != y
    ensures |s| >= 2
  {
    assert s == {x} + (s - {x});
    assert y in s - {x};
  }

  // ----- The script

  datatype Action = Action(id: string, kept: seq<Entry>)

  type Table = map<string, Asset>

  predicate Rows(table: Table, all: seq<Asset>) {
    && (forall i :: 0 <= i < |all| ==> all[i].id in table && table[all[i].id] == all[i])
    && (forall i, j :: 0 <= i < j < |all| ==> all[i].id != all[j].id)
  }

  /** The row of asset `a` once the first actions have been applied. */
  function RowAfter(contains: Containment, actions: seq<Action>, a: Asset): Asset {
    if TakenBy(actions, a.id) then Audited(contains, a) else a
  }

  /** The decision loop collects actions, then the apply loop updates by id. */
  method RunAudit(contains: Containment, all: seq<Asset>, table: Table) returns (result: Table, pruned: nat)
    requires Rows(table, all)
    ensures result.Keys == table.Keys
    ensures forall i :: 0 <= i < |all| ==> result[all[i].id] == Audited(contains, all[i])
    ensures forall id :: id in table && (forall i :: 0 <= i < |all| ==> all[i].id != id) ==> result[id] == table[id]
  {
    hide Audited, TakenBy;
    var actions := CollectActions(contains, all);
    result, pruned := table, 0;
    NothingTaken(actions[..0]);
    for n := 0 to |actions|
      invariant result.Keys == table.Keys
      invariant forall i :: 0 <= i < |all| ==> result[all[i].id] == RowAfter(contains, actions[..n], all[i])
      invariant forall id :: id in table && (forall i :: 0 <= i < |all| ==> all[i].id != id) ==> result[id] == table[id]
    {
      var act := actions[n];
      assert IsActionFor(contains, all, act);
      ghost var k :| 0 <= k < |all| && all[k].id == act.id && act.kept != []
                     && Audited(contains, all[k]) == Pruned(all[k], act.kept);
      NotTakenYet(actions, n);
      assert actions[..n + 1] == actions[..n] + [act];
      TakenSnoc(actions[..n], act);
      result := result[act.id := Pruned(result[act.id], act.kept)];
      pruned := pruned + 1;
    }
    assert actions[..|actions|] == actions;
  }

  lemma NothingTaken(actions: seq<Action>)
    requires actions == []
    ensures forall id :: !TakenBy(actions, id)
  {
  }

  lemma NotTakenYet(actions: seq<Action>, n: nat)
    requires n < |actions| && forall i, j :: 0 <= i < j < |actions| ==> actions[i].id != actions[j].id
    ensures !TakenBy(actions[..n], actions[n].id)
  {
  }

  predicate TakenBy(actions: seq<Action>, id: string) { exists m :: 0 <= m < |actions| && actions[m].id == id }

  lemma TakenSnoc(actions: seq<Action>, act: Action)
    ensures forall id :: TakenBy(actions + [act], id) <==> TakenBy(actions, id) || act.id == id
  {
    forall id ensures TakenBy(actions + [act], id) <==> TakenBy(actions, id) || act.id == id {
      if m :| 0 <= m < |actions| && actions[m].id == id { assert (actions + [act])[m].id == id; }
      if act.id == id { assert (actions + [act])[|actions|].id == id; }
    }
  }

  ghost predicate IsActionFor(contains: Containment, all: seq<Asset>, act: Action) {
    exists k :: 0 <= k < |all| && all[k].id == act.id && act.kept != []
      && Audited(contains, all[k]) == Pruned(all[k], act.kept)
  }

  lemma JudgeDecides(contains: Containment, a: Asset)
    ensures
      var v := Judge(contains, a);
      if v.Prune? then v.kept != [] && Audited(contains, a) == Pruned(a, v.kept) else Audited(contains, a) == a
  {
  }

  method CollectActions(contains: Containment, all: seq<Asset>) returns (actions: seq<Action>)
    requires forall i, j :: 0 <= i < j < |all| ==> all[i].id != all[j].id
    ensures forall m :: 0 <= m < |actions| ==> IsActionFor(contains, all, actions[m])
    ensures forall m, n :: 0 <= m < n < |actions| ==> actions[m].id != actions[n].id
    ensures forall i :: 0 <= i < |all| ==> TakenBy(actions, all[i].id) || Audited(contains, all[i]) == all[i]
  {
    hide Audited, Judge, TakenBy;
    actions := [];
    for i := 0 to |all|
      invariant forall m :: 0 <= m < |actions| ==> IsActionFor(contains, all[..i], actions[m])
      invariant forall m, n :: 0 <= m < n < |actions| ==> actions[m].id != actions[n].id
      invariant forall j :: 0 <= j < i ==> TakenBy(actions, all[j].id) || Audited(contains, all[j]) == all[j]
    {
      var v := Judge(contains, all[i]);
      JudgeDecides(contains, all[i]);
      forall m | 0 <= m < |actions|
        ensures IsActionFor(contains, all[..i + 1], actions[m]) && actions[m].id != all[i].id
      {
        var k :| 0 <= k < i && all[..i][k].id == actions[m].id && actions[m].kept != []
                 && Audited(contains, all[..i][k]) == Pruned(all[..i][k], actions[m].kept);
        assert all[..i + 1][k] == all[k];
      }
      if v.Prune? {
        var act := Action(all[i].id, v.kept);
        assert all[..i + 1][i] == all[i];
        assert IsActionFor(contains, all[..i + 1], act);
        TakenSnoc(actions, act);
        actions := actions + [act];
      }
    }
    assert all[..|all|] == all;
  }
}
