/** How concurrent PUTs leave the server's region table: `updateRegion` in
src/services/mapRegionService.ts.

The PUTs of one save are under way at the same time, and each reads the whole table and writes the
whole table back. `RegionEdit` has these as steps of the session; here only the database sees them. */
module RegionTable {
  import R = RegionEdit

  type Table = R.Table

  datatype Event = Load(id: string) | Persist(id: string)

  /** The table after these database steps of PUTs that carry `sent`. */
  function TableAfter(table: Table, sent: Table, evs: seq<Event>): Table
    decreases |evs|
  {
    if evs == [] then table
    else
      var n := |evs| - 1;
      match evs[n]
      case Load(_) => TableAfter(table, sent, evs[..n])
      case Persist(id) =>
        if Load(id) in evs[..n] && id in sent
        then TableAfter(table, sent, evs[..LoadedAt(evs[..n], id)])[id := sent[id]]
        else TableAfter(table, sent, evs[..n])
  }

  /** When the PUT read the table. */
  function LoadedAt(evs: seq<Event>, id: string): (l: nat)
    requires Load(id) in evs
    ensures l < |evs| && evs[l] == Load(id)
  {
    var n := |evs| - 1;
    if evs[n] == Load(id) then n
    else
      assert Load(id) in evs[..n];
      LoadedAt(evs[..n], id)
  }

  /** PUTs read before they write, and do neither twice. */
  ghost predicate Ordered(evs: seq<Event>, ids: set<string>) {
    && (forall i :: 0 <= i < |evs| ==> evs[i].id in ids)
    && (forall i, j :: 0 <= i < j < |evs| ==> evs[i] != evs[j])
    && (forall i :: 0 <= i < |evs| && evs[i].Persist? ==> Load(evs[i].id) in evs[..i])
  }

  /** Every PUT reads once, then writes once. */
  ghost predicate Schedule(evs: seq<Event>, ids: set<string>) {
    Ordered(evs, ids) && forall id :: id in ids ==> Persist(id) in evs
  }

  /** The PUTs are handled one after the other. */
  predicate Serial(evs: seq<Event>)
    decreases |evs|
  {
    var n := |evs|;
    evs == [] || (n >= 2 && evs[n - 1].Persist? && evs[n - 2] == Load(evs[n - 1].id) && Serial(evs[..n - 2]))
  }

  predicate AllStored(table: Table, sent: Table) {
    forall id :: id in sent ==> id in table && table[id] == sent[id]
  }

  // ----- What a schedule stores

  /** The regions whose write has survived: the last one to write, whatever had survived when it read,
      and nothing else. */
  function Surviving(evs: seq<Event>): set<string>
    decreases |evs|
  {
    if evs == [] then {}
    else
      var n := |evs| - 1;
      if evs[n].Persist? && Load(evs[n].id) in evs[..n]
      then {evs[n].id} + Surviving(evs[..LoadedAt(evs[..n], evs[n].id)])
      else Surviving(evs[..n])
  }

  lemma {:induction false} TableIs(table: Table, sent: Table, evs: seq<Event>, id: string)
    requires forall i :: 0 <= i < |evs| ==> evs[i].id in sent
    ensures
      var t := TableAfter(table, sent, evs);
      if id in sent && id in Surviving(evs) then id in t && t[id] == sent[id]
      else (id in t <==> id in table) && (id in t ==> t[id] == table[id])
    decreases |evs|
  {
    if evs != [] {
      var n := |evs| - 1;
      TableIs(table, sent, evs[..n], id);
      if evs[n].Persist? && Load(evs[n].id) in evs[..n] {
        var l := LoadedAt(evs[..n], evs[n].id);
        assert evs[..n][..l] == evs[..l];
        TableIs(table, sent, evs[..l], id);
      }
    }
  }

  /** A schedule stores every shape sent if and only if each region's write survives or changes
      nothing. */
  lemma AllStoredIff(table: Table, sent: Table, evs: seq<Event>)
    requires Schedule(evs, sent.Keys)
    ensures AllStored(TableAfter(table, sent, evs), sent)
      <==> forall id :: id in sent && id !in Surviving(evs) ==> id in table && table[id] == sent[id]
  {
    hide TableAfter, Surviving;
    forall id | id in sent
      ensures
        var t := TableAfter(table, sent, evs);
        id in t && t[id] == sent[id] <==> (id !in Surviving(evs) ==> id in table && table[id] == sent[id])
    {
      TableIs(table, sent, evs, id);
    }
  }

  lemma {:induction false} SurvivorHasWritten(evs: seq<Event>, id: string)
    requires id in Surviving(evs)
    ensures Persist(id) in evs
    decreases |evs|
  {
    var n := |evs| - 1;
    if evs[n].Persist? && Load(evs[n].id) in evs[..n] {
      if evs[n].id != id {
        var l := LoadedAt(evs[..n], evs[n].id);
        assert evs[..n][..l] == evs[..l];
        SurvivorHasWritten(evs[..l], id);
      }
    } else {
      SurvivorHasWritten(evs[..n], id);
    }
  }

  // ----- Serial schedules

  lemma LastPersists(evs: seq<Event>, ids: set<string>)
    requires Schedule(evs, ids) && evs != []
    ensures evs[|evs| - 1].Persist?
  {
    var z := evs[|evs| - 1].id;
    var i :| 0 <= i < |evs| && evs[i] == Persist(z);
    var j :| 0 <= j < i && evs[..i][j] == Load(z);
    assert evs[j] == Load(z);
  }

  /** After its write a PUT takes no further step. */
  lemma DoneAfterWrite(evs: seq<Event>, ids: set<string>, j: nat, i: nat)
    requires Ordered(evs, ids) && j < i < |evs|
    ensures evs[j].Persist? ==> evs[i].id != evs[j].id
  {
    if evs[j].Persist? {
      var m :| 0 <= m < j && evs[..j][m] == Load(evs[j].id);
      assert evs[m] == Load(evs[j].id) && evs[i] != evs[m] && evs[i] != evs[j];
    }
  }

  /** If everything else has been written before the last PUT reads, it is the only one left. */
  lemma NothingBetween(evs: seq<Event>, ids: set<string>, l: nat)
    requires Ordered(evs, ids) && evs != [] && l < |evs| - 1
    requires evs[l] == Load(evs[|evs| - 1].id) && evs[|evs| - 1].Persist?
    requires forall x :: x in ids && x != evs[|evs| - 1].id ==> Persist(x) in evs[..l]
    ensures l == |evs| - 2
  {
    var z := evs[|evs| - 1].id;
    forall x | x in ids && x != z ensures evs[l + 1].id != x {
      var j :| 0 <= j < l && evs[..l][j] == Persist(x);
      DoneAfterWrite(evs, ids, j, l + 1);
    }
    assert evs[l + 1] == Persist(z);
  }

  lemma LastSurvives(evs: seq<Event>, ids: set<string>) returns (l: nat)
    requires Schedule(evs, ids) && evs != []
    ensures
      var n := |evs| - 1;
      && l < n && evs[n].Persist? && evs[n].id in ids && evs[l] == Load(evs[n].id)
      && Surviving(evs) == {evs[n].id} + Surviving(evs[..l])
  {
    var n := |evs| - 1;
    LastPersists(evs, ids);
    l := LoadedAt(evs[..n], evs[n].id);
    assert evs[..n][..l] == evs[..l];
  }

  /** Without its last PUT a schedule is one for the others. */
  lemma WithoutLast(evs: seq<Event>, ids: set<string>)
    requires Schedule(evs, ids)
    requires |evs| >= 2 && evs[|evs| - 1].Persist? && evs[|evs| - 2] == Load(evs[|evs| - 1].id)
    ensures Schedule(evs[..|evs| - 2], ids - {evs[|evs| - 1].id})
  {
    var n := |evs| - 2;
    FrontOrdered(evs, ids, n);
    FrontOfOthers(evs, ids, n);
    FrontPersists(evs, ids, n);
    FrontDistinct(evs, ids, n);
  }

  lemma FrontDistinct(evs: seq<Event>, ids: set<string>, n: nat)
    requires Ordered(evs, ids) && n <= |evs|
    ensures forall i, j :: 0 <= i < j < n ==> evs[..n][i] != evs[..n][j]
  {
  }

  lemma FrontPersists(evs: seq<Event>, ids: set<string>, n: nat)
    requires Schedule(evs, ids) && n + 2 == |evs| && evs[n + 1].Persist? && evs[n] == Load(evs[n + 1].id)
    ensures forall id :: id in ids - {evs[n + 1].id} ==> Persist(id) in evs[..n]
  {
    forall id | id in ids - {evs[n + 1].id} ensures Persist(id) in evs[..n] {
      var i :| 0 <= i < |evs| && evs[i] == Persist(id);
      assert evs[..n][i] == Persist(id);
    }
  }

  lemma FrontOfOthers(evs: seq<Event>, ids: set<string>, n: nat)
    requires Ordered(evs, ids) && n + 2 == |evs| && evs[n + 1].Persist? && evs[n] == Load(evs[n + 1].id)
    ensures forall i :: 0 <= i < n ==> evs[..n][i].id in ids - {evs[n + 1].id}
  {
    forall i | 0 <= i < n ensures evs[i].id in ids - {evs[n + 1].id} {
      assert evs[i] != evs[n] && evs[i] != evs[n + 1];
    }
  }

  lemma FrontOrdered(evs: seq<Event>, ids: set<string>, n: nat)
    requires Ordered(evs, ids) && n <= |evs|
    ensures forall i :: 0 <= i < n && evs[..n][i].Persist? ==> Load(evs[..n][i].id) in evs[..n][..i]
  {
    forall i | 0 <= i < n && evs[i].Persist? ensures Load(evs[i].id) in evs[..n][..i] {
      assert evs[..n][..i] == evs[..i];
    }
  }

  /** All writes of a schedule survive if and only if the server handles the PUTs one after the
      other. */
  lemma {:induction false} AllSurviveIffSerial(evs: seq<Event>, ids: set<string>)
    requires Schedule(evs, ids)
    ensures ids <= Surviving(evs) <==> Serial(evs)
    decreases |evs|
  {
    hide Surviving, Schedule;
    if evs == [] {
      NothingSent(evs, ids);
    } else {
      var n := |evs| - 1;
      var z := evs[n].id;
      var l := LastSurvives(evs, ids);
      if ids <= Surviving(evs) {
        forall x | x in ids && x != z ensures Persist(x) in evs[..l] { SurvivorHasWritten(evs[..l], x); }
        ScheduleIsOrdered(evs, ids);
        NothingBetween(evs, ids, l);
      }
      if l == n - 1 {
        WithoutLast(evs, ids);
        AllSurviveIffSerial(evs[..l], ids - {z});
      } else {
        NotLoadedLast(evs, ids, l);
      }
    }
  }

  lemma ScheduleIsOrdered(evs: seq<Event>, ids: set<string>)
    requires Schedule(evs, ids)
    ensures Ordered(evs, ids)
  {
  }

  lemma NotLoadedLast(evs: seq<Event>, ids: set<string>, l: nat)
    requires Schedule(evs, ids) && evs != [] && l < |evs| - 2 && evs[l] == Load(evs[|evs| - 1].id)
    ensures !Serial(evs)
  {
    assert evs[l] != evs[|evs| - 2];
  }

  lemma NothingSent(evs: seq<Event>, ids: set<string>)
    requires Schedule(evs, ids) && evs == []
    ensures ids == {} && Surviving(evs) == {}
  {
  }

  // ----- All schedules

  /** The PUTs one after the other, in some order. */
  lemma {:induction false} SomeSchedule(ids: set<string>) returns (evs: seq<Event>)
    ensures Schedule(evs, ids)
    decreases |ids|
  {
    if ids == {} {
      evs := [];
    } else {
      var z :| z in ids;
      var rest := SomeSchedule(ids - {z});
      evs := Around(rest, z);
      Enclosed(rest, ids - {z}, z);
      assert ids - {z} + {z} == ids;
    }
  }

  function Around(rest: seq<Event>, z: string): (evs: seq<Event>)
    ensures |evs| == |rest| + 2 && evs[0] == Load(z) && evs[|rest| + 1] == Persist(z)
    ensures forall i :: 0 <= i < |rest| ==> evs[i + 1] == rest[i]
  {
    [Load(z)] + rest + [Persist(z)]
  }

  /** A PUT that reads before a schedule of others and writes after it. */
  lemma Enclosed(rest: seq<Event>, ids: set<string>, z: string)
    requires Schedule(rest, ids) && z !in ids
    ensures Schedule(Around(rest, z), ids + {z})
  {
    hide Around;
    var evs := Around(rest, z);
    EnclosedReads(rest, ids, z);
    EnclosedDistinct(rest, ids, z);
    forall i | 0 <= i < |evs| ensures evs[i].id in ids + {z} {
      if 0 < i <= |rest| { assert evs[i - 1 + 1] == rest[i - 1]; }
    }
    forall id | id in ids ensures Persist(id) in evs {
      var i :| 0 <= i < |rest| && rest[i] == Persist(id);
      assert evs[i + 1] == Persist(id);
    }
  }

  lemma EnclosedDistinct(rest: seq<Event>, ids: set<string>, z: string)
    requires Ordered(rest, ids) && z !in ids
    ensures var evs := Around(rest, z); forall i, j :: 0 <= i < j < |evs| ==> evs[i] != evs[j]
  {
    hide Around;
    var evs := Around(rest, z);
    forall i, j | 0 <= i < j < |evs| ensures evs[i] != evs[j] {
      if 0 < i { assert evs[i - 1 + 1] == rest[i - 1]; }
      if j <= |rest| { assert evs[j - 1 + 1] == rest[j - 1]; }
    }
  }

  lemma EnclosedReads(rest: seq<Event>, ids: set<string>, z: string)
    requires Ordered(rest, ids) && z !in ids
    ensures
      var evs := Around(rest, z);
      forall i :: 0 <= i < |evs| && evs[i].Persist? ==> Load(evs[i].id) in evs[..i]
  {
    hide Around;
    var evs := Around(rest, z);
    forall i | 0 <= i < |evs| && evs[i].Persist? ensures Load(evs[i].id) in evs[..i] {
      if i == |rest| + 1 {
        assert evs[..i][0] == Load(z);
      } else {
        assert evs[i - 1 + 1] == rest[i - 1];
        var m :| 0 <= m < i - 1 && rest[..i - 1][m] == Load(rest[i - 1].id);
        assert evs[..i][m + 1] == Load(evs[i].id);
      }
    }
  }

  /** The enclosing PUT undoes all the others. */
  lemma EnclosingWins(rest: seq<Event>, ids: set<string>, z: string)
    requires Schedule(rest, ids) && z !in ids
    ensures Surviving(Around(rest, z)) == {z}
  {
    hide Surviving, Schedule, Around;
    var evs := Around(rest, z);
    Enclosed(rest, ids, z);
    var l := LastSurvives(evs, ids + {z});
    ReadsOnce(evs, ids + {z}, l);
    NothingSurvives();
    assert evs[..0] == [];
  }

  lemma ReadsOnce(evs: seq<Event>, ids: set<string>, l: nat)
    requires Schedule(evs, ids) && l < |evs| && evs[l] == evs[0]
    ensures l == 0
  {
  }

  lemma NothingSurvives()
    ensures Surviving([]) == {}
  {
  }

  /** What a caller can tell beforehand: every schedule of the PUTs stores every shape if and only if
      there is at most one of them or none changes its region. */
  lemma EveryScheduleStoresIff(table: Table, sent: Table)
    requires sent.Keys <= table.Keys
    ensures (forall evs :: Schedule(evs, sent.Keys) ==> AllStored(TableAfter(table, sent, evs), sent))
      <==> |sent.Keys| <= 1 || forall id :: id in sent ==> table[id] == sent[id]
  {
    hide Schedule, TableAfter, Surviving, AllStored;
    if |sent.Keys| <= 1 || forall id :: id in sent ==> table[id] == sent[id] {
      forall evs | Schedule(evs, sent.Keys) ensures AllStored(TableAfter(table, sent, evs), sent) {
        AllStoredIff(table, sent, evs);
        if |sent.Keys| <= 1 { OneSurvives(evs, sent.Keys); }
      }
    } else {
      var x :| x in sent && table[x] != sent[x];
      var evs := LosingSchedule(table, sent, x);
    }
  }

  /** Whenever two or more PUTs are sent, each of them that changes its region can be lost. */
  lemma LosingSchedule(table: Table, sent: Table, x: string) returns (evs: seq<Event>)
    requires |sent.Keys| > 1 && x in sent && x in table && table[x] != sent[x]
    ensures Schedule(evs, sent.Keys) && !AllStored(TableAfter(table, sent, evs), sent)
  {
    hide Schedule, TableAfter, Surviving, AllStored, Around;
    var y := AnotherOne(sent.Keys, x);
    var rest := SomeSchedule(sent.Keys - {y});
    evs := Around(rest, y);
    Enclosed(rest, sent.Keys - {y}, y);
    assert sent.Keys - {y} + {y} == sent.Keys;
    EnclosingWins(rest, sent.Keys - {y}, y);
    AllStoredIff(table, sent, evs);
  }

  lemma AnotherOne(ids: set<string>, x: string) returns (y: string)
    requires |ids| > 1 && x in ids
    ensures y in ids && y != x
  {
    assert ids != {x};
    assert |ids - {x}| == |ids| - 1;
    y :| y in ids - {x};
  }

  lemma OneSurvives(evs: seq<Event>, ids: set<string>)
    requires Schedule(evs, ids) && |ids| <= 1
    ensures ids <= Surviving(evs)
  {
    hide Surviving;
    if evs == [] {
      NothingSent(evs, ids);
    } else {
      var l := LastSurvives(evs, ids);
      var z := evs[|evs| - 1].id;
      assert |ids - {z}| == |ids| - 1;
      assert ids == {z} + (ids - {z});
    }
  }

  /** Two regions saved at once, both PUTs reading before either writes: the first one written is
      lost, although both are answered with success. */
  lemma LostUpdate(table: Table, sent: Table)
    requires sent.Keys == {"a", "b"} && "a" in table && table["a"] != sent["a"]
    ensures
      var evs := [Load("a"), Load("b"), Persist("a"), Persist("b")];
      var t := TableAfter(table, sent, evs);
      Schedule(evs, sent.Keys) && "a" in t && t["a"] == table["a"]
  {
    hide TableAfter, Surviving;
    var evs := [Load("a"), Load("b"), Persist("a"), Persist("b")];
    assert evs[2] == Persist("a") && evs[3] == Persist("b") && evs[..2][0] == Load("a") && evs[..3][1] == Load("b");
    assert evs[..2] == [Load("a"), Load("b")] && evs[..3] == [Load("a"), Load("b"), Persist("a")];
    var l := LastSurvives(evs, sent.Keys);
    assert l == 1 && evs[..1] == [Load("a")];
    assert "a" !in Surviving(evs) by {
      if "a" in Surviving(evs[..1]) { SurvivorHasWritten(evs[..1], "a"); }
    }
    TableIs(table, sent, evs, "a");
  }

  // ----- The table is the session's

  function LiftOne(ev: Event, n: nat): R.Event {
    if ev.Load? then R.Load(R.PutKey(n, ev.id)) else R.Persist(R.PutKey(n, ev.id))
  }

  /** The steps as steps of the session, for the PUTs of save `n`. */
  function Lift(evs: seq<Event>, n: nat): (r: seq<R.Event>)
    ensures |r| == |evs| && forall i :: 0 <= i < |evs| ==> r[i] == LiftOne(evs[i], n)
  {
    seq(|evs|, i requires 0 <= i < |evs| => LiftOne(evs[i], n))
  }

  /** How far the PUT of `id` is after these steps. */
  function PhaseAfter(table: Table, sent: Table, evs: seq<Event>, id: string): R.Phase {
    if Persist(id) in evs then R.Stored
    else if Load(id) in evs then R.Loaded(TableAfter(table, sent, evs[..LoadedAt(evs, id)]))
    else R.Sent
  }

  /** The session's server and requests are as these steps say. */
  ghost predicate Follows(s: R.State, n: nat, table: Table, sent: Table, evs: seq<Event>) {
    && s.server == TableAfter(table, sent, evs)
    && forall id :: id in sent ==> PutIs(s, n, id, sent[id], PhaseAfter(table, sent, evs, id))
  }

  predicate PutIs(s: R.State, n: nat, id: string, shape: R.Shape, phase: R.Phase) {
    R.PutKey(n, id) in s.requests && s.requests[R.PutKey(n, id)] == R.Request(R.SetShape(id, shape), phase)
  }

  /** The steps of a save's PUTs in the session leave the very table that is computed here. */
  lemma {:induction false} SessionFollows(s: R.State, n: nat, sent: Table, evs: seq<Event>)
    requires Follows(s, n, s.server, sent, []) && sent.Keys <= s.server.Keys && Ordered(evs, sent.Keys)
    ensures Follows(R.Run(s, Lift(evs, n)), n, s.server, sent, evs)
    decreases |evs|
  {
    hide R.Run, R.Step, Follows, TableAfter;
    if evs == [] {
      R.RunNone(s);
    } else {
      var m := |evs| - 1;
      OrderedFront(evs, sent.Keys);
      SessionFollows(s, n, sent, evs[..m]);
      var u := R.Run(s, Lift(evs[..m], n));
      assert Lift(evs, n)[..m] == Lift(evs[..m], n);
      R.RunSnoc(s, Lift(evs, n));
      FollowsOne(u, n, s.server, sent, evs);
    }
  }

  lemma OrderedFront(evs: seq<Event>, ids: set<string>)
    requires Ordered(evs, ids) && evs != []
    ensures Ordered(evs[..|evs| - 1], ids)
  {
    FrontOrdered(evs, ids, |evs| - 1);
    FrontDistinct(evs, ids, |evs| - 1);
  }

  lemma FollowsOne(u: R.State, n: nat, table: Table, sent: Table, evs: seq<Event>)
    requires evs != [] && Ordered(evs, sent.Keys) && sent.Keys <= table.Keys
    requires Follows(u, n, table, sent, evs[..|evs| - 1])
    ensures Follows(R.Step(u, Lift(evs, n)[|evs| - 1]), n, table, sent, evs)
  {
    hide R.Step, PhaseAfter, TableAfter;
    var m := |evs| - 1;
    var id, front, t := evs[m].id, evs[..m], R.Step(u, Lift(evs, n)[m]);
    OwnPhase(table, sent, evs);
    TableIs(table, sent, front, id);
    assert PutIs(u, n, id, sent[id], PhaseAfter(table, sent, front, id));
    PutStep(u, n, id, sent[id], evs[m].Load?);
    forall x | x in sent ensures PutIs(t, n, x, sent[x], PhaseAfter(table, sent, evs, x)) {
      if x != id {
        PhaseOfOther(table, sent, evs, x);
        assert PutIs(u, n, x, sent[x], PhaseAfter(table, sent, front, x));
      }
    }
  }

  /** A step of the session that reads or writes for a PUT. */
  lemma PutStep(u: R.State, n: nat, id: string, shape: R.Shape, load: bool)
    requires id in u.server && R.PutKey(n, id) in u.requests
    requires u.requests[R.PutKey(n, id)].change == R.SetShape(id, shape)
    requires
      var phase := u.requests[R.PutKey(n, id)].phase;
      if load then phase.Sent? else phase.Loaded?
    ensures
      var key := R.PutKey(n, id);
      var phase := u.requests[key].phase;
      var t := R.Step(u, if load then R.Load(key) else R.Persist(key));
      && t.server == (if load then u.server else phase.table[id := shape])
      && PutIs(t, n, id, shape, if load then R.Loaded(u.server) else R.Stored)
      && forall x, shape', phase' :: x != id && PutIs(u, n, x, shape', phase') ==> PutIs(t, n, x, shape', phase')
  {
    hide R.Step;
    if load { R.StepLoad(u, R.PutKey(n, id)); } else { R.StepPersist(u, R.PutKey(n, id)); }
  }

  lemma PhaseOfOther(table: Table, sent: Table, evs: seq<Event>, id: string)
    requires evs != [] && id != evs[|evs| - 1].id
    ensures PhaseAfter(table, sent, evs, id) == PhaseAfter(table, sent, evs[..|evs| - 1], id)
  {
    hide TableAfter;
    var m := |evs| - 1;
    var front := evs[..m];
    assert evs == front + [evs[m]];
    assert Load(id) in evs <==> Load(id) in front;
    if Load(id) in front {
      assert LoadedAt(evs, id) == LoadedAt(front, id);
      assert evs[..LoadedAt(evs, id)] == front[..LoadedAt(front, id)];
    }
  }

  lemma OwnPhase(table: Table, sent: Table, evs: seq<Event>)
    requires evs != [] && Ordered(evs, sent.Keys)
    ensures
      var m := |evs| - 1;
      var id, front := evs[m].id, evs[..m];
      if evs[m].Load? then
        PhaseAfter(table, sent, front, id) == R.Sent
        && PhaseAfter(table, sent, evs, id) == R.Loaded(TableAfter(table, sent, front))
        && TableAfter(table, sent, evs) == TableAfter(table, sent, front)
      else
        && Load(id) in front && PhaseAfter(table, sent, evs, id) == R.Stored
        && PhaseAfter(table, sent, front, id) == R.Loaded(TableAfter(table, sent, evs[..LoadedAt(front, id)]))
        && TableAfter(table, sent, evs) == TableAfter(table, sent, evs[..LoadedAt(front, id)])[id := sent[id]]
  {
    var m := |evs| - 1;
    var id, front := evs[m].id, evs[..m];
    assert forall i :: 0 <= i < m ==> front[i] == evs[i] != evs[m];
    if evs[m].Load? {
      assert Persist(id) !in front by {
        forall i | 0 <= i < m ensures front[i] != Persist(id) { DoneAfterWrite(evs, sent.Keys, i, m); }
      }
      assert Persist(id) !in evs;
    } else {
      var l := LoadedAt(front, id);
      assert front[..l] == evs[..l];
      assert Persist(id) in evs by { assert evs[m] == Persist(id); }
    }
  }
}
