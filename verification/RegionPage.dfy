/** The page's own state for region editing, `regionState` in public/js/map.js, the server's region
table, and the functions that change them. */
module RegionPage {
  import opened RegionEdit

  /** `regionState` with the polygons' own fields, the requests and saves under way, and the server's
      table. */
  class RegionSession {
    var editing: bool
    var session: nat
    var polygons: map<string, Polygon>
    var server: Table
    var requests: map<Key, Request>
    var saves: map<nat, Save>
    var nextSave: nat
    var nextOther: nat
    var issued: set<string>

    function Model(): State reads this {
      State(editing, session, polygons, server, requests, saves, nextSave, nextOther, issued)
    }

    constructor (regions: Table)
      ensures Model() == Initial(regions) && Inv(Model())
    {
      editing, session, polygons, server := false, 0, map[], regions;
      requests, saves, nextSave, nextOther, issued := map[], map[], 0, 0, regions.Keys;
      new;
      InitialInv(regions);
    }

    method EnterRegionEditMode(listed: bool)
      modifies this
      ensures Model() == Step(old(Model()), Enter(listed))
    {
      if editing || !listed { return; }
      editing, session := true, session + 1;
      polygons := map id | id in server && Drawable(server[id]) :: Clean(server[id]);
    }

    method OnVertexEdit(id: string, shape: Shape)
      modifies this
      ensures Model() == Step(old(Model()), Edit(id, shape))
    {
      if id in polygons { polygons := polygons[id := polygons[id].(displayed := shape, dirty := true)]; }
    }

    /** The scan for dirty polygons. */
    method CollectDirty() returns (dirty: set<string>)
      ensures dirty == Dirty(Model())
    {
      dirty := {};
      var rest := polygons.Keys;
      while rest != {}
        invariant rest <= polygons.Keys
        invariant dirty == set id | id in polygons && id !in rest && polygons[id].dirty
        decreases rest
      {
        var rid :| rid in rest;
        if polygons[rid].dirty { dirty := dirty + {rid}; }
        rest := rest - {rid};
      }
    }

    method TearDown()
      modifies this
      ensures Model() == TornDown(old(Model()))
    {
      editing, polygons := false, map[];
    }

    /** `saveAndExitRegionEditMode` up to the wait. */
    method BeginSaveRegions()
      modifies this
      ensures Model() == Step(old(Model()), BeginSave)
    {
      var dirty := CollectDirty();
      if dirty == {} {
        TearDown();
      } else {
        SendPuts(dirty);
        saves, nextSave := saves[nextSave := Save(session, 0)], nextSave + 1;
      }
    }

    /** One PUT for each dirty polygon. */
    method SendPuts(dirty: set<string>)
      requires dirty == Dirty(Model())
      modifies this`requests
      ensures requests == WithPuts(old(Model()))
    {
      var keys := PutKeys(nextSave, dirty);
      requests := map k | k in requests.Keys + keys ::
        if k in keys then Request(SetShape(k.id, polygons[k.id].displayed), Sent) else requests[k];
    }

    /** The `then` and `catch` handlers of one PUT. */
    method OnAnswer(k: Key, ok: bool)
      requires k.PutKey? && k in requests && requests[k].change.SetShape? && k.save in saves
      requires ok ==> requests[k].phase.Stored?
      modifies this
      ensures Model() == Step(old(Model()), if ok then AnswerOk(k) else AnswerFailed(k))
    {
      var save, pairs := saves[k.save], requests[k].change.shape;
      if ok {
        if save.session == session && k.id in polygons {
          polygons := polygons[k.id := polygons[k.id].(saved := pairs, dirty := false)];
        }
      } else {
        saves := saves[k.save := save.(failures := save.failures + 1)];
      }
      requests := requests - {k};
    }

    /** `saveAndExitRegionEditMode` after the wait. */
    method FinishSaveRegions(n: nat)
      requires n in saves && !Waiting(Model(), n)
      modifies this
      ensures Model() == Step(old(Model()), EndSave(n))
    {
      var failures := saves[n].failures;
      saves := saves - {n};
      if failures == 0 { TearDown(); }
    }

    /** The loop of `discardAndExitRegionEditMode`. */
    method RevertDirty()
      modifies this`polygons
      ensures Model() == Reverted(old(Model()))
    {
      var rest := polygons.Keys;
      while rest != {}
        invariant rest <= polygons.Keys == old(polygons).Keys
        invariant forall id :: id in polygons ==>
          polygons[id] == if id in rest then old(polygons)[id] else Reverted(old(Model())).polygons[id]
        decreases rest
      {
        var rid :| rid in rest;
        var p := polygons[rid];
        if p.dirty { polygons := polygons[rid := p.(displayed := p.saved, dirty := false)]; }
        rest := rest - {rid};
      }
      assert polygons == Reverted(old(Model())).polygons;
    }

    method DiscardRegions()
      modifies this
      ensures Model() == Step(old(Model()), Discard)
    {
      RevertDirty();
      TearDown();
    }

    /** The first database step of `updateRegion`, `createRegion` or `deleteRegion`: read the table,
        answer 404 if the region is not in it. */
    method LoadAll(k: Key)
      requires k in requests && requests[k].phase.Sent?
      modifies this`requests
      ensures Model() == Step(old(Model()), Load(k))
    {
      var all, r := server, requests[k];
      if !r.change.Add? && r.change.id !in all {
        requests := if k.PutKey? then requests[k := r.(phase := Refused)] else requests - {k};
      } else {
        requests := requests[k := r.(phase := Loaded(all))];
      }
    }

    /** The second: write the table that was read, with the one change, over whatever is there now. */
    method PersistAll(k: Key)
      requires k in requests && requests[k].phase.Loaded?
      modifies this
      ensures Model() == Step(old(Model()), Persist(k))
    {
      var c, all := requests[k].change, requests[k].phase.table;
      match c {
        case SetShape(id, shape) => all := all[id := shape];
        case Touch(_) =>
        case Add(id, shape) => all := all[id := shape];
        case Drop(id) => all := all - {id};
      }
      server := all;
      if k.PutKey? {
        requests := requests[k := requests[k].(phase := Stored)];
      } else {
        polygons := PageEffect(Model(), c);
        requests := requests - {k};
      }
    }
  }
}
