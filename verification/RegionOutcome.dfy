/** What discarding and saving in the region edit session lead to: public/js/map.js. */
module RegionOutcome {
  import opened Wrappers
  import opened RegionEdit

  // ----- A single answer

  /** A table written while a clean polygon of a region is shown leaves agreement on that region
      exactly if it has the shape shown. */
  lemma WriteAgreesIff(s: State, key: Key, id: string)
    requires IsLoaded(s, key) && id in s.polygons
    requires !s.polygons[id].dirty && s.polygons[id].saved == s.polygons[id].displayed
    requires
      var c := s.requests[key].change;
      id in Effect(c, s.requests[key].phase.table) && (Writes(c, id) ==> key.PutKey? && c.SetShape?)
    ensures
      var t, r := Step(s, Persist(key)), s.requests[key];
      && id in t.polygons && id in t.server
      && (Agrees(t, id) <==> Effect(r.change, r.phase.table)[id] == s.polygons[id].displayed)
  {
  }

  /** A successful answer within the session leaves the polygon clean, and in agreement exactly if
      the polygon was not edited since the PUT was sent and the server still has its shape. */
  lemma PutAgreesIff(s: State, k: Key)
    requires Is(s, k, Stored) && Current(s, k) && s.requests[k].change.SetShape?
    requires k.id in s.polygons && k.id in s.server
    ensures
      var t, shape := Step(s, AnswerOk(k)), s.requests[k].change.shape;
      && !t.polygons[k.id].dirty && t.polygons[k.id].saved == shape
      && (Agrees(t, k.id) <==> s.polygons[k.id].displayed == shape == s.server[k.id])
  {
  }

  /** A save that ends takes a dirty polygon off the screen without having saved it exactly when none
      of its own PUTs failed. */
  lemma EndSaveDropsIff(s: State, n: nat, id: string)
    requires n in s.saves && !Waiting(s, n) && s.editing && id in s.polygons && s.polygons[id].dirty
    ensures
      var t := Step(s, EndSave(n));
      t.server == s.server && (!t.editing && id !in t.polygons <==> s.saves[n].failures == 0)
  {
  }

  // ----- Discard

  /** The shape of `id` that this event loads, creates or reports as saved to the current session. */
  function Confirmed(s: State, ev: Event, id: string): Option<Shape> {
    match ev
    case Enter(listed) => if !s.editing && listed && id in s.server then Some(s.server[id]) else None
    case Persist(k) =>
      if IsLoaded(s, k) && !k.PutKey? && s.requests[k].change.Add? && s.requests[k].change.id == id
      then Some(s.requests[k].change.shape) else None
    case AnswerOk(k) =>
      if Is(s, k, Stored) && s.requests[k].change.SetShape? && Current(s, k) && k.id == id
      then Some(s.requests[k].change.shape) else None
    case _ => None
  }

  /** The shape of `id` that this event stores without telling the session yet. */
  function Stores(s: State, ev: Event, id: string): Option<Shape> {
    if ev.Persist? && IsLoaded(s, ev.key) && s.requests[ev.key].change.SetShape? && s.requests[ev.key].change.id == id
    then Some(s.requests[ev.key].change.shape) else None
  }

  /** The last shape of `id` that was loaded, created or reported as saved. */
  ghost function LastSaved(s0: State, evs: seq<Event>, id: string): Option<Shape>
    decreases |evs|
  {
    if evs == [] then None
    else
      var n := |evs| - 1;
      var now := Confirmed(Run(s0, evs[..n]), evs[n], id);
      if now.Some? then now else LastSaved(s0, evs[..n], id)
  }

  /** The shape of `id` that a PUT has stored and nothing has confirmed to the session since. */
  ghost function Unconfirmed(s0: State, evs: seq<Event>, id: string): Option<Shape>
    decreases |evs|
  {
    if evs == [] then None
    else
      var n := |evs| - 1;
      var s, ev := Run(s0, evs[..n]), evs[n];
      if Confirmed(s, ev, id).Some? then None
      else if Stores(s, ev, id).Some? then Stores(s, ev, id)
      else Unconfirmed(s0, evs[..n], id)
  }

  lemma SavedStep(s: State, ev: Event, id: string)
    requires WellFormed(s)
    ensures
      var s' := Step(s, ev);
      id in s'.polygons ==>
        if Confirmed(s, ev, id).Some? then s'.polygons[id].saved == Confirmed(s, ev, id).value
        else id in s.polygons && s'.polygons[id].saved == s.polygons[id].saved
  {
    if ev.Persist? && IsLoaded(s, ev.key) {
      var c := s.requests[ev.key].change;
      assert KeyFits(s, ev.key);
      if c.Add? { assert Unseen(s, ev.key, c.id); }
    }
  }

  /** In every run, disciplined or not, the `saved` field is the last saved shape. */
  lemma {:induction false} SavedIsLastSaved(s0: State, evs: seq<Event>, id: string)
    requires WellFormed(s0) && s0.polygons == map[]
    ensures
      var s := Run(s0, evs);
      WellFormed(s) && (id in s.polygons ==> LastSaved(s0, evs, id) == Some(s.polygons[id].saved))
    decreases |evs|
  {
    hide Run, Step, Confirmed, WellFormed;
    if evs == [] {
      RunNone(s0);
    } else {
      var n := |evs| - 1;
      SavedIsLastSaved(s0, evs[..n], id);
      RunSnoc(s0, evs);
      SavedStep(Run(s0, evs[..n]), evs[n], id);
      StepKeepsWellFormed(Run(s0, evs[..n]), evs[n]);
    }
  }

  /** No table is written that another request has changed since it was read. */
  ghost predicate Serial(s: State, evs: seq<Event>) {
    forall i :: 0 <= i < |evs| && evs[i].Persist? ==> UpToDate(Run(s, evs[..i]), evs[i].key)
  }

  lemma SerialPrefix(s: State, evs: seq<Event>, n: nat)
    requires Serial(s, evs) && n <= |evs|
    ensures Serial(s, evs[..n])
  {
    hide Run, UpToDate;
    forall i | 0 <= i < n && evs[..n][i].Persist? ensures UpToDate(Run(s, evs[..n][..i]), evs[..n][i].key) {
      assert evs[..n][..i] == evs[..i];
    }
  }

  /** What the server has of a region on screen, when its writes do not interleave: the unconfirmed
      shape, else the last saved one. */
  lemma {:induction false} ServerHas(s0: State, evs: seq<Event>, id: string)
    requires Inv(s0) && s0.polygons == map[] && AllAllowed(s0, evs) && Serial(s0, evs)
    ensures
      var s := Run(s0, evs);
      var unconfirmed := Unconfirmed(s0, evs, id);
      id in s.polygons ==>
        id in s.server && Some(s.server[id]) == if unconfirmed.Some? then unconfirmed else LastSaved(s0, evs, id)
    decreases |evs|
  {
    hide Run, Step, Inv, Allowed, Confirmed, Stores, UpToDate;
    if evs == [] {
      RunNone(s0);
    } else {
      var n := |evs| - 1;
      AllowedPrefix(s0, evs, n);
      SerialPrefix(s0, evs, n);
      ServerHas(s0, evs[..n], id);
      RunSnoc(s0, evs);
      RunKeepsInv(s0, evs[..n]);
      ServerStep(Run(s0, evs[..n]), evs[n], id);
    }
  }

  lemma ServerStep(s: State, ev: Event, id: string)
    requires Inv(s) && (ev.Persist? ==> UpToDate(s, ev.key))
    ensures
      var s' := Step(s, ev);
      id in s'.polygons ==>
        && id in s'.server
        && if Confirmed(s, ev, id).Some? then s'.server[id] == Confirmed(s, ev, id).value
           else if Stores(s, ev, id).Some? then s'.server[id] == Stores(s, ev, id).value
           else id in s.polygons && id in s.server && s'.server[id] == s.server[id]
  {
    if ev.Persist? {
      ServerPersist(s, ev.key, id);
    } else {
      if ev.AnswerOk? && Live(s, ev.key) { assert Matches(s, ev.key); }
    }
  }

  lemma ServerPersist(s: State, k: Key, id: string)
    requires Inv(s) && UpToDate(s, k)
    ensures
      var s', ev := Step(s, Persist(k)), Persist(k);
      id in s'.polygons ==>
        && id in s'.server
        && if Confirmed(s, ev, id).Some? then s'.server[id] == Confirmed(s, ev, id).value
           else if Stores(s, ev, id).Some? then s'.server[id] == Stores(s, ev, id).value
           else id in s.polygons && id in s.server && s'.server[id] == s.server[id]
  {
    hide Step;
    StepPersist(s, k);
    if IsLoaded(s, k) { assert KeyFits(s, k); }
  }

  /** Discard shows a polygon at its last saved shape if and only if it was dirty or showed that shape
      already; the polygons and the server's shapes are otherwise untouched. */
  lemma DiscardShowsLastSavedIff(regions: Table, evs: seq<Event>, id: string)
    requires id in Run(Initial(regions), evs).polygons
    ensures
      var s := Run(Initial(regions), evs);
      var r := Reverted(s);
      && r.polygons.Keys == s.polygons.Keys && r.server == s.server && !r.polygons[id].dirty
      && (Some(r.polygons[id].displayed) == LastSaved(Initial(regions), evs, id)
          <==> s.polygons[id].dirty || s.polygons[id].displayed == s.polygons[id].saved)
  {
    hide Run, LastSaved;
    InitialInv(regions);
    SavedIsLastSaved(Initial(regions), evs, id);
  }

  /** In every allowed run discard returns each polygon to its last saved shape. When the server's
      writes do not interleave, it has that shape too, unless it stored another one and the answer was
      lost or is still on its way. */
  lemma DiscardReturnsToLastSaved(regions: Table, evs: seq<Event>, id: string)
    requires AllAllowed(Initial(regions), evs) && id in Run(Initial(regions), evs).polygons
    ensures
      var s0 := Initial(regions);
      var r := Reverted(Run(s0, evs));
      var unconfirmed := Unconfirmed(s0, evs, id);
      && Some(r.polygons[id].displayed) == LastSaved(s0, evs, id)
      && id in r.server
      && (Serial(s0, evs) ==>
            (r.server[id] == r.polygons[id].displayed <==> unconfirmed.None? || unconfirmed == LastSaved(s0, evs, id)))
  {
    hide Run, LastSaved, Unconfirmed, Serial;
    var s0 := Initial(regions);
    InitialInv(regions);
    DiscardShowsLastSavedIff(regions, evs, id);
    RunKeepsInv(s0, evs);
    if Serial(s0, evs) { ServerHas(s0, evs, id); }
  }
}
