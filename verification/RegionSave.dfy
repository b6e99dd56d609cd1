/** A whole save of the region edit session: `saveAndExitRegionEditMode` in public/js/map.js. */
module RegionSave {
  import opened RegionEdit
  import opened RegionRaces

  /** The server or the network deals with a PUT of save `n`. */
  predicate Handles(ev: Event, n: nat) {
    (ev.Load? || ev.Persist? || ev.AnswerOk? || ev.AnswerFailed?) && ev.key.PutKey? && ev.key.save == n
  }

  predicate AllHandle(evs: seq<Event>, n: nat) { forall i :: 0 <= i < |evs| ==> Handles(evs[i], n) }

  predicate Waits(s: State, n: nat, id: string) { PutKey(n, id) in s.requests }

  /** The regions whose PUT is answered with a failure. */
  ghost function Failed(s: State, evs: seq<Event>, n: nat): set<string>
    decreases |evs|
  {
    if evs == [] then {}
    else
      (if evs[0].AnswerFailed? && evs[0].key.PutKey? && Waits(s, n, evs[0].key.id) then {evs[0].key.id} else {})
      + Failed(Step(s, evs[0]), evs[1..], n)
  }

  /** A save of the current session is waiting. */
  ghost predicate Saving(s: State, n: nat) {
    && n in s.saves && s.saves[n].session == s.session
    && forall id :: Waits(s, n, id) ==> id in s.polygons && s.requests[PutKey(n, id)].change.SetShape?
  }

  lemma HandleOne(s: State, ev: Event, n: nat, id: string)
    requires Saving(s, n) && Handles(ev, n)
    ensures
      var t := Step(s, ev);
      && Saving(t, n) && t.editing == s.editing && t.polygons.Keys == s.polygons.Keys
      && (Waits(t, n, id) ==> Waits(s, n, id))
      && (id != ev.key.id ==> (Waits(t, n, id) <==> Waits(s, n, id)))
      && (id in s.polygons ==> t.polygons[id].displayed == s.polygons[id].displayed)
      && (id in s.polygons ==> (t.polygons[id].dirty <==>
            s.polygons[id].dirty && (Waits(s, n, id) && !Waits(t, n, id) ==> ev.AnswerFailed?)))
      && (ev.AnswerFailed? ==> !Waits(t, n, ev.key.id))
      && (t.saves[n].failures > 0 <==> s.saves[n].failures > 0 || (ev.AnswerFailed? && Waits(s, n, ev.key.id)))
  {
  }

  /** The effect of the reads, writes and answers of one save, in any order and interleaving. */
  lemma {:induction false} AnswersTakeEffect(s: State, evs: seq<Event>, n: nat, id: string)
    requires Saving(s, n) && AllHandle(evs, n)
    ensures
      var t := Run(s, evs);
      && Saving(t, n) && t.editing == s.editing && t.polygons.Keys == s.polygons.Keys
      && (Waits(t, n, id) ==> Waits(s, n, id))
      && (id in Failed(s, evs, n) ==> Waits(s, n, id) && !Waits(t, n, id))
      && (id in s.polygons ==> t.polygons[id].displayed == s.polygons[id].displayed)
      && (id in s.polygons ==> (t.polygons[id].dirty <==>
            s.polygons[id].dirty && (Waits(s, n, id) && !Waits(t, n, id) ==> id in Failed(s, evs, n))))
      && (t.saves[n].failures > 0 <==> s.saves[n].failures > 0 || Failed(s, evs, n) != {})
    decreases |evs|
  {
    hide Step, Saving;
    if evs != [] {
      SavingHas(s, n);
      HandleOne(s, evs[0], n, id);
      SavingHas(Step(s, evs[0]), n);
      AnswersTakeEffect(Step(s, evs[0]), evs[1..], n, id);
    }
  }

  lemma SavingHas(s: State, n: nat)
    requires Saving(s, n)
    ensures n in s.saves
  {
  }

  /** If nothing failed the session has ended; otherwise it is still open with exactly the failed
      polygons dirty, all of them showing what they showed. */
  ghost predicate LedTo(s: State, t: State, failed: set<string>, id: string)
    requires id in s.polygons
  {
    if failed == {} then !t.editing && t.polygons == map[]
    else
      && t.editing && id in t.polygons
      && t.polygons[id].displayed == s.polygons[id].displayed
      && (t.polygons[id].dirty <==> id in failed)
  }

  /** The outcome of a save once all its PUTs have been answered, in any order; with nothing dirty there
      are none. Whatever the server does, the page is as it says; and if no table was written that had
      gone stale, the server has every shape shown when nothing failed. */
  lemma SaveOutcome(s: State, evs: seq<Event>, id: string)
    requires Inv(s) && s.editing && id in s.polygons && AllHandle(evs, s.nextSave)
    ensures
      var n, b := s.nextSave, Step(s, BeginSave);
      var answered := Run(b, evs);
      var t := Step(answered, EndSave(n));
      && (!Waiting(answered, n) ==>
            && LedTo(s, t, Failed(b, evs, n), id)
            && (Failed(b, evs, n) == {} && AllAllowed(b, evs) ==>
                  id in t.server && t.server[id] == s.polygons[id].displayed))
      && (Dirty(s) == {} ==>
            && !Waiting(answered, n) && Failed(b, evs, n) == {}
            && t.server == s.server && t.requests == s.requests && t.saves == s.saves && t.nextSave == s.nextSave)
  {
    if Dirty(s) == {} { EmptySaveOutcome(s, evs, id); } else { RealSaveOutcome(s, evs, id); }
  }

  /** A save with nothing dirty ends the session at once: it sends no request, opens no save and leaves the
      server as it was, whatever may be said to happen to its PUTs. */
  lemma EmptySaveOutcome(s: State, evs: seq<Event>, id: string)
    requires Inv(s) && s.editing && id in s.polygons && Dirty(s) == {} && AllHandle(evs, s.nextSave)
    ensures
      var n, b := s.nextSave, Step(s, BeginSave);
      var t := Step(Run(b, evs), EndSave(n));
      && !b.editing && b.polygons == map[] && b.server == s.server && b.requests == s.requests
      && b.saves == s.saves && b.nextSave == s.nextSave
      && !Waiting(Run(b, evs), n) && Failed(b, evs, n) == {} && t == b
      && LedTo(s, t, {}, id) && id in t.server && t.server[id] == s.polygons[id].displayed
  {
    var n, b := s.nextSave, Step(s, BeginSave);
    assert id !in Dirty(s);
    assert !Waiting(b, n) by {
      forall k | k in b.requests ensures !(k.PutKey? && k.save == n) { assert KeyFits(s, k); }
    }
    NothingToHandle(b, evs, n);
  }

  lemma {:induction false} NothingToHandle(s: State, evs: seq<Event>, n: nat)
    requires AllHandle(evs, n) && !Waiting(s, n)
    ensures Run(s, evs) == s && Failed(s, evs, n) == {}
    decreases |evs|
  {
    if evs != [] {
      assert Handles(evs[0], n) && evs[0].key !in s.requests;
      assert Step(s, evs[0]) == s;
      NothingToHandle(s, evs[1..], n);
    }
  }

  lemma RealSaveOutcome(s: State, evs: seq<Event>, id: string)
    requires Inv(s) && s.editing && id in s.polygons && Dirty(s) != {} && AllHandle(evs, s.nextSave)
    ensures
      var n, b := s.nextSave, Step(s, BeginSave);
      var answered := Run(b, evs);
      var t := Step(answered, EndSave(n));
      !Waiting(answered, n) ==>
        && LedTo(s, t, Failed(b, evs, n), id)
        && (Failed(b, evs, n) == {} && AllAllowed(b, evs) ==>
              id in t.server && t.server[id] == s.polygons[id].displayed)
  {
    hide Step, Inv, Run, Failed, Saving, AllAllowed, LedTo;
    var n, b := s.nextSave, Step(s, BeginSave);
    SaveBegins(s);
    AnswersTakeEffect(b, evs, n, id);
    var u := Run(b, evs);
    SavingHas(u, n);
    if AllAllowed(b, evs) { RunKeepsInv(b, evs); }
    if !Waiting(u, n) { SaveEnds(s, u, n, Failed(b, evs, n), id); }
  }

  lemma SaveBegins(s: State)
    requires Inv(s) && s.editing && Dirty(s) != {}
    ensures
      var n, b := s.nextSave, Step(s, BeginSave);
      && Inv(b) && Saving(b, n) && b.editing && b.polygons == s.polygons && b.saves[n] == Save(s.session, 0)
      && (forall id :: id in s.polygons ==> (Waits(b, n, id) <==> s.polygons[id].dirty))
  {
    OthersAllowed(s, BeginSave);
    StepKeepsInvIff(s, BeginSave);
    forall id ensures Waits(s, s.nextSave, id) ==> KeyFits(s, PutKey(s.nextSave, id)) { }
  }

  lemma SaveEnds(s: State, u: State, n: nat, failed: set<string>, id: string)
    requires n in u.saves && !Waiting(u, n) && id in u.polygons && u.editing && id in s.polygons
    requires u.polygons[id].displayed == s.polygons[id].displayed
    requires (u.polygons[id].dirty <==> id in failed) && (u.saves[n].failures > 0 <==> failed != {})
    ensures
      var t := Step(u, EndSave(n));
      LedTo(s, t, failed, id) && (Inv(u) && failed == {} ==> id in t.server && t.server[id] == s.polygons[id].displayed)
  {
  }

  /** With nothing else under way, and at most one dirty polygon or none that changes its region, a save
      that reports no failure has stored every shape, whatever the server did. */
  lemma SafeSaveStores(s: State, evs: seq<Event>, id: string)
    requires Inv(s) && s.editing && id in s.polygons && AllHandle(evs, s.nextSave)
    requires s.requests == map[]
    requires |Dirty(s)| <= 1 || forall x :: x in Dirty(s) ==> s.polygons[x].displayed == s.server[x]
    ensures
      var n, b := s.nextSave, Step(s, BeginSave);
      var t := Step(Run(b, evs), EndSave(n));
      !Waiting(Run(b, evs), n) && Failed(b, evs, n) == {} ==> id in t.server && t.server[id] == s.polygons[id].displayed
  {
    hide Step, Run, Failed, AllAllowed, RaceFree, Calm;
    if Dirty(s) == {} {
      EmptySaveOutcome(s, evs, id);
      return;
    }
    var b := Step(s, BeginSave);
    ChangesAloneIff(s);
    assert RaceFree(s) by { NothingUnderWay(s); }
    SaveKeepsRaceFree(s);
    SaveBegins(s);
    forall i | 0 <= i < |evs| ensures Calm(evs[i]) { HandlingIsCalm(evs[i], s.nextSave); }
    CalmRunsAreAllowed(b, evs);
    SaveOutcome(s, evs, id);
  }

  lemma HandlingIsCalm(ev: Event, n: nat)
    requires Handles(ev, n)
    ensures Calm(ev)
  {
  }

  lemma NothingUnderWay(s: State)
    requires s.requests == map[] && ChangesAlone(s)
    ensures RaceFree(s)
  {
  }
}
