/** Which region edit sessions are safe from the server's concurrency.

`RegionEdit` says which steps keep the page and the server in agreement; some of them are writes of
a table that was read too early, and no operator chooses when the server writes. This module says,
from what the page shows and what is under way, whether agreement lasts whatever the server and
the network do. */
module RegionRaces {
  import opened RegionEdit

  /** Neither an edit nor a new session nor a new request: the operator only saves or discards, and
      the server and the network do what they do. */
  predicate Calm(ev: Event) { !ev.Edit? && !ev.Enter? && !ev.Ask? }

  predicate AllCalm(evs: seq<Event>) { forall i :: 0 <= i < |evs| ==> Calm(evs[i]) }

  // ----- The condition

  /** Every table that was read, and is yet to be written back, has the shapes shown. */
  ghost predicate TablesFit(s: State) {
    forall k, id :: IsLoaded(s, k) && id in s.polygons && !Writes(s.requests[k].change, id) ==>
      id in s.requests[k].phase.table && s.requests[k].phase.table[id] == s.polygons[id].displayed
  }

  /** An edit that the server does not have yet. */
  predicate Changed(s: State, id: string) {
    id in s.polygons && s.polygons[id].dirty && (id in s.server ==> s.server[id] != s.polygons[id].displayed)
  }

  /** The request has not read yet, and will find its region. */
  predicate WillRead(s: State, k: Key) { Is(s, k, Sent) && Loadable(s.requests[k].change, s.server) }

  /** A region that is to be changed is the only one to be saved, and no other request is waiting to
      read the table. */
  ghost predicate ChangesAlone(s: State) {
    forall id :: Changed(s, id) ==>
      && (forall k :: WillRead(s, k) ==> Writes(s.requests[k].change, id))
      && (forall id' :: id' in Dirty(s) ==> id' == id)
  }

  /** A region that is about to be created and shown. */
  predicate Appears(s: State, k: Key) {
    s.editing && k in s.requests && s.requests[k].change.Add? && Drawable(s.requests[k].change.shape)
  }

  ghost predicate CreatesAlone(s: State) {
    forall k :: Appears(s, k) ==>
      && (forall k' :: k' in s.requests && k' != k ==> !IsLoaded(s, k') && !WillRead(s, k'))
      && Dirty(s) == {}
  }

  ghost predicate RaceFree(s: State) { TablesFit(s) && ChangesAlone(s) && CreatesAlone(s) }

  // ----- It is enough

  lemma RaceFreePersistAllowed(s: State, key: Key)
    requires Inv(s) && TablesFit(s)
    ensures Allowed(s, Persist(key))
  {
    if IsLoaded(s, key) {
      var c, table := s.requests[key].change, s.requests[key].phase.table;
      forall id | id in s.polygons && !Writes(c, id)
        ensures id in table && (Settled(s, id) && id in s.server ==> table[id] == s.server[id])
      {
        if Settled(s, id) && s.polygons[id].dirty {
          var k :| k in s.requests && Live(s, k) && k.id == id && s.requests[k].phase.Stored?;
          assert Matches(s, k);
        }
      }
    }
  }

  lemma CalmIsAllowed(s: State, ev: Event)
    requires Inv(s) && RaceFree(s) && Calm(ev)
    ensures Allowed(s, ev)
  {
    if ev.Persist? { RaceFreePersistAllowed(s, ev.key); }
  }

  /** No polygon changes its look or becomes dirty, nothing is written, and requests only go away. */
  predicate Settles(s: State, t: State) {
    && t.server == s.server && (t.editing ==> s.editing)
    && (forall k :: k in t.requests ==> k in s.requests && t.requests[k] == s.requests[k])
    && (forall id :: id in t.polygons ==>
          && id in s.polygons && t.polygons[id].displayed == s.polygons[id].displayed
          && (t.polygons[id].dirty ==> s.polygons[id].dirty))
  }

  lemma SettlingKeepsRaceFree(s: State, t: State)
    requires RaceFree(s) && Settles(s, t)
    ensures RaceFree(t)
  {
    forall k
      ensures (IsLoaded(t, k) ==> IsLoaded(s, k)) && (WillRead(t, k) ==> WillRead(s, k))
      ensures Appears(t, k) ==> Appears(s, k) { }
    forall id ensures (Changed(t, id) ==> Changed(s, id)) && (id in Dirty(t) ==> id in Dirty(s)) { }
  }

  lemma AnswersSettle(s: State, ev: Event)
    requires ev.AnswerOk? || ev.AnswerFailed? || ev.EndSave? || ev.Discard?
    ensures Settles(s, Step(s, ev))
  {
  }

  lemma LoadKeepsRaceFree(s: State, key: Key)
    requires Inv(s) && RaceFree(s)
    ensures RaceFree(Step(s, Load(key)))
  {
    hide WellFormed, Step;
    var t := Step(s, Load(key));
    LoadShows(s, key);
    forall k
      ensures (WillRead(t, k) ==> WillRead(s, k)) && (Appears(t, k) ==> Appears(s, k))
      ensures k in t.requests ==> k in s.requests && t.requests[k].change == s.requests[k].change
      ensures IsLoaded(t, k) ==>
        (IsLoaded(s, k) && t.requests[k] == s.requests[k])
        || (k == key && WillRead(s, k) && t.requests[k].phase.table == s.server)
    {
      LoadMoves(s, key, k);
    }
    if WillRead(s, key) {
      forall id | id in s.polygons && !Writes(s.requests[key].change, id)
        ensures id in s.server && s.server[id] == s.polygons[id].displayed
      {
        assert !Changed(s, id);
      }
    }
  }

  /** A read changes nothing but its own request, which has read or is refused. */
  lemma LoadShows(s: State, key: Key)
    ensures
      var t := Step(s, Load(key));
      && t.polygons == s.polygons && t.server == s.server
      && (forall id :: Changed(t, id) <==> Changed(s, id)) && Dirty(t) == Dirty(s)
  {
    hide Step;
    StepLoad(s, key);
  }

  lemma LoadMoves(s: State, key: Key, k: Key)
    ensures
      var t := Step(s, Load(key));
      && (WillRead(t, k) ==> WillRead(s, k)) && (Appears(t, k) ==> Appears(s, k))
      && (k in t.requests ==> k in s.requests && t.requests[k].change == s.requests[k].change)
      && (IsLoaded(t, k) ==>
            (IsLoaded(s, k) && t.requests[k] == s.requests[k])
            || (k == key && WillRead(s, k) && t.requests[k].phase.table == s.server))
  {
    hide Step;
    StepLoad(s, key);
  }

  lemma PersistKeepsRaceFree(s: State, key: Key)
    requires Inv(s) && RaceFree(s)
    ensures RaceFree(Step(s, Persist(key)))
  {
    if IsLoaded(s, key) {
      NothingChangedAfter(s, key);
      NothingElseAppears(s, key);
      TablesStillFit(s, key);
    }
  }

  /** A write leaves the server with every shape shown, so no edit is one the server lacks. */
  lemma NothingChangedAfter(s: State, key: Key)
    requires Inv(s) && TablesFit(s) && IsLoaded(s, key)
    ensures forall id :: !Changed(Step(s, Persist(key)), id)
  {
    var c, t := s.requests[key].change, Step(s, Persist(key));
    assert KeyFits(s, key);
    if c.SetShape? && c.id in s.polygons { assert Live(s, key) && Matches(s, key); }
    forall id ensures !Changed(t, id) { WrittenBack(s, key, id); }
  }

  lemma NothingElseAppears(s: State, key: Key)
    requires Inv(s) && CreatesAlone(s) && IsLoaded(s, key)
    ensures forall k :: !Appears(Step(s, Persist(key)), k)
  {
    assert KeyFits(s, key);
    forall k ensures !Appears(Step(s, Persist(key)), k) { assert k != key ==> !Appears(s, k); }
  }

  lemma TablesStillFit(s: State, key: Key)
    requires Inv(s) && RaceFree(s) && IsLoaded(s, key)
    ensures TablesFit(Step(s, Persist(key)))
  {
    var c, t := s.requests[key].change, Step(s, Persist(key));
    forall k, id | IsLoaded(t, k) && id in t.polygons && !Writes(t.requests[k].change, id)
      ensures id in t.requests[k].phase.table && t.requests[k].phase.table[id] == t.polygons[id].displayed
    {
      assert k != key && k in s.requests && t.requests[k] == s.requests[k] && IsLoaded(s, k);
      assert c.Add? ==> !Appears(s, key);
      assert id in s.polygons && t.polygons[id] == s.polygons[id];
    }
  }

  lemma SaveKeepsRaceFree(s: State)
    requires Inv(s) && RaceFree(s)
    ensures RaceFree(Step(s, BeginSave))
  {
    var t := Step(s, BeginSave);
    if Dirty(s) == {} {
      assert Settles(s, t);
      SettlingKeepsRaceFree(s, t);
    } else {
      assert Dirty(t) == Dirty(s);
      forall k ensures (IsLoaded(t, k) ==> IsLoaded(s, k) && t.requests[k] == s.requests[k]) && !Appears(t, k) {
        assert !Appears(s, k);
      }
      forall id | Changed(t, id)
        ensures forall k :: WillRead(t, k) ==> Writes(t.requests[k].change, id)
        ensures forall id' :: id' in Dirty(t) ==> id' == id
      {
        assert Changed(s, id);
        forall k | WillRead(t, k) ensures Writes(t.requests[k].change, id) {
          if k !in PutKeys(s.nextSave, Dirty(s)) { assert WillRead(s, k); }
        }
      }
    }
  }

  lemma CalmKeepsRaceFree(s: State, ev: Event)
    requires Inv(s) && RaceFree(s) && Calm(ev)
    ensures RaceFree(Step(s, ev))
  {
    hide Step, Inv, RaceFree;
    match ev
    case BeginSave => SaveKeepsRaceFree(s);
    case Load(k) => LoadKeepsRaceFree(s, k);
    case Persist(k) => PersistKeepsRaceFree(s, k);
    case _ => AnswersSettle(s, ev); SettlingKeepsRaceFree(s, Step(s, ev));
  }

  /** In a race-free state everything that can happen without the operator's edits is allowed. */
  lemma {:induction false} CalmRunsAreAllowed(s: State, evs: seq<Event>)
    requires Inv(s) && RaceFree(s) && AllCalm(evs)
    ensures Inv(Run(s, evs)) && RaceFree(Run(s, evs)) && AllAllowed(s, evs)
    decreases |evs|
  {
    hide Run, Step, Inv, RaceFree, Allowed, Calm;
    if evs == [] {
      RunNone(s);
    } else {
      var n := |evs| - 1;
      var front := evs[..n];
      CalmRunsAreAllowed(s, front);
      CalmIsAllowed(Run(s, front), evs[n]);
      CalmKeepsRaceFree(Run(s, front), evs[n]);
      StepKeepsInvIff(Run(s, front), evs[n]);
      RunSnoc(s, evs);
      forall i | 0 <= i < |evs| ensures Allowed(Run(s, evs[..i]), evs[i]) {
        if i < n { assert front[..i] == evs[..i] && front[i] == evs[i]; }
      }
    }
  }

  // ----- It is needed

  /** Some calm run ends in disagreement. */
  ghost predicate CanBreak(s: State) { exists evs :: AllCalm(evs) && !Agreement(Run(s, evs)) }

  lemma BrokenCanBreak(s: State)
    requires !Agreement(s)
    ensures CanBreak(s)
  {
    hide Agreement;
    RunNone(s);
    assert AllCalm([]);
  }

  lemma BreaksLater(s: State, ev: Event)
    requires Calm(ev) && CanBreak(Step(s, ev))
    ensures CanBreak(s)
  {
    hide Agreement, Step;
    var evs :| AllCalm(evs) && !Agreement(Run(Step(s, ev), evs));
    var evs' := [ev] + evs;
    assert evs'[1..] == evs && Run(s, evs') == Run(Step(s, ev), evs);
    assert AllCalm(evs');
  }

  /** A stale table is written back over a clean polygon. */
  lemma StaleWriteBreaks(s: State, key: Key, id: string)
    requires WellFormed(s) && IsLoaded(s, key) && id in s.polygons && !Writes(s.requests[key].change, id)
    requires
      var table := s.requests[key].phase.table;
      id !in table || (!s.polygons[id].dirty && table[id] != s.polygons[id].displayed)
    ensures CanBreak(s)
  {
    WrittenBack(s, key, id);
    var t := Step(s, Persist(key));
    assert id in t.polygons && !(id in t.server && Agrees(t, id));
    BrokenCanBreak(t);
    BreaksLater(s, Persist(key));
  }

  /** The state after a dirty polygon has been saved and reported, all else waiting. */
  function SavedThrough(s: State, id: string): State {
    var k := PutKey(s.nextSave, id);
    Step(Step(Step(Step(s, BeginSave), Load(k)), Persist(k)), AnswerOk(k))
  }

  lemma SavedThroughIsClean(s: State, id: string)
    requires WellFormed(s) && Agreement(s) && id in s.polygons && s.polygons[id].dirty
    ensures
      var t := SavedThrough(s, id);
      && WellFormed(t) && id in t.polygons && t.polygons[id] == Clean(s.polygons[id].displayed)
      && t.polygons.Keys == s.polygons.Keys
      && (forall k :: k in s.requests ==> k in t.requests && t.requests[k] == s.requests[k])
      && (CanBreak(t) ==> CanBreak(s))
  {
    hide WellFormed, CanBreak;
    var k := PutKey(s.nextSave, id);
    SaveSends(s, id);
    var s1 := Step(s, BeginSave);
    var s2 := Step(s1, Load(k));
    var s3 := Step(s2, Persist(k));
    var s4 := Step(s3, AnswerOk(k));
    StepKeepsWellFormed(s, BeginSave);
    StepKeepsWellFormed(s1, Load(k));
    StepKeepsWellFormed(s2, Persist(k));
    StepKeepsWellFormed(s3, AnswerOk(k));
    assert Is(s1, k, Sent) && IsLoaded(s2, k) && Is(s3, k, Stored);
    if CanBreak(s4) {
      BreaksLater(s3, AnswerOk(k));
      BreaksLater(s2, Persist(k));
      BreaksLater(s1, Load(k));
      BreaksLater(s, BeginSave);
    }
  }

  lemma SaveSends(s: State, id: string)
    requires WellFormed(s) && Agreement(s) && id in s.polygons && s.polygons[id].dirty
    ensures
      var k, t := PutKey(s.nextSave, id), Step(s, BeginSave);
      && k !in s.requests && k in t.requests
      && t.requests[k] == Request(SetShape(id, s.polygons[id].displayed), Sent) && WillRead(t, k)
      && t.polygons == s.polygons && t.server == s.server && Current(t, k) && t.editing == s.editing
      && (forall k :: k in s.requests ==> k in t.requests && t.requests[k] == s.requests[k])
  {
    var k := PutKey(s.nextSave, id);
    assert id in Dirty(s) && k in PutKeys(s.nextSave, Dirty(s));
    forall k | k in s.requests ensures k !in PutKeys(s.nextSave, Dirty(s)) { assert KeyFits(s, k); }
  }

  /** A live PUT with another shape than the one shown overwrites it, at once or after the next save. */
  lemma MismatchBreaks(s: State, k: Key)
    requires WellFormed(s) && Agreement(s) && Live(s, k) && !Matches(s, k)
    ensures CanBreak(s)
  {
    hide CanBreak, WellFormed;
    assert KeyFits(s, k) by { FitsKey(s, k); }
    if s.requests[k].phase.Sent? {
      var t := Step(s, Load(k));
      assert WillRead(s, k) && Live(t, k) && !Matches(t, k);
      StepKeepsWellFormed(s, Load(k));
      LoadedMismatchBreaks(t, k);
      BreaksLater(s, Load(k));
    } else if s.requests[k].phase.Loaded? {
      LoadedMismatchBreaks(s, k);
    } else {
      var t := Step(s, AnswerOk(k));
      assert !Agrees(t, k.id);
      BrokenCanBreak(t);
      BreaksLater(s, AnswerOk(k));
    }
  }

  lemma FitsKey(s: State, k: Key)
    requires WellFormed(s) && k in s.requests
    ensures KeyFits(s, k)
  {
  }

  lemma LoadedMismatchBreaks(s: State, k: Key)
    requires WellFormed(s) && Agreement(s) && Live(s, k) && !Matches(s, k) && IsLoaded(s, k)
    ensures CanBreak(s)
  {
    hide CanBreak, WellFormed;
    if s.polygons[k.id].dirty {
      SavedThroughIsClean(s, k.id);
      OverwriteBreaks(SavedThrough(s, k.id), k);
    } else {
      OverwriteBreaks(s, k);
    }
  }

  lemma OverwriteBreaks(s: State, k: Key)
    requires WellFormed(s) && IsLoaded(s, k) && k.PutKey? && s.requests[k].change.SetShape?
    requires k.id in s.polygons && !s.polygons[k.id].dirty && s.requests[k].change.shape != s.polygons[k.id].displayed
    ensures CanBreak(s)
  {
    hide CanBreak;
    var t := Step(s, Persist(k));
    assert KeyFits(s, k);
    assert k.id in t.polygons && k.id in t.server && !Agrees(t, k.id);
    BrokenCanBreak(t);
    BreaksLater(s, Persist(k));
  }

  /** A table with another shape than the one shown: it undoes the next save of that region. */
  lemma UnfitTableBreaks(s: State, key: Key, id: string)
    requires WellFormed(s) && Agreement(s)
    requires IsLoaded(s, key) && id in s.polygons && !Writes(s.requests[key].change, id)
    requires
      var table := s.requests[key].phase.table;
      id !in table || table[id] != s.polygons[id].displayed
    ensures CanBreak(s)
  {
    hide CanBreak, WellFormed, SavedThrough;
    if id in s.requests[key].phase.table && s.polygons[id].dirty {
      SavedThroughIsClean(s, id);
      StaleWriteBreaks(SavedThrough(s, id), key, id);
    } else {
      StaleWriteBreaks(s, key, id);
    }
  }

  /** A request that reads before the edit is saved writes the old shape back after it. */
  lemma EarlyReadBreaks(s: State, key: Key, id: string)
    requires WellFormed(s) && Agreement(s) && Changed(s, id) && WillRead(s, key) && !Writes(s.requests[key].change, id)
    ensures CanBreak(s)
  {
    hide CanBreak, WellFormed;
    var t := Step(s, Load(key));
    assert t.polygons == s.polygons && t.server == s.server && IsLoaded(t, key);
    StepKeepsWellFormed(s, Load(key));
    UnfitTableBreaks(t, key, id);
    BreaksLater(s, Load(key));
  }

  /** Two PUTs of one save: the one that reads first writes last. */
  lemma TwoPutsBreak(s: State, id: string, id': string)
    requires WellFormed(s) && Agreement(s) && Changed(s, id) && id' in Dirty(s) && id' != id
    ensures CanBreak(s)
  {
    hide CanBreak, WellFormed;
    var t := Step(s, BeginSave);
    SaveSends(s, id');
    StepKeepsWellFormed(s, BeginSave);
    EarlyReadBreaks(t, PutKey(s.nextSave, id'), id);
    BreaksLater(s, BeginSave);
  }

  /** A region that appears is lost to any table read before it was created. */
  lemma CreationLost(s: State, k: Key, key: Key)
    requires WellFormed(s) && Agreement(s) && Appears(s, k) && key in s.requests && key != k
    requires IsLoaded(s, key) || WillRead(s, key)
    ensures CanBreak(s)
  {
    hide CanBreak, WellFormed;
    if WillRead(s, key) {
      StepKeepsWellFormed(s, Load(key));
      CreationLostToTable(Step(s, Load(key)), k, key);
      BreaksLater(s, Load(key));
    } else {
      CreationLostToTable(s, k, key);
    }
  }

  lemma CreationLostToTable(s: State, k: Key, key: Key)
    requires WellFormed(s) && Agreement(s) && Appears(s, k) && key != k && IsLoaded(s, key)
    ensures CanBreak(s)
  {
    hide CanBreak;
    var id := s.requests[k].change.id;
    assert KeyFits(s, k) && Unseen(s, k, id);
    if s.requests[k].phase.Sent? {
      var t := Step(s, Load(k));
      StepKeepsWellFormed(s, Load(k));
      LoadedCreationLost(t, k, key);
      BreaksLater(s, Load(k));
    } else {
      LoadedCreationLost(s, k, key);
    }
  }

  lemma LoadedCreationLost(s: State, k: Key, key: Key)
    requires WellFormed(s) && Appears(s, k) && key != k && IsLoaded(s, key) && IsLoaded(s, k)
    ensures CanBreak(s)
  {
    hide CanBreak;
    var id := s.requests[k].change.id;
    assert KeyFits(s, k) && Unseen(s, k, id);
    var t := Step(s, Persist(k));
    assert id in t.polygons && key in t.requests && t.requests[key] == s.requests[key];
    StepKeepsWellFormed(s, Persist(k));
    StaleWriteBreaks(t, key, id);
    BreaksLater(s, Persist(k));
  }

  lemma CreationAndEdit(s: State, k: Key, id: string)
    requires WellFormed(s) && Agreement(s) && Appears(s, k) && id in Dirty(s)
    ensures CanBreak(s)
  {
    hide CanBreak, WellFormed;
    var t := Step(s, BeginSave);
    SaveSends(s, id);
    StepKeepsWellFormed(s, BeginSave);
    CreationLost(t, k, PutKey(s.nextSave, id));
    BreaksLater(s, BeginSave);
  }

  lemma RacyBreaks(s: State)
    requires WellFormed(s) && Agreement(s) && !RaceFree(s)
    ensures CanBreak(s)
  {
    hide CanBreak, WellFormed, Agreement;
    if !TablesFit(s) {
      var k, id :| IsLoaded(s, k) && id in s.polygons && !Writes(s.requests[k].change, id)
        && !(id in s.requests[k].phase.table && s.requests[k].phase.table[id] == s.polygons[id].displayed);
      UnfitTableBreaks(s, k, id);
    } else if !ChangesAlone(s) {
      var id :| Changed(s, id) && !((forall k :: WillRead(s, k) ==> Writes(s.requests[k].change, id))
                                    && (forall id' :: id' in Dirty(s) ==> id' == id));
      if k :| WillRead(s, k) && !Writes(s.requests[k].change, id) {
        EarlyReadBreaks(s, k, id);
      } else {
        var id' :| id' in Dirty(s) && id' != id;
        TwoPutsBreak(s, id, id');
      }
    } else {
      var k :| Appears(s, k) && !((forall k' :: k' in s.requests && k' != k ==> !IsLoaded(s, k') && !WillRead(s, k'))
                                  && Dirty(s) == {});
      if k' :| k' in s.requests && k' != k && (IsLoaded(s, k') || WillRead(s, k')) {
        CreationLost(s, k, k');
      } else {
        var id :| id in Dirty(s);
        CreationAndEdit(s, k, id);
      }
    }
  }

  /** In a state where clean polygons agree, they go on agreeing, whatever the server and the network do
      and however often the operator saves, if and only if every live PUT carries the shape shown and
      nothing under way or to be saved can race. */
  lemma AgreementLastsIff(s: State)
    requires WellFormed(s) && Agreement(s)
    ensures (forall evs :: AllCalm(evs) ==> Agreement(Run(s, evs))) <==> PutsMatch(s) && RaceFree(s)
  {
    hide Run, Step, Agreement, WellFormed, Live, Matches, RaceFree, AllCalm;
    if PutsMatch(s) && RaceFree(s) {
      forall evs | AllCalm(evs) ensures Agreement(Run(s, evs)) { CalmRunsAreAllowed(s, evs); }
    } else {
      if PutsMatch(s) {
        RacyBreaks(s);
      } else {
        var k :| k in s.requests && Live(s, k) && !Matches(s, k);
        MismatchBreaks(s, k);
      }
      var evs :| AllCalm(evs) && !Agreement(Run(s, evs));
    }
  }

  /** With nothing under way, an operator can tell before he clicks Save: it is safe whatever the server
      does if and only if at most one polygon is dirty, or none of them changes its region. */
  lemma SaveIsSafeIff(s: State)
    requires WellFormed(s) && Agreement(s) && s.requests == map[]
    ensures (forall evs :: AllCalm(evs) ==> Agreement(Run(s, evs)))
      <==> |Dirty(s)| <= 1 || forall id :: id in Dirty(s) ==> s.polygons[id].displayed == s.server[id]
  {
    hide Run, WellFormed, AllCalm;
    AgreementLastsIff(s);
    assert TablesFit(s) && CreatesAlone(s) && PutsMatch(s);
    ChangesAloneIff(s);
  }

  lemma ChangesAloneIff(s: State)
    requires Agreement(s) && s.requests == map[]
    ensures ChangesAlone(s)
      <==> |Dirty(s)| <= 1 || forall id :: id in Dirty(s) ==> s.polygons[id].displayed == s.server[id]
  {
    forall id ensures Changed(s, id) <==> id in Dirty(s) && s.polygons[id].displayed != s.server[id] { }
    forall id | Changed(s, id) ensures ChangesAlone(s) <==> Dirty(s) == {id} { }
    if |Dirty(s)| <= 1 {
      forall id, id' | Changed(s, id) && id' in Dirty(s) ensures id' == id { AtMostOne(Dirty(s), id', id); }
    }
  }

  lemma AtMostOne(ids: set<string>, a: string, b: string)
    requires |ids| <= 1 && a in ids && b in ids
    ensures a == b
  {
    SubsetSize({a, b}, ids);
    assert a != b ==> |{a, b}| == 2;
  }

  lemma {:induction false} SubsetSize(a: set<string>, b: set<string>)
    requires a <= b
    ensures |a| <= |b|
    decreases |a|
  {
    if a != {} {
      var x :| x in a;
      SubsetSize(a - {x}, b - {x});
    }
  }
}
