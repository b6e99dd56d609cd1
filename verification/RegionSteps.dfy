/** What the steps of the region edit session do to what the operator sees and to the server, one step at
a time; `RegionSave` and `RegionOutcome` have the longer stories. */
module RegionSteps {
  import opened RegionEdit

  /** Entering shows exactly the server's regions with at least three vertices, clean and as the server has
      them, in a session of its own. */
  lemma EnterShows(s: State, id: string)
    requires !s.editing
    ensures
      var t := Step(s, Enter(true));
      && t.editing && t.session > s.session && t.server == s.server && t.requests == s.requests && t.saves == s.saves
      && (id in t.polygons <==> id in s.server && |s.server[id]| >= 3)
      && (id in t.polygons ==>
            && !t.polygons[id].dirty
            && t.polygons[id].displayed == t.polygons[id].saved == s.server[id])
      && Step(s, Enter(false)) == s && Step(t, Enter(true)) == t
  {
  }

  /** A vertex edit changes what one polygon shows and marks it dirty, and nothing else. */
  lemma EditShows(s: State, id: string, shape: Shape, x: string)
    requires id in s.polygons
    ensures
      var t := Step(s, Edit(id, shape));
      && t.polygons.Keys == s.polygons.Keys && t == s.(polygons := t.polygons)
      && t.polygons[id].displayed == shape && t.polygons[id].dirty && t.polygons[id].saved == s.polygons[id].saved
      && (x in s.polygons && x != id ==> t.polygons[x] == s.polygons[x])
  {
  }

  /** Saving sends one PUT for each dirty polygon, with the shape it shows, in a new save of this session. */
  lemma SaveSendsDirty(s: State, k: Key)
    requires WellFormed(s) && exists id :: id in s.polygons && s.polygons[id].dirty
    ensures
      var t, n := Step(s, BeginSave), s.nextSave;
      && t.editing == s.editing && t.polygons == s.polygons && t.server == s.server
      && n !in s.saves && n in t.saves && t.saves[n].session == s.session && t.saves[n].failures == 0
      && (k in t.requests && k !in s.requests <==>
            k.PutKey? && k.save == n && k.id in s.polygons && s.polygons[k.id].dirty)
      && (k in t.requests && k !in s.requests ==>
            t.requests[k] == Request(SetShape(k.id, s.polygons[k.id].displayed), Sent))
      && (k in s.requests ==> k in t.requests && t.requests[k] == s.requests[k])
  {
    var id :| id in s.polygons && s.polygons[id].dirty;
    assert id in Dirty(s);
    forall k | k in s.requests ensures k !in PutKeys(s.nextSave, Dirty(s)) { assert KeyFits(s, k); }
  }

  /** A creation under a new id, or a rename, recolour or deletion of a region known before and not just being
      created, becomes a request of its own and shows nothing yet; nothing else can be asked. */
  lemma AskSends(s: State, c: Change)
    requires WellFormed(s)
    ensures
      var t, k := Step(s, Ask(c)), OtherKey(s.nextOther);
      var creating := exists k :: k in s.requests && s.requests[k].change.Add? && s.requests[k].change.id == c.id;
      var asked := (c.Add? && c.id !in s.issued) || ((c.Touch? || c.Drop?) && c.id in s.issued && !creating);
      if asked then
        && t.polygons == s.polygons && t.server == s.server && t.saves == s.saves
        && k !in s.requests && t.requests == s.requests[k := Request(c, Sent)] && c.id in t.issued
      else t == s
  {
    assert OtherKey(s.nextOther) in s.requests ==> KeyFits(s, OtherKey(s.nextOther));
  }

  /** A read takes the table as it is, if the region to be changed is in it; otherwise the answer is 404. */
  lemma LoadReads(s: State, k: Key)
    requires Is(s, k, Sent)
    ensures
      var c, t := s.requests[k].change, Step(s, Load(k));
      && t == s.(requests := t.requests) && t.requests - {k} == s.requests - {k}
      && (if c.Add? || c.id in s.server then k in t.requests && t.requests[k] == Request(c, Loaded(s.server))
          else if k.PutKey? then k in t.requests && t.requests[k] == Request(c, Refused)
          else k !in t.requests)
  {
  }

  /** What a write makes of the table that was read, and what the page then shows of a region created or
      deleted by it. */
  lemma WriteStores(s: State, k: Key, x: string)
    requires WellFormed(s) && IsLoaded(s, k)
    ensures
      var c, table, t := s.requests[k].change, s.requests[k].phase.table, Step(s, Persist(k));
      && (x != c.id || c.Touch? ==>
            (x in t.server <==> x in table) && (x in table ==> t.server[x] == table[x])
            && (x in t.polygons <==> x in s.polygons) && (x in s.polygons ==> t.polygons[x] == s.polygons[x]))
      && (c.SetShape? ==> c.id in t.server && t.server[c.id] == c.shape && t.polygons == s.polygons && Is(t, k, Stored))
      && (c.Add? ==>
            && c.id in t.server && t.server[c.id] == c.shape
            && (c.id in t.polygons <==> s.editing && |c.shape| >= 3)
            && (c.id in t.polygons ==>
                  t.polygons[c.id].displayed == t.polygons[c.id].saved == c.shape && !t.polygons[c.id].dirty))
      && (c.Drop? ==> c.id !in t.server && c.id !in t.polygons)
      && (!c.SetShape? ==> k !in t.requests)
  {
    hide Step;
    StepPersist(s, k);
    assert KeyFits(s, k);
    if s.requests[k].change.Add? { assert Unseen(s, k, s.requests[k].change.id); }
  }

  /** A failed answer counts against its own save and changes no polygon. */
  lemma FailureCounts(s: State, k: Key)
    requires k in s.requests && k.PutKey? && k.save in s.saves
    ensures
      var t := Step(s, AnswerFailed(k));
      && t.polygons == s.polygons && t.server == s.server && t.requests == s.requests - {k}
      && t.saves.Keys == s.saves.Keys && t.saves[k.save].failures == s.saves[k.save].failures + 1
      && forall n :: n in s.saves && n != k.save ==> t.saves[n] == s.saves[n]
  {
  }

  /** A successful answer makes the polygon it was sent for clean, if that is still shown, with the shape
      sent as the saved one; what is displayed stays, and so does every other polygon. */
  lemma AnswerSaves(s: State, k: Key, x: string)
    requires WellFormed(s) && k.PutKey? && Is(s, k, Stored)
    ensures
      var t := Step(s, AnswerOk(k));
      && t.server == s.server && t.saves == s.saves && t.requests == s.requests - {k} && t.editing == s.editing
      && (x in t.polygons <==> x in s.polygons)
      && (x in s.polygons ==>
            && t.polygons[x].displayed == s.polygons[x].displayed
            && (if x == k.id && s.saves[k.save].session == s.session
                then t.polygons[x].saved == s.requests[k].change.shape && !t.polygons[x].dirty
                else t.polygons[x] == s.polygons[x]))
  {
    assert KeyFits(s, k);
  }

  /** A save whose PUTs are all answered closes the session, unless one of them failed. */
  lemma SaveEnds(s: State, n: nat)
    requires n in s.saves && forall k :: k in s.requests && k.PutKey? ==> k.save != n
    ensures
      var t := Step(s, EndSave(n));
      && t.saves == s.saves - {n} && t.server == s.server && t.requests == s.requests
      && (if s.saves[n].failures == 0 then !t.editing && t.polygons == map[]
          else t.editing == s.editing && t.polygons == s.polygons)
  {
  }

  /** Discard ends the session and asks nothing of the server; what was sent before goes on. */
  lemma DiscardEnds(s: State)
    ensures
      var t := Step(s, Discard);
      !t.editing && t.polygons == map[] && t.server == s.server && t.requests == s.requests && t.saves == s.saves
  {
  }
}
