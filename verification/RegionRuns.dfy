/** Runs of the region edit session in which the page and the server part, one for each way. */
module RegionRuns {
  import opened RegionEdit
  import opened RegionRaces

  const SQUARE: Shape := [(0.0, 0.0), (0.0, 1.0), (1.0, 1.0), (1.0, 0.0)]
  const TRIANGLE: Shape := [(0.0, 0.0), (0.0, 1.0), (1.0, 0.0)]

  lemma Shapes()
    ensures Drawable(SQUARE) && Drawable(TRIANGLE) && SQUARE != TRIANGLE
  {
    assert |SQUARE| != |TRIANGLE|;
  }

  lemma RunAt(s: State, evs: seq<Event>, i: nat)
    requires i < |evs|
    ensures Run(s, evs[i..]) == Run(Step(s, evs[i]), evs[i + 1..])
    ensures i + 1 == |evs| ==> Run(s, evs[i..]) == Step(s, evs[i])
  {
    hide Step;
    assert evs[i..][1..] == evs[i + 1..];
    RunNone(Step(s, evs[i]));
  }

  /** The first steps of the runs here: `a` is edited and its PUT sent. */
  lemma EditedAndSent(s0: State, evs: seq<Event>) returns (s3: State)
    requires s0 == Initial(s0.server) && "a" in s0.server && s0.server["a"] == SQUARE
    requires |evs| > 3 && evs[..3] == [Enter(true), Edit("a", TRIANGLE), BeginSave]
    ensures s3.editing && s3.session == 1 && s3.server == s0.server && s3.nextSave == 1
    ensures s3.saves == map[0 := Save(1, 0)]
    ensures s3.requests == map[PutKey(0, "a") := Request(SetShape("a", TRIANGLE), Sent)]
    ensures "a" in s3.polygons && s3.polygons["a"] == Polygon(TRIANGLE, SQUARE, true)
    ensures s0.server.Keys == {"a"} ==> s3.polygons.Keys == {"a"}
    ensures Run(s0, evs) == Run(s3, evs[3..])
  {
    hide Run;
    assert evs[0..] == evs && evs[0] == evs[..3][0] && evs[1] == evs[..3][1] && evs[2] == evs[..3][2];
    Shapes();
    RunAt(s0, evs, 0);
    var s1 := Step(s0, evs[0]);
    assert "a" in s1.polygons;
    RunAt(s1, evs, 1);
    var s2 := Step(s1, evs[1]);
    assert s2.polygons == s1.polygons["a" := Polygon(TRIANGLE, SQUARE, true)];
    RunAt(s2, evs, 2);
    assert Dirty(s2) == {"a"} && PutKeys(0, {"a"}) == {PutKey(0, "a")};
    s3 := Step(s2, evs[2]);
  }

  /** The PUT is read and written; nothing else is under way. */
  lemma Stores(s: State)
    requires s.requests == map[PutKey(0, "a") := Request(SetShape("a", TRIANGLE), Sent)] && "a" in s.server
    ensures
      var t := Step(Step(s, Load(PutKey(0, "a"))), Persist(PutKey(0, "a")));
      t == s.(server := s.server["a" := TRIANGLE],
              requests := map[PutKey(0, "a") := Request(SetShape("a", TRIANGLE), Stored)])
  {
    var k := PutKey(0, "a");
    assert Is(s, k, Sent);
    var s1 := Step(s, Load(k));
    assert IsLoaded(s1, k);
  }

  /** A vertex moved while the PUT waits: the polygon ends up clean, and shows what nobody saved. */
  lemma EditInFlightIsLost()
    ensures
      var k := PutKey(0, "a");
      var s := Run(Initial(map["a" := SQUARE]),
        [Enter(true), Edit("a", TRIANGLE), BeginSave, Edit("a", SQUARE), Load(k), Persist(k), AnswerOk(k)]);
      s.polygons == map["a" := Polygon(SQUARE, TRIANGLE, false)] && s.server == map["a" := TRIANGLE]
  {
    hide Run, Step;
    var k := PutKey(0, "a");
    var s0 := Initial(map["a" := SQUARE]);
    var evs := [Enter(true), Edit("a", TRIANGLE), BeginSave, Edit("a", SQUARE), Load(k), Persist(k), AnswerOk(k)];
    var s3 := EditedAndSent(s0, evs);
    RunAt(s3, evs, 3);
    var s4 := Step(s3, evs[3]);
    EditsAgain(s3);
    RunAt(s4, evs, 4);
    RunAt(Step(s4, evs[4]), evs, 5);
    Stores(s4);
    var s6 := Step(Step(s4, evs[4]), evs[5]);
    RunAt(s6, evs, 6);
    AnswerCleans(s6);
  }

  lemma EditsAgain(s: State)
    requires s.polygons.Keys == {"a"} && s.polygons["a"] == Polygon(TRIANGLE, SQUARE, true)
    ensures Step(s, Edit("a", SQUARE)) == s.(polygons := map["a" := Polygon(SQUARE, SQUARE, true)])
  {
  }

  lemma AnswerCleans(s: State)
    requires s.session == 1 && s.saves == map[0 := Save(1, 0)] && "a" in s.polygons
    requires s.requests == map[PutKey(0, "a") := Request(SetShape("a", TRIANGLE), Stored)]
    ensures
      var t := Step(s, AnswerOk(PutKey(0, "a")));
      t.server == s.server && t.polygons == s.polygons["a" := s.polygons["a"].(saved := TRIANGLE, dirty := false)]
  {
  }

  /** A PUT that is stored but whose answer is lost: discard shows the old shape, the server has the
      new one. */
  lemma LostAnswer()
    ensures
      var k := PutKey(0, "a");
      var s := Run(Initial(map["a" := SQUARE]),
        [Enter(true), Edit("a", TRIANGLE), BeginSave, Load(k), Persist(k), AnswerFailed(k), EndSave(0)]);
      s.editing && Reverted(s).polygons == map["a" := Clean(SQUARE)] && s.server == map["a" := TRIANGLE]
  {
    hide Run, Step;
    var k := PutKey(0, "a");
    var s0 := Initial(map["a" := SQUARE]);
    var evs := [Enter(true), Edit("a", TRIANGLE), BeginSave, Load(k), Persist(k), AnswerFailed(k), EndSave(0)];
    var s3 := EditedAndSent(s0, evs);
    RunAt(s3, evs, 3);
    RunAt(Step(s3, evs[3]), evs, 4);
    Stores(s3);
    var s5 := Step(Step(s3, evs[3]), evs[4]);
    RunAt(s5, evs, 5);
    var s6 := Step(s5, evs[5]);
    RunAt(s6, evs, 6);
    AnswerGetsLost(s5);
  }

  lemma AnswerGetsLost(s: State)
    requires s.editing && s.polygons.Keys == {"a"} && s.polygons["a"] == Polygon(TRIANGLE, SQUARE, true)
    requires s.saves == map[0 := Save(1, 0)]
    requires s.requests == map[PutKey(0, "a") := Request(SetShape("a", TRIANGLE), Stored)]
    ensures
      var t := Step(Step(s, AnswerFailed(PutKey(0, "a"))), EndSave(0));
      t.editing && t.server == s.server && Reverted(t).polygons == map["a" := Clean(SQUARE)]
  {
    var t := Step(s, AnswerFailed(PutKey(0, "a")));
    assert t.requests == map[] && t.saves == map[0 := Save(1, 1)];
    assert Reverted(t).polygons == map["a" := Clean(SQUARE)];
  }

  /** Discard, then enter again, while a PUT waits: the new session shows the region clean at its old
      shape when the server already has the new one, and the end of the old save then closes the new
      session, with it an edit of another region that nobody saved. */
  lemma StaleSession()
    ensures
      var k := PutKey(0, "a");
      var s := Run(Initial(map["a" := SQUARE, "b" := SQUARE]),
        [Enter(true), Edit("a", TRIANGLE), BeginSave, Discard, Enter(true), Load(k), Persist(k), AnswerOk(k)]);
      var t := Step(Step(s, Edit("b", TRIANGLE)), EndSave(0));
      && s.polygons == map["a" := Clean(SQUARE), "b" := Clean(SQUARE)]
      && s.server == map["a" := TRIANGLE, "b" := SQUARE] == t.server
      && !Agreement(s) && !t.editing
  {
    hide Run, Step, Agreement;
    var k := PutKey(0, "a");
    var s0 := Initial(map["a" := SQUARE, "b" := SQUARE]);
    var evs := [Enter(true), Edit("a", TRIANGLE), BeginSave, Discard, Enter(true), Load(k), Persist(k), AnswerOk(k)];
    var s3 := EditedAndSent(s0, evs);
    RunAt(s3, evs, 3);
    RunAt(Step(s3, evs[3]), evs, 4);
    EntersAgain(s3);
    Shapes();
    var s5 := Step(Step(s3, evs[3]), evs[4]);
    RunAt(s5, evs, 5);
    RunAt(Step(s5, evs[5]), evs, 6);
    Stores(s5);
    var s7 := Step(Step(s5, evs[5]), evs[6]);
    RunAt(s7, evs, 7);
    StaleAnswer(s7);
  }

  lemma EntersAgain(s: State)
    ensures
      var t := Step(Step(s, Discard), Enter(true));
      && t.editing && t.session == s.session + 1 && t.server == s.server
      && t.requests == s.requests && t.saves == s.saves
      && t.polygons == map id | id in s.server && Drawable(s.server[id]) :: Clean(s.server[id])
  {
  }

  /** The new session of that run, and what the old answer and the old save do to it. */
  lemma StaleAnswer(s: State)
    requires s.editing && s.session == 2 && s.polygons == map["a" := Clean(SQUARE), "b" := Clean(SQUARE)]
    requires s.server == map["a" := TRIANGLE, "b" := SQUARE] && s.saves == map[0 := Save(1, 0)]
    requires s.requests == map[PutKey(0, "a") := Request(SetShape("a", TRIANGLE), Stored)]
    ensures
      var s' := Step(s, AnswerOk(PutKey(0, "a")));
      var t := Step(Step(s', Edit("b", TRIANGLE)), EndSave(0));
      && s'.polygons == s.polygons && s'.server == s.server == t.server
      && !Agreement(s') && !t.editing
  {
    var s' := Step(s, AnswerOk(PutKey(0, "a")));
    assert s'.requests == map[] && s'.polygons == s.polygons;
    Shapes();
    assert !Agrees(s', "a");
  }

  /** Two regions edited and saved at once: some schedule of the server leaves one of them clean on
      screen and unsaved, though every PUT succeeds. */
  lemma RacingSave()
    ensures
      var s := Run(Initial(map["a" := SQUARE, "b" := SQUARE]), [Enter(true), Edit("a", TRIANGLE), Edit("b", TRIANGLE)]);
      Agreement(s) && s.requests == map[] && CanBreak(s)
  {
    hide Run, CanBreak;
    var s0 := Initial(map["a" := SQUARE, "b" := SQUARE]);
    var evs := [Enter(true), Edit("a", TRIANGLE), Edit("b", TRIANGLE)];
    Shapes();
    assert evs[0..] == evs;
    RunAt(s0, evs, 0);
    var s1 := Step(s0, evs[0]);
    RunAt(s1, evs, 1);
    var s2 := Step(s1, evs[1]);
    RunAt(s2, evs, 2);
    var s := Step(s2, evs[2]);
    assert s.polygons == map["a" := Polygon(TRIANGLE, SQUARE, true), "b" := Polygon(TRIANGLE, SQUARE, true)];
    assert WellFormed(s) by {
      InitialInv(s0.server);
      StepKeepsWellFormed(s0, evs[0]);
      StepKeepsWellFormed(s1, evs[1]);
      StepKeepsWellFormed(s2, evs[2]);
    }
    TwoPutsBreak(s, "a", "b");
  }
}
