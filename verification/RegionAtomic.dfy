/** The region table as it would be if the server read and wrote it in one step, and when the real one
is no different. */
module RegionAtomic {
  import opened RegionEdit
  import opened RegionOutcome

  /** As `Step`, but a request reads and writes the table at once; it only reads if it finds nothing. */
  function AtomicStep(s: State, ev: Event): State {
    match ev
    case Load(k) => if Is(s, k, Sent) && !Loadable(s.requests[k].change, s.server) then LoadStep(s, k) else s
    case Persist(k) =>
      if Is(s, k, Sent) && Loadable(s.requests[k].change, s.server) then PersistStep(LoadStep(s, k), k) else s
    case _ => Step(s, ev)
  }

  function AtomicRun(s: State, evs: seq<Event>): State {
    if evs == [] then s else AtomicStep(AtomicRun(s, evs[..|evs| - 1]), evs[|evs| - 1])
  }

  function Unread(r: Request): Request { if r.phase.Loaded? then r.(phase := Sent) else r }

  function UnreadAll(requests: map<Key, Request>): map<Key, Request> {
    map k | k in requests :: Unread(requests[k])
  }

  /** The state without the tables that requests have read. */
  function Erase(s: State): State { s.(requests := UnreadAll(s.requests)) }

  /** A request that has read the table has found its region in it. */
  predicate Found(s: State) {
    forall k :: k in s.requests && s.requests[k].phase.Loaded? ==>
      Loadable(s.requests[k].change, s.requests[k].phase.table)
  }

  lemma StepKeepsFound(s: State, ev: Event)
    requires Found(s)
    ensures Found(Step(s, ev))
  {
    if ev.Load? {
      hide Step;
      StepLoad(s, ev.key);
    }
  }

  lemma UnreadRemove(requests: map<Key, Request>, k: Key)
    ensures UnreadAll(requests - {k}) == UnreadAll(requests) - {k}
  {
  }

  lemma UnreadUpdate(requests: map<Key, Request>, k: Key, r: Request)
    ensures UnreadAll(requests[k := r]) == UnreadAll(requests)[k := Unread(r)]
  {
  }

  lemma UnreadSame(requests: map<Key, Request>, k: Key)
    requires k in requests
    ensures UnreadAll(requests)[k := Unread(requests[k])] == UnreadAll(requests)
  {
  }

  lemma LoadErased(s: State, k: Key)
    ensures Erase(Step(s, Load(k))) == AtomicStep(Erase(s), Load(k)) || Erase(Step(s, Load(k))) == Erase(s)
  {
    hide Step, UnreadAll;
    StepLoad(s, k);
    if Is(s, k, Sent) {
      var r := s.requests[k];
      UnreadAt(s.requests, k);
      UnreadSame(s.requests, k);
      UnreadRemove(s.requests, k);
      UnreadUpdate(s.requests, k, r.(phase := Loaded(s.server)));
      UnreadUpdate(s.requests, k, r.(phase := Refused));
    }
  }

  lemma UnreadAt(requests: map<Key, Request>, k: Key)
    ensures k in UnreadAll(requests) <==> k in requests
    ensures k in requests ==> UnreadAll(requests)[k] == Unread(requests[k])
  {
  }

  lemma PersistErased(s: State, k: Key)
    requires Found(s) && UpToDate(s, k)
    ensures
      var t := Erase(Step(s, Persist(k)));
      if IsLoaded(s, k) then t == AtomicStep(Erase(s), Persist(k)) else t == Erase(s)
  {
    hide Step;
    StepPersist(s, k);
    if IsLoaded(s, k) {
      var e := Erase(s);
      assert Is(e, k, Sent) && Loadable(e.requests[k].change, e.server);
      var t, t' := Erase(PersistStep(s, k)), PersistStep(LoadStep(e, k), k);
      assert t.requests == t'.requests;
    }
  }

  lemma WaitingErased(s: State, n: nat)
    ensures Waiting(Erase(s), n) <==> Waiting(s, n)
  {
    var e := Erase(s);
    if k :| k in s.requests && k.PutKey? && k.save == n { assert k in e.requests; }
    if k :| k in e.requests && k.PutKey? && k.save == n { assert k in s.requests; }
  }

  lemma PageErased(s: State, ev: Event)
    requires ev.Enter? || ev.Edit? || ev.EndSave? || ev.Discard?
    ensures Erase(Step(s, ev)) == Step(Erase(s), ev)
  {
    hide UnreadAll, Waiting, WithPuts;
    if ev.EndSave? { WaitingErased(s, ev.save); }
  }

  lemma AnswerErased(s: State, ev: Event)
    requires ev.AnswerOk? || ev.AnswerFailed? || ev.Ask?
    ensures Erase(Step(s, ev)) == Step(Erase(s), ev)
  {
    hide UnreadAll, Waiting, WithPuts;
    if ev.Ask? {
      AdmitsErased(s, ev.change);
      UnreadUpdate(s.requests, OtherKey(s.nextOther), Request(ev.change, Sent));
    } else {
      UnreadAt(s.requests, ev.key);
      UnreadRemove(s.requests, ev.key);
    }
  }

  lemma AdmitsErased(s: State, c: Change)
    ensures Admits(Erase(s), c) <==> Admits(s, c)
  {
    var e := Erase(s);
    assert forall k :: k in e.requests <==> k in s.requests;
    assert forall k :: k in s.requests ==> e.requests[k].change == s.requests[k].change;
  }

  lemma SaveErased(s: State)
    ensures Erase(Step(s, BeginSave)) == Step(Erase(s), BeginSave)
  {
    assert Dirty(Erase(s)) == Dirty(s);
    var a, b := UnreadAll(WithPuts(s)), WithPuts(Erase(s));
    assert a.Keys == b.Keys;
    forall k | k in a ensures a[k] == b[k] { }
    assert a == b;
  }

  /** A run whose writes do not interleave is, but for the tables read, a run of the atomic server. */
  lemma {:induction false} SerialRunsAreAtomic(s: State, evs: seq<Event>) returns (evs': seq<Event>)
    requires Found(s) && Serial(s, evs)
    ensures Found(Run(s, evs)) && Erase(Run(s, evs)) == AtomicRun(Erase(s), evs')
    ensures |evs'| <= |evs| && forall i :: 0 <= i < |evs'| ==> evs'[i] in evs
    decreases |evs|
  {
    hide Run, Step, Erase, AtomicStep, Found, UpToDate;
    if evs == [] {
      RunNone(s);
      evs' := [];
    } else {
      var n := |evs| - 1;
      var front, ev := evs[..n], evs[n];
      SerialPrefix(s, evs, n);
      evs' := SerialRunsAreAtomic(s, front);
      var u := Run(s, front);
      RunSnoc(s, evs);
      StepKeepsFound(u, ev);
      StepErased(u, ev);
      if Erase(Step(u, ev)) != Erase(u) {
        assert (evs' + [ev])[..|evs'|] == evs';
        evs' := evs' + [ev];
      }
      assert ev in evs && forall x :: x in front ==> x in evs;
    }
  }

  lemma StepErased(s: State, ev: Event)
    requires Found(s) && (ev.Persist? ==> UpToDate(s, ev.key))
    ensures Erase(Step(s, ev)) == AtomicStep(Erase(s), ev) || Erase(Step(s, ev)) == Erase(s)
  {
    hide Step, Erase, Found;
    match ev
    case Load(k) => LoadErased(s, k);
    case Persist(k) => PersistErased(s, k);
    case BeginSave => SaveErased(s);
    case AnswerOk(_) => AnswerErased(s, ev);
    case AnswerFailed(_) => AnswerErased(s, ev);
    case Ask(_) => AnswerErased(s, ev);
    case _ => PageErased(s, ev);
  }
}
