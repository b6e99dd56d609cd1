/** The region edit session, public/js/map.js, and the server's region table,
src/services/mapRegionService.ts.

A save issues one PUT per dirty polygon and waits for all of them. All regions are one settings
value: a PUT, and likewise a rename, a new colour, a new region or a deletion, reads the whole
table in one database step and writes the whole table back in another, and a PUT is answered in a
third. In between the operator may do anything the page lets him do: discard, save again, leave
and enter again. The answer writes to the polygon object captured when the PUT was sent, so a save
is tagged with its session: once the session is gone nobody sees that object. The end of a save
tears down whatever session is current then. */
module RegionEdit {

  type Shape = seq<(real, real)>
  type Table = map<string, Shape>

  datatype Polygon = Polygon(displayed: Shape, saved: Shape, dirty: bool)

  /** What a request does to the table; `Touch` is a rename or a new colour. */
  datatype Change =
    | SetShape(id: string, shape: Shape)
    | Touch(id: string)
    | Add(id: string, shape: Shape)
    | Drop(id: string)

  /** How far the server is with a request; once loaded it holds the table it read. */
  datatype Phase = Sent | Loaded(table: Table) | Stored | Refused

  datatype Request = Request(change: Change, phase: Phase)

  /** The PUT of a save for a region, or the n-th other request. */
  datatype Key = PutKey(save: nat, id: string) | OtherKey(n: nat)

  /** One call of `saveAndExitRegionEditMode`: the session it was started in and its failure count. */
  datatype Save = Save(session: nat, failures: nat)

  /** `requests` are those not yet answered; `issued` are the region ids ever used. */
  datatype State = State(
    editing: bool, session: nat, polygons: map<string, Polygon>, server: Table,
    requests: map<Key, Request>, saves: map<nat, Save>, nextSave: nat, nextOther: nat, issued: set<string>)

  datatype Event =
    | Enter(listed: bool)
    | Edit(id: string, shape: Shape)
    | BeginSave
    | Ask(change: Change)
    | Load(key: Key)
    | Persist(key: Key)
    | AnswerOk(key: Key)
    | AnswerFailed(key: Key)
    | EndSave(save: nat)
    | Discard

  function Initial(regions: Table): State { State(false, 0, map[], regions, map[], map[], 0, 0, regions.Keys) }

  function Clean(shape: Shape): Polygon { Polygon(shape, shape, false) }

  predicate Drawable(shape: Shape) { |shape| >= 3 }

  function TornDown(s: State): State { s.(editing := false, polygons := map[]) }

  function Dirty(s: State): set<string> { set id | id in s.polygons && s.polygons[id].dirty }

  /** `discardAndExitRegionEditMode` before the tear-down. */
  function Reverted(s: State): State {
    s.(polygons := map id | id in s.polygons ::
         if s.polygons[id].dirty then s.polygons[id].(displayed := s.polygons[id].saved, dirty := false)
         else s.polygons[id])
  }

  // ----- Requests

  function PutKeys(save: nat, ids: set<string>): set<Key> { set id | id in ids :: PutKey(save, id) }

  /** The requests with one more PUT for each dirty polygon. */
  function WithPuts(s: State): map<Key, Request> {
    map k | k in s.requests.Keys + PutKeys(s.nextSave, Dirty(s)) ::
      if k in PutKeys(s.nextSave, Dirty(s)) then Request(SetShape(k.id, s.polygons[k.id].displayed), Sent)
      else s.requests[k]
  }

  /** What the page can send: a new region under an unused id, or a rename, recolour or deletion of a
      region that was on screen when the prompt opened and need not be any more. */
  predicate Admits(s: State, c: Change) {
    match c
    case SetShape(_, _) => false
    case Add(id, _) => id !in s.issued
    case _ =>
      && c.id in s.issued
      && forall k :: k in s.requests && s.requests[k].change.Add? ==> s.requests[k].change.id != c.id
  }

  function Effect(c: Change, table: Table): Table {
    match c
    case SetShape(id, shape) => table[id := shape]
    case Touch(_) => table
    case Add(id, shape) => table[id := shape]
    case Drop(id) => table - {id}
  }

  /** Whether the server finds the region; otherwise it answers 404. */
  predicate Loadable(c: Change, table: Table) { c.Add? || c.id in table }

  function LoadStep(s: State, k: Key): State
    requires k in s.requests
  {
    var r := s.requests[k];
    if Loadable(r.change, s.server) then s.(requests := s.requests[k := r.(phase := Loaded(s.server))])
    else if k.PutKey? then s.(requests := s.requests[k := r.(phase := Refused)])
    else s.(requests := s.requests - {k})
  }

  /** The handlers of a create or delete, which run on the current session. */
  function PageEffect(s: State, c: Change): map<string, Polygon> {
    match c
    case Add(id, shape) => if s.editing && Drawable(shape) then s.polygons[id := Clean(shape)] else s.polygons
    case Drop(id) => s.polygons - {id}
    case _ => s.polygons
  }

  function PersistStep(s: State, k: Key): State
    requires k in s.requests && s.requests[k].phase.Loaded?
  {
    var r := s.requests[k];
    var s' := s.(server := Effect(r.change, r.phase.table));
    if k.PutKey? then s'.(requests := s.requests[k := r.(phase := Stored)])
    else s'.(requests := s.requests - {k}, polygons := PageEffect(s, r.change))
  }

  /** A PUT has succeeded: the handler runs on the polygon it was sent for, if that is still shown. */
  function AnsweredOk(s: State, k: Key): State
    requires k in s.requests && k.PutKey? && s.requests[k].change.SetShape?
  {
    var shape := s.requests[k].change.shape;
    s.(requests := s.requests - {k},
       polygons := if k.save in s.saves && s.saves[k.save].session == s.session && k.id in s.polygons
                   then s.polygons[k.id := s.polygons[k.id].(saved := shape, dirty := false)] else s.polygons)
  }

  function AnsweredFailed(s: State, k: Key): State
    requires k in s.requests
  {
    s.(requests := s.requests - {k},
       saves := if k.PutKey? && k.save in s.saves
                then s.saves[k.save := s.saves[k.save].(failures := s.saves[k.save].failures + 1)] else s.saves)
  }

  predicate Waiting(s: State, save: nat) { exists k :: k in s.requests && k.PutKey? && k.save == save }

  predicate InFlight(s: State, id: string) { exists k :: k in s.requests && k.PutKey? && k.id == id }

  predicate Is(s: State, k: Key, phase: Phase) { k in s.requests && s.requests[k].phase == phase }

  predicate IsLoaded(s: State, k: Key) { k in s.requests && s.requests[k].phase.Loaded? }

  function Step(s: State, ev: Event): State {
    match ev
    case Enter(listed) =>
      if s.editing || !listed then s
      else s.(editing := true, session := s.session + 1,
              polygons := map id | id in s.server && Drawable(s.server[id]) :: Clean(s.server[id]))
    case Edit(id, shape) =>
      if id !in s.polygons then s
      else s.(polygons := s.polygons[id := s.polygons[id].(displayed := shape, dirty := true)])
    case BeginSave =>
      if Dirty(s) == {} then TornDown(s)
      else s.(requests := WithPuts(s), saves := s.saves[s.nextSave := Save(s.session, 0)], nextSave := s.nextSave + 1)
    case Ask(c) =>
      if !Admits(s, c) then s
      else s.(requests := s.requests[OtherKey(s.nextOther) := Request(c, Sent)], nextOther := s.nextOther + 1,
              issued := s.issued + {c.id})
    case Load(k) => if Is(s, k, Sent) then LoadStep(s, k) else s
    case Persist(k) => if IsLoaded(s, k) then PersistStep(s, k) else s
    case AnswerOk(k) =>
      if Is(s, k, Stored) && k.PutKey? && s.requests[k].change.SetShape? then AnsweredOk(s, k) else s
    case AnswerFailed(k) => if k in s.requests then AnsweredFailed(s, k) else s
    case EndSave(n) =>
      if n !in s.saves || Waiting(s, n) then s
      else
        var s' := s.(saves := s.saves - {n});
        if s.saves[n].failures > 0 then s' else TornDown(s')
    case Discard => TornDown(Reverted(s))
  }

  lemma StepLoad(s: State, k: Key)
    ensures Step(s, Load(k)) == if Is(s, k, Sent) then LoadStep(s, k) else s
  {
  }

  lemma StepPersist(s: State, k: Key)
    ensures Step(s, Persist(k)) == if IsLoaded(s, k) then PersistStep(s, k) else s
  {
  }

  function Run(s: State, evs: seq<Event>): State
    decreases |evs|
  {
    if evs == [] then s else Run(Step(s, evs[0]), evs[1..])
  }

  // ----- Agreement

  predicate Agrees(s: State, id: string)
    requires id in s.polygons && id in s.server
  {
    s.polygons[id].dirty || (s.polygons[id].displayed == s.polygons[id].saved == s.server[id])
  }

  /** Every polygon is one of the server's regions, and a clean one shows what is saved and what the
      server has. */
  predicate Agreement(s: State) {
    forall id :: id in s.polygons ==> id in s.server && Agrees(s, id)
  }

  predicate KeyFits(s: State, k: Key)
    requires k in s.requests
  {
    var r := s.requests[k];
    match k
    case PutKey(n, id) => n in s.saves && r.change.SetShape? && r.change.id == id
    case OtherKey(n) => n < s.nextOther && !r.change.SetShape? && (r.phase.Sent? || r.phase.Loaded?)
  }

  /** The id of a region that is being created is nowhere else yet. */
  predicate Unseen(s: State, k: Key, id: string) {
    && id !in s.server && id !in s.polygons
    && forall k' :: k' in s.requests ==>
        && (k' != k ==> s.requests[k'].change.id != id)
        && (s.requests[k'].phase.Loaded? ==> id !in s.requests[k'].phase.table)
  }

  predicate Creating(s: State) {
    forall k :: k in s.requests && s.requests[k].change.Add? ==> Unseen(s, k, s.requests[k].change.id)
  }

  predicate IdsIssued(s: State) {
    && s.server.Keys <= s.issued && s.polygons.Keys <= s.issued
    && forall k :: k in s.requests ==>
        && s.requests[k].change.id in s.issued
        && (s.requests[k].phase.Loaded? ==> s.requests[k].phase.table.Keys <= s.issued)
  }

  predicate KeysFit(s: State) {
    && (!s.editing ==> s.polygons == map[])
    && (forall n :: n in s.saves ==> n < s.nextSave && s.saves[n].session <= s.session)
    && (forall k :: k in s.requests ==> KeyFits(s, k))
  }

  /** Holds in every run. */
  predicate WellFormed(s: State) { KeysFit(s) && Creating(s) && IdsIssued(s) }

  predicate Current(s: State, k: Key) { k.PutKey? && k.save in s.saves && s.saves[k.save].session == s.session }

  /** The PUT can still change what the server has or what the page believes about its region. */
  predicate Live(s: State, k: Key) {
    && k in s.requests && k.PutKey? && s.requests[k].change.SetShape? && k.id in s.polygons
    && var phase := s.requests[k].phase;
       phase.Sent? || phase.Loaded? || (phase.Stored? && Current(s, k))
  }

  /** A live PUT carries the shape shown, and once stored the server has it. */
  predicate Matches(s: State, k: Key)
    requires Live(s, k)
  {
    var r := s.requests[k];
    && r.change.shape == s.polygons[k.id].displayed
    && (r.phase.Stored? ==> k.id in s.server && s.server[k.id] == r.change.shape)
  }

  predicate PutsMatch(s: State) {
    forall k :: k in s.requests && Live(s, k) ==> Matches(s, k)
  }

  predicate Inv(s: State) { WellFormed(s) && Agreement(s) && PutsMatch(s) }

  // ----- What each step may do

  /** The change sets, removes or creates the region, rather than writing back what was read of it. */
  predicate Writes(c: Change, id: string) { c.id == id && !c.Touch? }

  /** The page takes the region for saved, or is about to: it is clean or its PUT has been stored. */
  predicate Settled(s: State, id: string)
    requires id in s.polygons
  {
    !s.polygons[id].dirty || exists k :: k in s.requests && Live(s, k) && k.id == id && s.requests[k].phase.Stored?
  }

  /** What the request read is still right for every other region on screen. */
  predicate StillRight(s: State, c: Change, table: Table) {
    forall id :: id in s.polygons && !Writes(c, id) ==>
      id in table && (Settled(s, id) && id in s.server ==> table[id] == s.server[id])
  }

  /** Editing a polygon must not part it from a live PUT, entering must not load a shape that a PUT
      still under way is about to overwrite, and writing the table back must not undo what was
      written since it was read. Everything else is free. */
  predicate Allowed(s: State, ev: Event) {
    match ev
    case Edit(id, shape) =>
      forall k :: k in s.requests && Live(s, k) && k.id == id ==> s.requests[k].change.shape == shape
    case Enter(listed) =>
      s.editing || !listed ||
      forall k :: k in s.requests && k.PutKey? && k.id in s.server && Drawable(s.server[k.id])
        && s.requests[k].change.SetShape? && (s.requests[k].phase.Sent? || s.requests[k].phase.Loaded?)
        ==> s.requests[k].change.shape == s.server[k.id]
    case Persist(k) => IsLoaded(s, k) ==> StillRight(s, s.requests[k].change, s.requests[k].phase.table)
    case _ => true
  }

  // ----- Well-formedness, in every run

  /** Requests only go away or read the table; nothing is written. */
  predicate OnlyReads(s: State, t: State) {
    && t.server == s.server && t.polygons.Keys <= s.polygons.Keys && t.issued == s.issued
    && forall k :: k in t.requests ==>
        && k in s.requests && t.requests[k].change == s.requests[k].change
        && (t.requests[k].phase.Loaded? ==>
              t.requests[k].phase == s.requests[k].phase || t.requests[k].phase.table == s.server)
  }

  lemma ReadsKeepCreating(s: State, t: State)
    requires OnlyReads(s, t) && Creating(s) && IdsIssued(s)
    ensures Creating(t) && IdsIssued(t)
  {
    forall k | k in t.requests && t.requests[k].change.Add? ensures Unseen(t, k, t.requests[k].change.id) {
      assert Unseen(s, k, s.requests[k].change.id);
    }
  }

  lemma AnswerKeepsWellFormed(s: State, ev: Event)
    requires WellFormed(s) && (ev.AnswerOk? || ev.AnswerFailed? || ev.EndSave? || ev.Discard? || ev.Edit?)
    ensures WellFormed(Step(s, ev))
  {
    hide OnlyReads, Creating, IdsIssued, Step;
    AnswerOnlyReads(s, ev);
    ReadsKeepCreating(s, Step(s, ev));
    AnswerKeepsKeys(s, ev);
  }

  lemma AnswerKeepsKeys(s: State, ev: Event)
    requires KeysFit(s) && (ev.AnswerOk? || ev.AnswerFailed? || ev.EndSave? || ev.Discard? || ev.Edit?)
    ensures KeysFit(Step(s, ev))
  {
    var t := Step(s, ev);
    forall k | k in t.requests ensures KeyFits(t, k) {
      assert t.requests[k] == s.requests[k] && KeyFits(s, k);
    }
  }

  lemma AnswerOnlyReads(s: State, ev: Event)
    requires ev.AnswerOk? || ev.AnswerFailed? || ev.EndSave? || ev.Discard? || ev.Edit?
    ensures OnlyReads(s, Step(s, ev))
  {
  }

  lemma EnterKeepsWellFormed(s: State, listed: bool)
    requires WellFormed(s)
    ensures WellFormed(Step(s, Enter(listed)))
  {
    var t := Step(s, Enter(listed));
    forall k | k in t.requests
      ensures KeyFits(t, k) && (t.requests[k].change.Add? ==> Unseen(t, k, t.requests[k].change.id))
    {
      assert KeyFits(s, k);
    }
  }

  lemma SaveKeepsWellFormed(s: State)
    requires WellFormed(s)
    ensures WellFormed(Step(s, BeginSave))
  {
    var t := Step(s, BeginSave);
    forall k | k in t.requests
      ensures KeyFits(t, k) && (t.requests[k].change.Add? ==> Unseen(t, k, t.requests[k].change.id))
    {
      assert k in s.requests ==> KeyFits(s, k);
    }
  }

  lemma AskKeepsWellFormed(s: State, c: Change)
    requires WellFormed(s)
    ensures WellFormed(Step(s, Ask(c)))
  {
    var t := Step(s, Ask(c));
    forall k | k in t.requests
      ensures KeyFits(t, k) && (t.requests[k].change.Add? ==> Unseen(t, k, t.requests[k].change.id))
    {
      assert k in s.requests ==> KeyFits(s, k);
    }
  }

  lemma LoadKeepsWellFormed(s: State, key: Key)
    requires WellFormed(s)
    ensures WellFormed(Step(s, Load(key)))
  {
    hide OnlyReads, Creating, IdsIssued, Step;
    var t := Step(s, Load(key));
    StepLoad(s, key);
    LoadOnlyReads(s, key);
    ReadsKeepCreating(s, t);
    forall k | k in t.requests ensures KeyFits(t, k) { assert KeyFits(s, k); }
  }

  lemma LoadOnlyReads(s: State, key: Key)
    ensures OnlyReads(s, Step(s, Load(key)))
  {
    hide Step;
    StepLoad(s, key);
  }

  lemma PersistKeepsWellFormed(s: State, key: Key)
    requires WellFormed(s)
    ensures WellFormed(Step(s, Persist(key)))
  {
    hide Step;
    StepPersist(s, key);
    var t := Step(s, Persist(key));
    forall k | k in t.requests
      ensures KeyFits(t, k) && (t.requests[k].change.Add? ==> Unseen(t, k, t.requests[k].change.id))
    {
      assert KeyFits(s, k) && t.requests[k].change == s.requests[k].change;
    }
  }

  lemma StepKeepsWellFormed(s: State, ev: Event)
    requires WellFormed(s)
    ensures WellFormed(Step(s, ev))
  {
    hide WellFormed, Step;
    match ev
    case Enter(listed) => EnterKeepsWellFormed(s, listed);
    case BeginSave => SaveKeepsWellFormed(s);
    case Ask(c) => AskKeepsWellFormed(s, c);
    case Load(k) => LoadKeepsWellFormed(s, k);
    case Persist(k) => PersistKeepsWellFormed(s, k);
    case _ => AnswerKeepsWellFormed(s, ev);
  }

  // ----- The invariant

  predicate Good(s: State) { Agreement(s) && PutsMatch(s) }

  lemma OtherKeepsGood(s: State, ev: Event)
    requires WellFormed(s) && Good(s) && (ev.AnswerFailed? || ev.EndSave? || ev.Discard? || ev.Ask?)
    ensures Good(Step(s, ev))
  {
    hide Creating, IdsIssued;
    var t := Step(s, ev);
    forall k | k in t.requests && Live(t, k) ensures Matches(t, k) {
      assert k in s.requests ==> KeyFits(s, k);
      assert Live(s, k) && Matches(s, k);
    }
  }

  lemma LoadKeepsGood(s: State, key: Key)
    requires WellFormed(s) && Good(s)
    ensures Good(Step(s, Load(key)))
  {
    hide Creating, IdsIssued, Step;
    StepLoad(s, key);
    var t := Step(s, Load(key));
    forall k | k in t.requests && Live(t, k) ensures Matches(t, k) { assert Live(s, k) && Matches(s, k); }
  }

  lemma AnswerOkKeepsGood(s: State, key: Key)
    requires WellFormed(s) && Good(s)
    ensures Good(Step(s, AnswerOk(key)))
  {
    hide Creating, IdsIssued;
    var t := Step(s, AnswerOk(key));
    forall k | k in t.requests && Live(t, k) ensures Matches(t, k) {
      assert Live(s, k) && Matches(s, k);
    }
    if t.polygons != s.polygons { assert Live(s, key) && Matches(s, key); }
  }

  lemma SaveKeepsGood(s: State)
    requires WellFormed(s) && Good(s)
    ensures Good(Step(s, BeginSave))
  {
    var t := Step(s, BeginSave);
    forall k | k in t.requests && Live(t, k) ensures Matches(t, k) {
      if k !in PutKeys(s.nextSave, Dirty(s)) {
        assert KeyFits(s, k);
        assert Live(s, k) && Matches(s, k);
      }
    }
  }

  lemma EditKeepsGoodIff(s: State, id: string, shape: Shape)
    requires WellFormed(s) && Good(s)
    ensures Good(Step(s, Edit(id, shape))) <==> Allowed(s, Edit(id, shape))
  {
    var t := Step(s, Edit(id, shape));
    forall k ensures Live(t, k) <==> Live(s, k) { }
    if Good(t) {
      forall k | k in s.requests && Live(s, k) && k.id == id ensures s.requests[k].change.shape == shape {
        assert Matches(t, k);
      }
    }
    if Allowed(s, Edit(id, shape)) {
      forall k | k in t.requests && Live(t, k) ensures Matches(t, k) { assert Matches(s, k); }
    }
  }

  lemma EnterKeepsGoodIff(s: State, listed: bool)
    requires WellFormed(s) && Good(s)
    ensures Good(Step(s, Enter(listed))) <==> Allowed(s, Enter(listed))
  {
    var t := Step(s, Enter(listed));
    if !s.editing && listed {
      forall k | k in s.requests
        ensures Live(t, k) <==>
          && k.PutKey? && k.id in s.server && Drawable(s.server[k.id])
          && s.requests[k].change.SetShape? && (s.requests[k].phase.Sent? || s.requests[k].phase.Loaded?)
      {
        assert KeyFits(s, k);
      }
      if Good(t) {
        forall k | k in s.requests && Live(t, k) ensures s.requests[k].change.shape == s.server[k.id] {
          assert Matches(t, k);
        }
      }
    }
  }

  /** After a write, every other region is as it was read. */
  lemma PersistKeepsGoodIff(s: State, key: Key)
    requires WellFormed(s) && Good(s)
    ensures Good(Step(s, Persist(key))) <==> Allowed(s, Persist(key))
  {
    hide WellFormed;
    if IsLoaded(s, key) {
      LiveAfterPersist(s, key);
      if Allowed(s, Persist(key)) {
        PersistWhenRight(s, key);
      } else {
        PersistWhenStale(s, key);
      }
    }
  }

  lemma LiveAfterPersist(s: State, key: Key)
    requires WellFormed(s) && IsLoaded(s, key)
    ensures
      var t := Step(s, Persist(key));
      forall k :: k in s.requests && k != key ==>
        && k in t.requests && t.requests[k] == s.requests[k]
        && (Live(t, k) <==> Live(s, k) && k.id in t.polygons)
  {
    var c := s.requests[key].change;
    assert KeyFits(s, key);
    var t := Step(s, Persist(key));
    forall k | k in s.requests && k != key ensures Live(t, k) <==> Live(s, k) && k.id in t.polygons {
      assert KeyFits(s, k);
      if c.Add? { assert Unseen(s, key, c.id) && s.requests[k].change.id != c.id; }
    }
  }

  /** What a write leaves of a region it does not set itself. */
  lemma WrittenBack(s: State, key: Key, id: string)
    requires WellFormed(s) && IsLoaded(s, key)
    ensures
      var c, table, t := s.requests[key].change, s.requests[key].phase.table, Step(s, Persist(key));
      !Writes(c, id) ==>
        && (id in t.polygons <==> id in s.polygons) && (id in s.polygons ==> t.polygons[id] == s.polygons[id])
        && (id in t.server <==> id in table) && (id in table ==> t.server[id] == table[id])
  {
  }

  lemma PersistWhenRight(s: State, key: Key)
    requires WellFormed(s) && Good(s) && IsLoaded(s, key) && Allowed(s, Persist(key))
    ensures Good(Step(s, Persist(key)))
  {
    var c, t := s.requests[key].change, Step(s, Persist(key));
    assert KeyFits(s, key);
    LiveAfterPersist(s, key);
    if c.SetShape? && c.id in s.polygons { assert Live(s, key) && Matches(s, key); }
    forall id | id in t.polygons ensures id in t.server && Agrees(t, id) { WrittenBack(s, key, id); }
    forall k | k in t.requests && Live(t, k) ensures Matches(t, k) {
      if k != key {
        assert KeyFits(s, k);
        assert Live(s, k) && Matches(s, k);
        WrittenBack(s, key, k.id);
      }
    }
  }

  lemma PersistWhenStale(s: State, key: Key)
    requires WellFormed(s) && Good(s) && IsLoaded(s, key) && !Allowed(s, Persist(key))
    ensures !Good(Step(s, Persist(key)))
  {
    var c, table, t := s.requests[key].change, s.requests[key].phase.table, Step(s, Persist(key));
    var id :| id in s.polygons && !Writes(c, id)
              && !(id in table && (Settled(s, id) && id in s.server ==> table[id] == s.server[id]));
    WrittenBack(s, key, id);
    LiveAfterPersist(s, key);
    if id in table && s.polygons[id].dirty {
      var k :| k in s.requests && Live(s, k) && k.id == id && s.requests[k].phase.Stored?;
      assert Matches(s, k) && k != key && Live(t, k) && !Matches(t, k);
    }
  }

  lemma InvIs(s: State)
    ensures Inv(s) <==> WellFormed(s) && Good(s)
  {
  }

  /** Exactly the allowed steps keep the invariant. */
  lemma StepKeepsInvIff(s: State, ev: Event)
    requires Inv(s)
    ensures Inv(Step(s, ev)) <==> Allowed(s, ev)
  {
    hide Step, Inv, Allowed, WellFormed, Good;
    InvIs(s);
    InvIs(Step(s, ev));
    StepKeepsWellFormed(s, ev);
    match ev
    case Edit(id, shape) => EditKeepsGoodIff(s, id, shape);
    case Enter(listed) => EnterKeepsGoodIff(s, listed);
    case Persist(k) => PersistKeepsGoodIff(s, k);
    case AnswerOk(k) => AnswerOkKeepsGood(s, k); OthersAllowed(s, ev);
    case BeginSave => SaveKeepsGood(s); OthersAllowed(s, ev);
    case Load(k) => LoadKeepsGood(s, k); OthersAllowed(s, ev);
    case _ => OtherKeepsGood(s, ev); OthersAllowed(s, ev);
  }

  lemma OthersAllowed(s: State, ev: Event)
    requires !ev.Edit? && !ev.Enter? && !ev.Persist?
    ensures Allowed(s, ev)
  {
  }

  // ----- Every run

  lemma RunSnoc(s: State, evs: seq<Event>)
    requires evs != []
    ensures Run(s, evs) == Step(Run(s, evs[..|evs| - 1]), evs[|evs| - 1])
    decreases |evs|
  {
    hide Step;
    if |evs| > 1 {
      RunSnoc(Step(s, evs[0]), evs[1..]);
      assert evs[..|evs| - 1][1..] == evs[1..][..|evs| - 2];
    }
  }

  lemma RunNone(s: State)
    ensures Run(s, []) == s
  {
  }

  /** Each event is allowed in the state that the events before it lead to. */
  ghost predicate AllAllowed(s: State, evs: seq<Event>) {
    forall i :: 0 <= i < |evs| ==> Allowed(Run(s, evs[..i]), evs[i])
  }

  lemma AllowedPrefix(s: State, evs: seq<Event>, n: nat)
    requires AllAllowed(s, evs) && n <= |evs|
    ensures AllAllowed(s, evs[..n])
  {
    hide Run, Allowed;
    forall i | 0 <= i < n ensures Allowed(Run(s, evs[..n][..i]), evs[..n][i]) {
      assert evs[..n][..i] == evs[..i];
    }
  }

  lemma {:induction false} RunKeepsInv(s: State, evs: seq<Event>)
    requires Inv(s) && AllAllowed(s, evs)
    ensures Inv(Run(s, evs))
    decreases |evs|
  {
    hide Step, Inv, Allowed, Run;
    if evs == [] {
      RunNone(s);
    } else {
      var n := |evs| - 1;
      AllowedPrefix(s, evs, n);
      RunKeepsInv(s, evs[..n]);
      RunSnoc(s, evs);
      StepKeepsInvIff(Run(s, evs[..n]), evs[n]);
    }
  }

  /** The request writes back the very table that the server has: nothing was written since it read. */
  predicate UpToDate(s: State, k: Key) { IsLoaded(s, k) ==> s.requests[k].phase.table == s.server }

  /** No vertex of a region is moved while a PUT of it waits, the edit mode is not entered while any
      PUT waits, and the server writes no table that another request has changed since it was read. */
  predicate QuietStep(s: State, ev: Event) {
    match ev
    case Edit(id, _) => !InFlight(s, id)
    case Enter(_) => forall k :: k in s.requests ==> !k.PutKey?
    case Persist(k) => UpToDate(s, k)
    case _ => true
  }

  ghost predicate Quiet(s: State, evs: seq<Event>) {
    forall i :: 0 <= i < |evs| ==> QuietStep(Run(s, evs[..i]), evs[i])
  }

  lemma QuietIsAllowed(s: State, ev: Event)
    requires QuietStep(s, ev) && Agreement(s)
    ensures Allowed(s, ev)
  {
  }

  lemma InitialInv(regions: Table)
    ensures Inv(Initial(regions))
  {
  }

  lemma {:induction false} QuietRunsKeepInv(s: State, evs: seq<Event>)
    requires Inv(s) && Quiet(s, evs)
    ensures Inv(Run(s, evs)) && AllAllowed(s, evs)
    decreases |evs|
  {
    hide Run, Step, WellFormed, PutsMatch, Allowed, QuietStep;
    if evs == [] {
      RunNone(s);
    } else {
      var n := |evs| - 1;
      var front := evs[..n];
      forall i | 0 <= i < n ensures QuietStep(Run(s, front[..i]), front[i]) { assert front[..i] == evs[..i]; }
      QuietRunsKeepInv(s, front);
      QuietIsAllowed(Run(s, front), evs[n]);
      StepKeepsInvIff(Run(s, front), evs[n]);
      RunSnoc(s, evs);
      forall i | 0 <= i < |evs| ensures Allowed(Run(s, evs[..i]), evs[i]) {
        if i < n { assert front[..i] == evs[..i] && front[i] == evs[i]; }
      }
    }
  }

  /** In every quiet run, whatever is discarded, saved again, renamed, created or deleted meanwhile,
      whatever PUTs fail and in whatever order they return, a clean polygon's displayed, saved and
      server shapes agree. */
  lemma QuietRunsAgree(regions: Table, evs: seq<Event>)
    requires Quiet(Initial(regions), evs)
    ensures Agreement(Run(Initial(regions), evs))
  {
    InitialInv(regions);
    QuietRunsKeepInv(Initial(regions), evs);
  }

  /** A request that is not interrupted is up to date: only a write changes the table. */
  lemma {:induction false} UninterruptedIsUpToDate(s: State, k: Key, evs: seq<Event>)
    requires UpToDate(s, k) && forall i :: 0 <= i < |evs| ==> !evs[i].Persist?
    ensures UpToDate(Run(s, evs), k)
    decreases |evs|
  {
    hide Step, UpToDate;
    if evs != [] {
      StaysUpToDate(s, k, evs[0]);
      UninterruptedIsUpToDate(Step(s, evs[0]), k, evs[1..]);
    }
  }

  lemma StaysUpToDate(s: State, k: Key, ev: Event)
    requires UpToDate(s, k) && !ev.Persist?
    ensures UpToDate(Step(s, ev), k)
  {
    hide Step, UpToDate;
    if ev.Load? { LoadsUpToDate(s, k, ev.key); } else { OthersReadNothing(s, k, ev); }
  }

  lemma LoadsUpToDate(s: State, k: Key, key: Key)
    requires UpToDate(s, k)
    ensures UpToDate(Step(s, Load(key)), k)
  {
    hide Step;
    StepLoad(s, key);
  }

  lemma OthersReadNothing(s: State, k: Key, ev: Event)
    requires UpToDate(s, k) && !ev.Persist? && !ev.Load?
    ensures UpToDate(Step(s, ev), k)
  {
    assert Step(s, ev).server == s.server;
    assert IsLoaded(Step(s, ev), k) ==> IsLoaded(s, k) && Step(s, ev).requests[k] == s.requests[k];
  }
}
