/** The dashboard layout and its debounced save: public/js/dashboard.js.

`State` and `Apply` are the layout as a state machine; class `Dashboard` is the
source's `state` object, each of whose methods is one `Apply` step. `sent` records
the bodies of the PUT requests in the order in which `saveNow` issued them. */
module DashboardLayout {
  import opened GridPacker
  import opened Wrappers

  datatype State = State(widgets: seq<Widget>, timer: bool, sent: seq<seq<Widget>>)

  datatype Step =
    | Add(instance: Widget, at: Option<int>)
    | Remove(id: string)
    | Move(id: string, to: int)
    | Resize(id: string, width: int, height: int)
    | Config(id: string, key: string, value: string)
    | TimerFires

  // ----- List surgery

  /** JavaScript's `splice(start, 0, x)`, whose negative starts count from the end. */
  function SpliceIndex(start: int, len: nat): (i: nat)
    ensures i <= len
  {
    if start < 0 then (if len + start < 0 then 0 else len + start)
    else if start > len then len else start
  }

  function Insert(ws: seq<Widget>, start: int, w: Widget): seq<Widget> {
    var i := SpliceIndex(start, |ws|);
    ws[..i] + [w] + ws[i..]
  }

  function FindIndex(ws: seq<Widget>, id: string): (i: int)
    ensures -1 <= i < |ws|
    ensures i >= 0 ==> ws[i].id == id
    ensures forall j :: 0 <= j < (if i >= 0 then i else |ws|) ==> ws[j].id != id
  {
    if ws == [] then -1
    else if ws[0].id == id then 0
    else
      var k := FindIndex(ws[1..], id);
      if k < 0 then -1 else k + 1
  }

  function Without(ws: seq<Widget>, id: string): seq<Widget> {
    if ws == [] then []
    else if ws[0].id == id then Without(ws[1..], id)
    else [ws[0]] + Without(ws[1..], id)
  }

  function AddAt(ws: seq<Widget>, w: Widget, at: Option<int>): seq<Widget> {
    Insert(ws, if at.None? || at.value < 0 then |ws| else at.value, w)
  }

  function Moved(ws: seq<Widget>, id: string, to: int): seq<Widget> {
    var from := FindIndex(ws, id);
    if from == -1 then ws
    else
      var at := if from < to then (if to - 1 > 0 then to - 1 else 0) else to;
      Insert(ws[..from] + ws[from + 1..], at, ws[from])
  }

  // ----- The state machine

  ghost function Repacked(s: State, ws: seq<Widget>): State {
    s.(widgets := Pack(ws), timer := true)
  }

  ghost function Apply(s: State, step: Step): State {
    var ws := s.widgets;
    match step
    case Add(w, at) => Repacked(s, AddAt(ws, w, at))
    case Remove(id) => Repacked(s, Without(ws, id))
    case Move(id, to) => Repacked(s, Moved(ws, id, to))
    case Resize(id, w, h) =>
      var i := FindIndex(ws, id);
      if i == -1 || (ws[i].width == w && ws[i].height == h) then s
      else Repacked(s, ws[i := ws[i].(width := w, height := h)])
    case Config(id, key, value) =>
      var i := FindIndex(ws, id);
      if i == -1 then s
      else s.(widgets := ws[i := ws[i].(config := ws[i].config[key := value])], timer := true)
    case TimerFires => if s.timer then s.(timer := false, sent := s.sent + [ws]) else s
  }

  ghost function Run(s: State, steps: seq<Step>): State
    decreases |steps|
  {
    if steps == [] then s else Run(Apply(s, steps[0]), steps[1..])
  }

  ghost function Bootstrap(loaded: Option<seq<Widget>>): State {
    State(if loaded.Some? then Pack(loaded.value) else [], false, [])
  }

  /** The layout is packed, and unless a save is pending the layout is the one last
      sent, or nothing has been sent and it still is the one loaded. */
  ghost predicate Inv(loaded: seq<Widget>, s: State) {
    && Packed(s.widgets)
    && (s.timer || s.widgets == if s.sent == [] then loaded else s.sent[|s.sent| - 1])
  }

  // ----- Every run

  /** Packedness depends on the rectangles only. */
  lemma PackedByRectangles(ws: seq<Widget>, vs: seq<Widget>)
    requires Packed(ws) && |ws| == |vs|
    requires forall i :: 0 <= i < |ws| ==>
      && vs[i].row == ws[i].row && vs[i].col == ws[i].col
      && vs[i].width == ws[i].width && vs[i].height == ws[i].height
    ensures Packed(vs)
  {
    forall i | 0 <= i < |ws| ensures FirstFit(vs[..i], vs[i]) {
      assert FirstFit(ws[..i], ws[i]);
      forall r, c ensures Taken(ws[..i], r, c) == Taken(vs[..i], r, c) {
        forall k | 0 <= k < i ensures Covers(ws[..i][k], r, c) == Covers(vs[..i][k], r, c) {}
      }
      forall r, c
        ensures Fits(ws[..i], r, c, ws[i].width, ws[i].height) == Fits(vs[..i], r, c, vs[i].width, vs[i].height) {}
    }
  }

  lemma StepKeepsInv(loaded: seq<Widget>, s: State, step: Step)
    requires Inv(loaded, s)
    ensures Inv(loaded, Apply(s, step))
  {
    if step.Config? {
      var i := FindIndex(s.widgets, step.id);
      if i >= 0 { PackedByRectangles(s.widgets, Apply(s, step).widgets); }
    }
  }

  /** After bootstrap every run keeps the layout packed, and whenever no save is
      pending the server was last sent exactly the current layout (or never anything,
      with the layout still as loaded). */
  lemma {:induction false} RunKeepsInv(loaded: seq<Widget>, s: State, steps: seq<Step>)
    requires Inv(loaded, s)
    ensures Inv(loaded, Run(s, steps))
    decreases |steps|
  {
    if steps != [] {
      StepKeepsInv(loaded, s, steps[0]);
      RunKeepsInv(loaded, Apply(s, steps[0]), steps[1..]);
    }
  }

  lemma EveryRunIsPackedAndSaved(loaded: Option<seq<Widget>>, steps: seq<Step>)
    ensures Inv(Bootstrap(loaded).widgets, Run(Bootstrap(loaded), steps))
  {
    RunKeepsInv(Bootstrap(loaded).widgets, Bootstrap(loaded), steps);
  }

  /** Letting the timer fire after any run leaves the server with the current layout. */
  lemma QuiescentRunIsSaved(loaded: Option<seq<Widget>>, steps: seq<Step>)
    ensures
      var s := Run(Bootstrap(loaded), steps);
      var q := Apply(s, TimerFires);
      q.widgets == s.widgets && (q.sent == [] || q.sent[|q.sent| - 1] == q.widgets)
  {
    EveryRunIsPackedAndSaved(loaded, steps);
  }

  // ----- Single steps

  /** Appending a widget (tap-to-add) moves no existing widget. */
  lemma AppendMovesNothing(s: State, w: Widget)
    requires Packed(s.widgets)
    ensures Apply(s, Add(w, None)).widgets[..|s.widgets|] == s.widgets
    ensures Apply(s, Add(w, Some(|s.widgets|))) == Apply(s, Add(w, None))
  {
    assert AddAt(s.widgets, w, None) == s.widgets + [w];
    PackPrefix(s.widgets, [w]);
    PackFixpoint(s.widgets);
  }

  /** Inserting at index k moves none of the first k widgets. */
  lemma InsertKeepsEarlier(s: State, w: Widget, k: nat)
    requires Packed(s.widgets) && k <= |s.widgets|
    ensures Apply(s, Add(w, Some(k))).widgets[..k] == s.widgets[..k]
  {
    assert AddAt(s.widgets, w, Some(k)) == s.widgets[..k] + ([w] + s.widgets[k..]);
    PackPrefix(s.widgets[..k], [w] + s.widgets[k..]);
    PrefixPacked(s.widgets, k);
    PackFixpoint(s.widgets[..k]);
  }

  lemma MultisetInsert(ws: seq<Widget>, k: nat, w: Widget)
    requires k <= |ws|
    ensures multiset(ws[..k] + [w] + ws[k..]) == multiset(ws) + multiset{w}
  {
    assert ws == ws[..k] + ws[k..];
  }

  /** Moving takes one widget out and puts it back: the others keep their order. */
  lemma MoveKeepsOthers(ws: seq<Widget>, id: string, to: int) returns (k: nat)
    requires FindIndex(ws, id) >= 0
    ensures
      var from := FindIndex(ws, id);
      var rest := ws[..from] + ws[from + 1..];
      k <= |rest| && Moved(ws, id, to) == rest[..k] + [ws[from]] + rest[k..]
    ensures multiset(Moved(ws, id, to)) == multiset(ws)
    ensures FindIndex(ws, id) < to <= |ws| ==> k == to - 1
    ensures 0 <= to <= FindIndex(ws, id) ==> k == to
  {
    hide FindIndex, Moved;
    k := LandingIndex(ws, id, to);
    MultisetMoved(ws, FindIndex(ws, id), k, Moved(ws, id, to));
  }

  lemma LandingIndex(ws: seq<Widget>, id: string, to: int) returns (k: nat)
    requires FindIndex(ws, id) >= 0
    ensures
      var from := FindIndex(ws, id);
      var rest := ws[..from] + ws[from + 1..];
      k <= |rest| && Moved(ws, id, to) == rest[..k] + [ws[from]] + rest[k..]
    ensures FindIndex(ws, id) < to <= |ws| ==> k == to - 1
    ensures 0 <= to <= FindIndex(ws, id) ==> k == to
  {
    hide FindIndex;
    var from := FindIndex(ws, id);
    var at := if from < to then (if to - 1 > 0 then to - 1 else 0) else to;
    k := SpliceIndex(at, |ws| - 1);
  }

  lemma MultisetMoved(ws: seq<Widget>, from: nat, k: nat, moved: seq<Widget>)
    requires from < |ws| && k < |ws|
    requires
      var rest := ws[..from] + ws[from + 1..];
      moved == rest[..k] + [ws[from]] + rest[k..]
    ensures multiset(moved) == multiset(ws)
  {
    var rest := ws[..from] + ws[from + 1..];
    assert ws == rest[..from] + [ws[from]] + rest[from..];
    MultisetInsert(rest, k, ws[from]);
    MultisetInsert(rest, from, ws[from]);
  }

  /** Dropping a widget at its own index or the next one changes nothing. */
  lemma MoveInPlace(s: State, id: string, to: int)
    requires Packed(s.widgets)
    requires FindIndex(s.widgets, id) >= 0
    requires to == FindIndex(s.widgets, id) || to == FindIndex(s.widgets, id) + 1
    ensures Apply(s, Move(id, to)).widgets == s.widgets
  {
    hide Packed, FindIndex, Moved, Pack;
    var ws, from := s.widgets, FindIndex(s.widgets, id);
    var rest := ws[..from] + ws[from + 1..];
    var k := MoveKeepsOthers(ws, id, to);
    assert Moved(ws, id, to) == ws by {
      assert rest[..k] == ws[..k] && rest[k..] == ws[k + 1..];
    }
    PackFixpoint(ws);
  }

  lemma {:induction false} WithoutAbsent(ws: seq<Widget>, id: string)
    requires forall i :: 0 <= i < |ws| ==> ws[i].id != id
    ensures Without(ws, id) == ws
  {
    if ws != [] {
      WithoutAbsent(ws[1..], id);
      assert ws == [ws[0]] + ws[1..];
    }
  }

  /** Removing by id takes out exactly the one widget that carries it. */
  lemma {:induction false} WithoutOne(ws: seq<Widget>, k: nat)
    requires k < |ws|
    requires forall i :: 0 <= i < |ws| && i != k ==> ws[i].id != ws[k].id
    ensures Without(ws, ws[k].id) == ws[..k] + ws[k + 1..]
    decreases k
  {
    if k == 0 {
      WithoutAbsent(ws[1..], ws[0].id);
    } else {
      WithoutOne(ws[1..], k - 1);
      var rest := ws[1..];
      assert ws[..k] == [ws[0]] + rest[..k - 1] && ws[k + 1..] == rest[k..];
      assert [ws[0]] + (rest[..k - 1] + rest[k..]) == [ws[0]] + rest[..k - 1] + rest[k..];
    }
  }

  /** Adding a widget anywhere and removing it again restores every position. */
  lemma AddThenRemove(s: State, w: Widget, at: Option<int>)
    requires Packed(s.widgets)
    requires forall i :: 0 <= i < |s.widgets| ==> s.widgets[i].id != w.id
    ensures Apply(Apply(s, Add(w, at)), Remove(w.id)).widgets == s.widgets
  {
    var ws := s.widgets;
    var k := SpliceIndex(if at.None? || at.value < 0 then |ws| else at.value, |ws|);
    var ins := ws[..k] + [w] + ws[k..];
    var out := Pack(ins);
    hide Packed, Without, Pack;
    InsertedAndRemoved(ws, w, k, out);
    PackIgnoresPositions(ws, Without(out, w.id));
    PackFixpoint(ws);
  }

  /** Taking the inserted widget out again leaves the others, wherever they have been put. */
  lemma InsertedAndRemoved(ws: seq<Widget>, w: Widget, k: nat, out: seq<Widget>)
    requires k <= |ws| && SameWidgets(ws[..k] + [w] + ws[k..], out)
    requires forall i :: 0 <= i < |ws| ==> ws[i].id != w.id
    ensures SameWidgets(ws, Without(out, w.id))
  {
    hide Without;
    var ins := ws[..k] + [w] + ws[k..];
    var rest := out[..k] + out[k + 1..];
    forall i | 0 <= i < |ins| ensures SameWidget(ins[i], out[i]) && (out[i].id == w.id <==> i == k) {
      assert ins[i] == if i < k then ws[i] else if i == k then w else ws[i - 1];
    }
    WithoutOne(out, k);
    forall i | 0 <= i < |ws| ensures SameWidget(ws[i], rest[i]) {
      var j := if i < k then i else i + 1;
      assert ins[j] == ws[i] && rest[i] == out[j];
    }
  }

  lemma FindIndexSameIds(ws: seq<Widget>, vs: seq<Widget>, id: string)
    requires |ws| == |vs| && forall i :: 0 <= i < |ws| ==> ws[i].id == vs[i].id
    ensures FindIndex(ws, id) == FindIndex(vs, id)
  {
  }

  /** Resizing a widget and resizing it back restores every position. */
  lemma ResizeThenBack(s: State, id: string, width: int, height: int)
    requires Packed(s.widgets) && FindIndex(s.widgets, id) >= 0
    ensures
      var w := s.widgets[FindIndex(s.widgets, id)];
      Apply(Apply(s, Resize(id, width, height)), Resize(id, w.width, w.height)).widgets == s.widgets
  {
    var ws := s.widgets;
    var i := FindIndex(ws, id);
    var w := ws[i];
    assert FirstFit(ws[..i], w);
    PackFixpoint(ws);
    if w.width == width && w.height == height { return; }
    var edited := ws[i := w.(width := width, height := height)];
    var out := Pack(edited);
    forall j | 0 <= j < |ws| ensures SameWidget(edited[j], out[j]) && out[j].id == ws[j].id {
      assert SameWidget(edited[j], out[j]);
    }
    FindIndexSameIds(ws, out, id);
    var back := out[i := out[i].(width := w.width, height := w.height)];
    forall j | 0 <= j < |ws| ensures SameWidget(ws[j], back[j]) {
      assert FirstFit(ws[..j], ws[j]);
    }
    PackIgnoresPositions(ws, back);
    if out[i].width == w.width && out[i].height == w.height {
      assert back == out;
      PackFixpoint(out);
    }
  }

  // ----- What each step does

  /** Bootstrap shows the loaded widgets in order, and neither queues nor sends anything. */
  lemma BootstrapMeans(loaded: seq<Widget>)
    ensures
      var s := Bootstrap(Some(loaded));
      && Packed(s.widgets) && !s.timer && s.sent == []
      && |s.widgets| == |loaded| && forall i :: 0 <= i < |loaded| ==> Kept(loaded[i], s.widgets[i])
    ensures Bootstrap(None) == State([], false, [])
  {
    PackKeeps(loaded);
  }

  /** Where an added widget lands: at the index asked for, cut to the list, else at the end. */
  function LandsAt(at: Option<int>, n: nat): nat {
    match at
    case None => n
    case Some(k) => if 0 <= k < n then k else n
  }

  /** Adding puts the widget at its index and the others around it in their order, and queues a save. */
  lemma AddMeans(s: State, w: Widget, at: Option<int>)
    ensures
      var t, k, n := Apply(s, Add(w, at)), LandsAt(at, |s.widgets|), |s.widgets|;
      && t.timer && t.sent == s.sent && |t.widgets| == n + 1 && Kept(w, t.widgets[k])
      && (forall i :: 0 <= i < k ==> Kept(s.widgets[i], t.widgets[i]))
      && (forall i :: k <= i < n ==> Kept(s.widgets[i], t.widgets[i + 1]))
  {
    hide Pack;
    var ws, k, n := s.widgets, LandsAt(at, |s.widgets|), |s.widgets|;
    var ins := AddAt(ws, w, at);
    assert ins == ws[..k] + [w] + ws[k..];
    PackKeeps(ins);
    var t := Apply(s, Add(w, at));
    forall i | 0 <= i < k ensures Kept(ws[i], t.widgets[i]) { assert ins[i] == ws[i]; }
    forall i | k <= i < n ensures Kept(ws[i], t.widgets[i + 1]) { assert ins[i + 1] == ws[i]; }
    assert ins[k] == w;
  }

  /** Removing a widget leaves the others in their order, and queues a save. */
  lemma RemoveMeans(s: State, k: nat)
    requires k < |s.widgets| && forall i :: 0 <= i < |s.widgets| && i != k ==> s.widgets[i].id != s.widgets[k].id
    ensures
      var t, n := Apply(s, Remove(s.widgets[k].id)), |s.widgets|;
      && t.timer && t.sent == s.sent && |t.widgets| == n - 1
      && (forall i :: 0 <= i < k ==> Kept(s.widgets[i], t.widgets[i]))
      && (forall i :: k < i < n ==> Kept(s.widgets[i], t.widgets[i - 1]))
  {
    hide Pack, Without;
    var ws, n := s.widgets, |s.widgets|;
    WithoutOne(ws, k);
    var rest := ws[..k] + ws[k + 1..];
    PackKeeps(rest);
    var t := Apply(s, Remove(ws[k].id));
    forall i | 0 <= i < k ensures Kept(ws[i], t.widgets[i]) { assert rest[i] == ws[i]; }
    forall i | k < i < n ensures Kept(ws[i], t.widgets[i - 1]) { assert rest[i - 1] == ws[i]; }
  }

  /** Where the widget at index i goes when the one at `from` is dropped at index `to`, counted before it
      is taken out. */
  function GoesTo(from: int, to: int, i: int): int {
    if i == from then (if from < to then to - 1 else to)
    else if from < i < to then i - 1
    else if to <= i < from then i + 1
    else i
  }

  lemma MovedAt(ws: seq<Widget>, id: string, to: nat, i: nat)
    requires to <= |ws| && FindIndex(ws, id) >= 0 && i < |ws|
    ensures |Moved(ws, id, to)| == |ws| && 0 <= GoesTo(FindIndex(ws, id), to, i) < |ws|
    ensures Moved(ws, id, to)[GoesTo(FindIndex(ws, id), to, i)] == ws[i]
  {
    hide FindIndex, Moved;
    var from := FindIndex(ws, id);
    var k := LandingIndex(ws, id, to);
    var rest := ws[..from] + ws[from + 1..];
    PutBackAt(ws, from, k, i);
  }

  lemma PutBackAt(ws: seq<Widget>, from: nat, k: nat, i: nat)
    requires from < |ws| && k < |ws| && i < |ws|
    ensures
      var rest := ws[..from] + ws[from + 1..];
      var m := rest[..k] + [ws[from]] + rest[k..];
      var r := if i < from then i else i - 1;
      |m| == |ws| && m[if i == from then k else if r < k then r else r + 1] == ws[i]
  {
    var rest := ws[..from] + ws[from + 1..];
    var r := if i < from then i else i - 1;
    if i != from { assert rest[r] == ws[i]; }
  }

  /** Moving puts the widget at its index and the others around it in their order. A save is queued even for
      an unknown id. */
  lemma MoveMeans(s: State, id: string, to: nat, i: nat)
    requires to <= |s.widgets| && i < |s.widgets|
    ensures
      var t, from := Apply(s, Move(id, to)), FindIndex(s.widgets, id);
      && t.timer && t.sent == s.sent && |t.widgets| == |s.widgets|
      && (from < 0 ==> Kept(s.widgets[i], t.widgets[i]))
      && (from >= 0 ==> 0 <= GoesTo(from, to, i) < |s.widgets| && Kept(s.widgets[i], t.widgets[GoesTo(from, to, i)]))
  {
    hide Pack, FindIndex, Kept, Moved, GoesTo;
    if FindIndex(s.widgets, id) >= 0 { MovedAt(s.widgets, id, to, i); } else { MovedUnknown(s.widgets, id, to); }
    PackKeeps(Moved(s.widgets, id, to));
  }

  lemma MovedUnknown(ws: seq<Widget>, id: string, to: int)
    requires FindIndex(ws, id) < 0
    ensures Moved(ws, id, to) == ws
  {
  }

  /** An index out of range stands for one within: one beyond the end for the end, and a negative one counts
      from the end of the other widgets, as far as there are that many. */
  lemma MoveOutOfRange(s: State, id: string, to: int)
    requires FindIndex(s.widgets, id) >= 0
    ensures
      var from, n := FindIndex(s.widgets, id), |s.widgets|;
      && (to > n ==> Apply(s, Move(id, to)) == Apply(s, Move(id, n)))
      && (to < 0 ==>
            var k := if -to < n - 1 then n - 1 + to else 0;
            Apply(s, Move(id, to)) == Apply(s, Move(id, if k <= from then k else k + 1)))
  {
    hide Pack, FindIndex;
  }

  /** Resizing a present widget to another size sets its height and its width, cut to the grid, and nothing
      else of any widget but positions; it queues a save. Any other resize does nothing. */
  lemma ResizeMeans(s: State, id: string, width: int, height: int)
    requires Packed(s.widgets)
    ensures
      var t, n, i := Apply(s, Resize(id, width, height)), |s.widgets|, FindIndex(s.widgets, id);
      if i < 0 || (s.widgets[i].width == width && s.widgets[i].height == height) then t == s
      else
        && t.timer && t.sent == s.sent && |t.widgets| == n
        && Kept(s.widgets[i].(width := width, height := height), t.widgets[i])
        && t.widgets[i].height == height && t.widgets[i].width == (if width > 12 then 12 else width)
        && (forall j :: 0 <= j < n && j != i ==>
              Kept(s.widgets[j], t.widgets[j]) && t.widgets[j].width == s.widgets[j].width)
  {
    hide Pack, FindIndex;
    var ws, i := s.widgets, FindIndex(s.widgets, id);
    if !(i < 0 || (ws[i].width == width && ws[i].height == height)) {
      var edited := ws[i := ws[i].(width := width, height := height)];
      PackKeeps(edited);
      forall j | 0 <= j < |ws| ensures ws[j].width <= 12 { assert FirstFit(ws[..j], ws[j]); }
      forall j | 0 <= j < |ws| && j != i ensures Kept(ws[j], Pack(edited)[j]) { assert edited[j] == ws[j]; }
    }
  }

  /** A config step sets one key of one widget, moves nothing and queues a save. */
  lemma ConfigMeans(s: State, id: string, key: string, value: string)
    ensures
      var t, n, i := Apply(s, Config(id, key, value)), |s.widgets|, FindIndex(s.widgets, id);
      if i < 0 then t == s
      else
        && t.timer && t.sent == s.sent && |t.widgets| == n
        && (forall j :: 0 <= j < n && j != i ==> t.widgets[j] == s.widgets[j])
        && t.widgets[i] == s.widgets[i].(config := t.widgets[i].config)
        && key in t.widgets[i].config && t.widgets[i].config[key] == value
        && (forall k :: k != key ==> (k in t.widgets[i].config <==> k in s.widgets[i].config))
        && (forall k :: k != key && k in s.widgets[i].config ==> t.widgets[i].config[k] == s.widgets[i].config[k])
  {
  }

  /** The timer sends the layout once. */
  lemma TimerMeans(s: State)
    ensures
      var t := Apply(s, TimerFires);
      && t.widgets == s.widgets && !t.timer
      && |t.sent| == |s.sent| + (if s.timer then 1 else 0) && s.sent <= t.sent
      && (s.timer ==> t.sent[|s.sent|] == s.widgets)
  {
  }

  // ----- Drop position

  predicate StartsAfter(w: Widget, row: int, col: int) {
    w.row > row || (w.row == row && w.col > col)
  }

  /** The first index whose widget starts after the cell, or the end of the list. */
  predicate IsInsertIndex(ws: seq<Widget>, row: int, col: int, idx: int) {
    && 0 <= idx <= |ws|
    && (forall j :: 0 <= j < idx ==> !StartsAfter(ws[j], row, col))
    && (idx < |ws| ==> StartsAfter(ws[idx], row, col))
  }

  predicate UniqueIds(ws: seq<Widget>) {
    forall i, j :: 0 <= i < j < |ws| ==> ws[i].id != ws[j].id
  }

  /** Dropping a widget on its own top left cell leaves the list alone exactly when
      the widgets before it start no later and the next one starts later; a widget that
      was packed into an earlier hole is reordered by such a drop. */
  lemma DropOnOwnCell(s: State, i: nat, idx: int)
    requires Packed(s.widgets) && UniqueIds(s.widgets) && i < |s.widgets|
    requires IsInsertIndex(s.widgets, s.widgets[i].row, s.widgets[i].col, idx)
    ensures
      var ws := s.widgets;
      var row, col := ws[i].row, ws[i].col;
      (Apply(s, Move(ws[i].id, idx)).widgets == ws) <==>
        && (forall j :: 0 <= j < i ==> !StartsAfter(ws[j], row, col))
        && (i + 1 < |ws| ==> StartsAfter(ws[i + 1], row, col))
  {
    var ws := s.widgets;
    var id := ws[i].id;
    assert FindIndex(ws, id) == i;
    if idx == i + 1 {
      MoveInPlace(s, id, idx);
    } else {
      var k := MoveKeepsOthers(ws, id, idx);
      assert k != i;
      var out := Pack(Moved(ws, id, idx));
      assert SameWidget(Moved(ws, id, idx)[k], out[k]);
      assert out[k].id == id;
      assert ws[k].id != id;
    }
  }

  // ----- The page's state object

  class Dashboard {
    var widgets: seq<Widget>
    var saveTimer: bool
    var sent: seq<seq<Widget>>

    ghost function Model(): State reads this {
      State(widgets, saveTimer, sent)
    }

    constructor (loaded: Option<seq<Widget>>)
      ensures Model() == Bootstrap(loaded)
    {
      var out := [];
      if loaded.Some? { out := Reflow(loaded.value); }
      widgets, saveTimer, sent := out, false, [];
    }

    method ReflowAndQueue(ws: seq<Widget>)
      modifies this
      ensures Model() == Repacked(old(Model()), ws)
    {
      widgets := Reflow(ws);
      saveTimer := true;
    }

    method AddWidget(instance: Option<Widget>, at: Option<int>)
      modifies this
      ensures Model() == if instance.Some? then Apply(old(Model()), Add(instance.value, at)) else old(Model())
    {
      if instance.Some? { ReflowAndQueue(AddAt(widgets, instance.value, at)); }
    }

    method RemoveWidget(id: string)
      modifies this
      ensures Model() == Apply(old(Model()), Remove(id))
    {
      ReflowAndQueue(Without(widgets, id));
    }

    method MoveWidget(id: string, to: int)
      modifies this
      ensures Model() == Apply(old(Model()), Move(id, to))
    {
      ReflowAndQueue(Moved(widgets, id, to));
    }

    method ResizeWidget(id: string, width: int, height: int)
      modifies this
      ensures Model() == Apply(old(Model()), Resize(id, width, height))
    {
      var i := FindIndex(widgets, id);
      if i == -1 || (widgets[i].width == width && widgets[i].height == height) { return; }
      ReflowAndQueue(widgets[i := widgets[i].(width := width, height := height)]);
    }

    method UpdateConfig(id: string, key: string, value: string)
      modifies this
      ensures Model() == Apply(old(Model()), Config(id, key, value))
    {
      var i := FindIndex(widgets, id);
      if i == -1 { return; }
      widgets := widgets[i := widgets[i].(config := widgets[i].config[key := value])];
      saveTimer := true;
    }

    /** `saveNow`, run when the 800 ms timer expires. */
    method SaveNow()
      requires saveTimer
      modifies this
      ensures Model() == Apply(old(Model()), TimerFires)
    {
      saveTimer := false;
      sent := sent + [widgets];
    }

    /** `insertIndexFromCursor`, given the grid cell under the cursor. */
    method InsertIndexFromCursor(row: nat, col: nat) returns (idx: int)
      ensures IsInsertIndex(widgets, row, col, idx)
    {
      idx := 0;
      while idx < |widgets|
        invariant 0 <= idx <= |widgets|
        invariant forall j :: 0 <= j < idx ==> !StartsAfter(widgets[j], row, col)
      {
        if StartsAfter(widgets[idx], row, col) { return; }
        idx := idx + 1;
      }
    }
  }
}
