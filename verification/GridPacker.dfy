/** The first-fit packer of the dashboard canvas: `reflow` in public/js/dashboard.js.

Widgets are placed in list order on a grid of 12 columns and unboundedly many rows.
`Packed` says what a finished layout is, without reference to the search that
produces it; `Reflow` is the search. Widths and heights are arbitrary integers: a
widget without cells is placed at the origin, as the source does. */
module GridPacker {

  const GRID_COLS := 12

  datatype Widget = Widget(
    id: string, kind: string, col: int, row: int, width: int, height: int,
    config: map<string, string>)

  // ----- Cells and slots

  /** Grid cell (r, c) lies in the w × h rectangle whose top left corner is (top, left). */
  predicate InRect(r: int, c: int, top: int, left: int, w: int, h: int) {
    top <= r < top + h && left <= c < left + w
  }

  predicate Covers(w: Widget, r: int, c: int) {
    InRect(r, c, w.row, w.col, w.width, w.height)
  }

  ghost predicate Taken(ws: seq<Widget>, r: int, c: int) {
    exists i :: 0 <= i < |ws| && Covers(ws[i], r, c)
  }

  /** Every cell of the rectangle is inside the 12 columns and free of `ws`. */
  ghost predicate Fits(ws: seq<Widget>, top: int, left: int, w: int, h: int) {
    forall r, c :: InRect(r, c, top, left, w, h) ==> c < GRID_COLS && !Taken(ws, r, c)
  }

  /** The slots the search considers, and the order in which it does. */
  predicate Candidate(r: int, c: int, w: int) {
    0 <= r && 0 <= c <= GRID_COLS - w
  }

  predicate Before(r: int, c: int, r': int, c': int) {
    r < r' || (r == r' && c < c')
  }

  /** `w` sits in the row-major least slot that is free of all of `prev`. */
  ghost predicate FirstFit(prev: seq<Widget>, w: Widget) {
    && w.width <= GRID_COLS
    && Candidate(w.row, w.col, w.width)
    && Fits(prev, w.row, w.col, w.width, w.height)
    && forall r, c :: Candidate(r, c, w.width) && Before(r, c, w.row, w.col) ==> !Fits(prev, r, c, w.width, w.height)
  }

  ghost predicate Packed(ws: seq<Widget>) {
    forall i :: 0 <= i < |ws| ==> FirstFit(ws[..i], ws[i])
  }

  // ----- What reflow may change: the position, and a width beyond the grid

  function Clamped(w: Widget): Widget {
    if w.width > GRID_COLS then w.(width := GRID_COLS) else w
  }

  ghost predicate SameWidget(w: Widget, w': Widget) {
    w' == Clamped(w).(col := w'.col, row := w'.row)
  }

  ghost predicate SameWidgets(ws: seq<Widget>, out: seq<Widget>) {
    |out| == |ws| && forall i :: 0 <= i < |ws| ==> SameWidget(ws[i], out[i])
  }

  /** `out` is a packing of the widget list `ws`. */
  ghost predicate IsPacking(ws: seq<Widget>, out: seq<Widget>) {
    SameWidgets(ws, out) && Packed(out)
  }

  function HeightSum(ws: seq<Widget>): (n: nat) {
    if ws == [] then 0
    else HeightSum(ws[..|ws| - 1]) + if ws[|ws| - 1].height > 0 then ws[|ws| - 1].height else 0
  }

  // ----- Theorems about packed layouts

  /** In a packed layout no widget leaves the 12 columns and no two widgets share a cell. */
  lemma PackedIsDisjoint(ws: seq<Widget>, i: nat, j: nat, r: int, c: int)
    requires Packed(ws) && i < |ws| && j < |ws|
    ensures Covers(ws[i], r, c) ==> 0 <= r && 0 <= c < GRID_COLS
    ensures i != j ==> !(Covers(ws[i], r, c) && Covers(ws[j], r, c))
  {
    var first, last := if i < j then i else j, if i < j then j else i;
    assert FirstFit(ws[..i], ws[i]) && FirstFit(ws[..last], ws[last]);
    if first < last && Covers(ws[first], r, c) {
      assert ws[..last][first] == ws[first];
      assert Taken(ws[..last], r, c);
    }
  }

  lemma {:induction false} HeightSumPrefix(ws: seq<Widget>, i: nat)
    requires i <= |ws|
    ensures HeightSum(ws[..i]) <= HeightSum(ws)
    ensures i < |ws| && ws[i].height > 0 ==> HeightSum(ws[..i]) + ws[i].height <= HeightSum(ws)
  {
    if i == |ws| {
      assert ws[..i] == ws;
    } else {
      var front := ws[..|ws| - 1];
      assert front[..i] == ws[..i];
      HeightSumPrefix(front, i);
    }
  }

  /** Everything placed so far ends above the sum of the heights. */
  lemma PackedBottom(ws: seq<Widget>, r: int, c: int)
    requires Packed(ws) && Taken(ws, r, c)
    ensures r < HeightSum(ws)
  {
    var i :| 0 <= i < |ws| && Covers(ws[i], r, c);
    RowBound(ws, i);
    HeightSumPrefix(ws, i);
  }

  /** No widget is placed below the sum of the heights of the earlier ones. */
  lemma {:induction false} RowBound(ws: seq<Widget>, i: nat)
    requires Packed(ws) && i < |ws|
    ensures 0 <= ws[i].row <= HeightSum(ws[..i])
    decreases i
  {
    var w, prev := ws[i], ws[..i];
    assert FirstFit(prev, w);
    if w.row > HeightSum(prev) {
      PrefixPacked(ws, i);
      var bottom := HeightSum(prev);
      assert Candidate(bottom, 0, w.width) && Before(bottom, 0, w.row, w.col);
      forall r, c | InRect(r, c, bottom, 0, w.width, w.height) ensures c < GRID_COLS && !Taken(prev, r, c) {
        if Taken(prev, r, c) {
          var k :| 0 <= k < |prev| && Covers(prev[k], r, c);
          assert prev[k] == ws[k] && prev[..k] == ws[..k];
          RowBound(ws, k);
          HeightSumPrefix(prev, k);
        }
      }
      assert Fits(prev, bottom, 0, w.width, w.height);
    }
  }

  lemma PrefixPacked(ws: seq<Widget>, n: nat)
    requires Packed(ws) && n <= |ws|
    ensures Packed(ws[..n])
  {
    forall i | 0 <= i < n ensures FirstFit(ws[..n][..i], ws[..n][i]) {
      assert ws[..n][..i] == ws[..i];
    }
  }

  /** First fit is deterministic: equal predecessors and equal shape force an equal slot. */
  lemma FirstFitUnique(prev: seq<Widget>, a: Widget, b: Widget)
    requires FirstFit(prev, a) && FirstFit(prev, b)
    requires a.width == b.width && a.height == b.height
    ensures a.row == b.row && a.col == b.col
  {
    assert !Before(a.row, a.col, b.row, b.col) && !Before(b.row, b.col, a.row, a.col);
  }

  lemma PackingPrefix(ws: seq<Widget>, out: seq<Widget>, n: nat)
    requires IsPacking(ws, out) && n <= |ws|
    ensures IsPacking(ws[..n], out[..n])
  {
    PrefixPacked(out, n);
    forall i | 0 <= i < n ensures SameWidget(ws[..n][i], out[..n][i]) {
      assert SameWidget(ws[i], out[i]);
    }
  }

  lemma {:induction false} PackingUniqueAt(ws: seq<Widget>, a: seq<Widget>, b: seq<Widget>, i: nat)
    requires IsPacking(ws, a) && IsPacking(ws, b) && i < |ws|
    ensures a[i] == b[i]
    decreases i
  {
    hide FirstFit;
    assert a[..i] == b[..i] by {
      forall j | 0 <= j < i ensures a[j] == b[j] { PackingUniqueAt(ws, a, b, j); }
    }
    assert SameWidget(ws[i], a[i]) && SameWidget(ws[i], b[i]);
    FirstFitUnique(a[..i], a[i], b[i]);
  }

  /** A widget list has at most one packing. */
  lemma PackingUnique(ws: seq<Widget>, a: seq<Widget>, b: seq<Widget>)
    requires IsPacking(ws, a) && IsPacking(ws, b)
    ensures a == b
  {
    hide Packed;
    forall i | 0 <= i < |ws| ensures a[i] == b[i] { PackingUniqueAt(ws, a, b, i); }
  }

  /** Placing one more widget: the packing of a longer list extends that of the shorter one. */
  lemma PackingExtends(ws: seq<Widget>, out: seq<Widget>, w: Widget, w': Widget)
    requires IsPacking(ws, out) && SameWidget(w, w') && FirstFit(out, w')
    ensures IsPacking(ws + [w], out + [w'])
  {
    forall i | 0 <= i < |out + [w']| ensures FirstFit((out + [w'])[..i], (out + [w'])[i]) {
      assert (out + [w'])[..i] == out[..i];
      assert out[..|out|] == out;
    }
  }

  /** Every widget list has a packing: the slot below everything is always free. */
  lemma {:induction false} PackingExists(ws: seq<Widget>) returns (out: seq<Widget>)
    ensures IsPacking(ws, out)
  {
    if ws == [] {
      out := [];
    } else {
      var n := |ws| - 1;
      out := PackingExists(ws[..n]);
      var w := Clamped(ws[n]);
      BottomSlotFits(out, w.width, w.height);
      var r, c := LeastSlot(out, w.width, w.height, HeightSum(out));
      PackingExtends(ws[..n], out, ws[n], w.(row := r, col := c));
      assert ws == ws[..n] + [ws[n]];
      out := out + [w.(row := r, col := c)];
    }
  }

  lemma BottomSlotFits(ws: seq<Widget>, w: int, h: int)
    requires Packed(ws) && w <= GRID_COLS
    ensures Fits(ws, HeightSum(ws), 0, w, h)
  {
    forall r, c | InRect(r, c, HeightSum(ws), 0, w, h) ensures !Taken(ws, r, c) {
      if Taken(ws, r, c) { PackedBottom(ws, r, c); }
    }
  }

  /** No candidate slot before (r, c) fits. */
  ghost predicate NoneBefore(ws: seq<Widget>, w: int, h: int, r: int, c: int) {
    forall r', c' :: Candidate(r', c', w) && Before(r', c', r, c) ==> !Fits(ws, r', c', w, h)
  }

  lemma LeastSlot(ws: seq<Widget>, w: int, h: int, bottom: nat) returns (r: int, c: int)
    requires w <= GRID_COLS && Fits(ws, bottom, 0, w, h)
    ensures Candidate(r, c, w) && Fits(ws, r, c, w, h) && NoneBefore(ws, w, h, r, c)
  {
    r, c := 0, 0;
    while !Fits(ws, r, c, w, h)
      invariant Candidate(r, c, w) && r <= bottom && (r == bottom ==> c == 0)
      invariant NoneBefore(ws, w, h, r, c)
      decreases bottom - r, GRID_COLS - w - c
    {
      if c < GRID_COLS - w { c := c + 1; } else { r, c := r + 1, 0; }
    }
  }

  /** The packing, as a function of the widget list. */
  ghost function Pack(ws: seq<Widget>): (out: seq<Widget>)
    ensures IsPacking(ws, out)
  {
    assert exists out :: IsPacking(ws, out) by { var out := PackingExists(ws); }
    var out :| IsPacking(ws, out);
    out
  }

  /** Packing keeps the list in order, and of each widget everything but its position and a width beyond
      the grid, which becomes 12. */
  lemma PackKeeps(ws: seq<Widget>)
    ensures |Pack(ws)| == |ws|
    ensures forall i :: 0 <= i < |ws| ==> Kept(ws[i], Pack(ws)[i])
  {
    forall i | 0 <= i < |ws| ensures Kept(ws[i], Pack(ws)[i]) { assert SameWidget(ws[i], Pack(ws)[i]); }
  }

  predicate Kept(w: Widget, o: Widget) {
    && o.id == w.id && o.kind == w.kind && o.config == w.config && o.height == w.height
    && o.width == if w.width > 12 then 12 else w.width
  }

  /** A packed layout is a fixpoint: packing it again moves nothing. */
  lemma PackFixpoint(ws: seq<Widget>)
    requires Packed(ws)
    ensures Pack(ws) == ws
  {
    forall i | 0 <= i < |ws| ensures SameWidget(ws[i], ws[i]) {
      assert FirstFit(ws[..i], ws[i]);
    }
    PackingUnique(ws, ws, Pack(ws));
  }

  /** Packing depends on shapes and order only, not on where the widgets were before. */
  lemma PackIgnoresPositions(ws: seq<Widget>, vs: seq<Widget>)
    requires SameWidgets(ws, vs)
    ensures Pack(vs) == Pack(ws)
  {
    assert forall i :: 0 <= i < |ws| ==> SameWidget(ws[i], vs[i]) && SameWidget(vs[i], Pack(vs)[i]);
    assert SameWidgets(ws, Pack(vs));
    PackingUnique(ws, Pack(ws), Pack(vs));
  }

  /** Prefix stability: what follows in the list never moves what comes earlier. */
  lemma PackPrefix(ws: seq<Widget>, vs: seq<Widget>)
    ensures Pack(ws + vs)[..|ws|] == Pack(ws)
  {
    var out := Pack(ws + vs);
    PackingPrefix(ws + vs, out, |ws|);
    assert (ws + vs)[..|ws|] == ws;
    PackingUnique(ws, out[..|ws|], Pack(ws));
  }

  // ----- The search itself

  /** The occupancy dictionary holds exactly the cells of the widgets placed so far. */
  ghost predicate Records(occupied: set<(int, int)>, ws: seq<Widget>) {
    forall r, c :: (r, c) in occupied <==> Taken(ws, r, c)
  }

  method IsFree(occupied: set<(int, int)>, top: int, left: int, w: int, h: int) returns (free: bool)
    ensures free <==> forall r, c :: InRect(r, c, top, left, w, h) ==> c < GRID_COLS && (r, c) !in occupied
  {
    var rr := top;
    while rr < top + h
      invariant top <= rr
      invariant forall r, c :: InRect(r, c, top, left, w, h) && r < rr ==> c < GRID_COLS && (r, c) !in occupied
    {
      var cc := left;
      while cc < left + w
        invariant left <= cc
        invariant forall r, c :: InRect(r, c, top, left, w, h) && (r < rr || (r == rr && c < cc)) ==>
          c < GRID_COLS && (r, c) !in occupied
      {
        assert InRect(rr, cc, top, left, w, h);
        if cc >= GRID_COLS || (rr, cc) in occupied { return false; }
        cc := cc + 1;
      }
      rr := rr + 1;
    }
    return true;
  }

  method Mark(occupied: set<(int, int)>, top: int, left: int, w: int, h: int) returns (marked: set<(int, int)>)
    ensures forall r, c :: (r, c) in marked <==> (r, c) in occupied || InRect(r, c, top, left, w, h)
  {
    marked := occupied;
    var rr := top;
    while rr < top + h
      invariant top <= rr
      invariant forall r, c :: (r, c) in marked <==>
        (r, c) in occupied || (InRect(r, c, top, left, w, h) && r < rr)
    {
      var cc := left;
      while cc < left + w
        invariant left <= cc
        invariant forall r, c :: (r, c) in marked <==>
          || (r, c) in occupied
          || (InRect(r, c, top, left, w, h) && (r < rr || (r == rr && c < cc)))
      {
        marked := marked + {(rr, cc)};
        cc := cc + 1;
      }
      rr := rr + 1;
    }
  }

  /** The two nested search loops for one widget. */
  method FindSlot(occupied: set<(int, int)>, ghost placed: seq<Widget>, w: int, h: int) returns (r: int, c: int)
    requires Packed(placed) && Records(occupied, placed) && w <= GRID_COLS
    ensures Candidate(r, c, w) && Fits(placed, r, c, w, h) && NoneBefore(placed, w, h, r, c)
  {
    BottomSlotFits(placed, w, h);
    r := 0;
    while true
      invariant 0 <= r <= HeightSum(placed)
      invariant NoneBefore(placed, w, h, r, 0)
      decreases HeightSum(placed) - r
    {
      c := 0;
      while c <= GRID_COLS - w
        invariant 0 <= c
        invariant NoneBefore(placed, w, h, r, c)
        invariant c > 0 ==> !Fits(placed, r, 0, w, h)
      {
        var free := IsFree(occupied, r, c, w, h);
        assert free <==> Fits(placed, r, c, w, h);
        if free { return; }
        c := c + 1;
      }
      r := r + 1;
    }
  }

  /** `reflow`: for every widget list the search ends, and with the packing of that list. */
  method Reflow(ws: seq<Widget>) returns (out: seq<Widget>)
    ensures IsPacking(ws, out)
    ensures out == Pack(ws)
  {
    out := [];
    var occupied: set<(int, int)> := {};
    for i := 0 to |ws|
      invariant |out| == i
      invariant IsPacking(ws[..i], out)
      invariant Records(occupied, out)
    {
      var w := Clamped(ws[i]);
      var r, c := FindSlot(occupied, out, w.width, w.height);
      var w' := w.(row := r, col := c);
      assert FirstFit(out, w');
      PackingExtends(ws[..i], out, ws[i], w');
      assert ws[..i + 1] == ws[..i] + [ws[i]];
      occupied := Mark(occupied, r, c, w.width, w.height);
      TakenSnoc(out, w');
      out := out + [w'];
    }
    assert ws[..|ws|] == ws;
    PackingUnique(ws, out, Pack(ws));
  }

  lemma TakenSnoc(ws: seq<Widget>, w: Widget)
    ensures forall r, c :: Taken(ws + [w], r, c) <==> Taken(ws, r, c) || Covers(w, r, c)
  {
    forall r, c ensures Taken(ws + [w], r, c) <==> Taken(ws, r, c) || Covers(w, r, c) {
      if Taken(ws, r, c) {
        var i :| 0 <= i < |ws| && Covers(ws[i], r, c);
        assert (ws + [w])[i] == ws[i];
      }
      if Covers(w, r, c) { assert (ws + [w])[|ws|] == w; }
    }
  }
}
