/** The status clamp: `clampMonitoredForStatus` in src/db.ts and the hooks that call it. */
module StatusClamp {
  import opened Wrappers

  /** The forms of a field in a write: not there, there but undefined (which Prisma skips), a
      plain value, or `{ set: value }`. */
  datatype Field<T> = Absent | Undefined | Plain(value: T) | SetTo(value: T)

  datatype Counter = Keep | Put(n: int) | Increment(n: int)

  datatype Data = Data(status: Field<string>, monitored: Option<bool>, failures: Counter)

  datatype Asset = Asset(status: string, monitored: bool, failures: int)

  type Assets = map<string, Asset>

  predicate Terminal(status: string) { status == "decommissioned" || status == "disabled" }

  predicate SetsStatus(d: Data) { d.status.Plain? || d.status.SetTo? }

  function Clamp(d: Data): Data {
    if SetsStatus(d) && Terminal(d.status.value) then d.(monitored := Some(false), failures := Put(0)) else d
  }

  /** What the database does with a write. */
  function Store(a: Asset, d: Data): Asset {
    Asset(
      if SetsStatus(d) then d.status.value else a.status,
      if d.monitored.Some? then d.monitored.value else a.monitored,
      match d.failures case Keep => a.failures case Put(n) => n case Increment(n) => a.failures + n)
  }

  /** The column defaults of a new asset. */
  const NEW_ASSET := Asset("active", false, 0)

  datatype Op =
    | Create(id: string, data: Data)
    | Update(id: string, data: Data)
    | UpdateMany(ids: set<string>, data: Data)
    | UpsertOp(id: string, create: Data, update: Data)

  /** A hooked write. A create of an existing id and an update of a missing one fail. */
  function Exec(assets: Assets, op: Op): Assets {
    match op
    case Create(id, d) => if id in assets then assets else assets[id := Store(NEW_ASSET, Clamp(d))]
    case Update(id, d) => if id in assets then assets[id := Store(assets[id], Clamp(d))] else assets
    case UpdateMany(ids, d) =>
      map id | id in assets :: if id in ids then Store(assets[id], Clamp(d)) else assets[id]
    case UpsertOp(id, c, u) =>
      if id in assets then assets[id := Store(assets[id], Clamp(u))] else assets[id := Store(NEW_ASSET, Clamp(c))]
  }

  function Run(assets: Assets, ops: seq<Op>): Assets
    decreases |ops|
  {
    if ops == [] then assets else Run(Exec(assets, ops[0]), ops[1..])
  }

  predicate Quiet(a: Asset) { Terminal(a.status) ==> !a.monitored && a.failures == 0 }

  predicate Inv(assets: Assets) { forall id :: id in assets ==> Quiet(assets[id]) }

  /** The write touches the monitoring fields only together with the status. */
  predicate Disciplined(d: Data) { (d.monitored.Some? || !d.failures.Keep?) ==> SetsStatus(d) }

  predicate DisciplinedOp(op: Op) {
    match op
    case Create(_, d) => true
    case Update(_, d) => Disciplined(d)
    case UpdateMany(_, d) => Disciplined(d)
    case UpsertOp(_, c, u) => Disciplined(u)
  }

  /** One write to a quiet asset leaves it quiet if and only if it sets the status, or the
      asset is not terminal, or the write neither starts monitoring nor leaves a failure count. */
  lemma WriteKeepsQuietIff(a: Asset, d: Data)
    requires Quiet(a)
    ensures Quiet(Store(a, Clamp(d))) <==>
      || SetsStatus(d)
      || !Terminal(a.status)
      || (d.monitored != Some(true) && (d.failures.Keep? || d.failures.n == 0))
  {
  }

  /** A terminal status wins even when the same write asks for monitoring, in either form. */
  lemma TerminalStatusWins(a: Asset, d: Data)
    requires SetsStatus(d) && Terminal(d.status.value)
    ensures !Store(a, Clamp(d)).monitored && Store(a, Clamp(d)).failures == 0
  {
  }

  /** What a hooked write leaves in the row, field by field: the status it sets; with a terminal one no
      monitoring and no failures; otherwise the monitoring it asked for and the failures it counted. A field
      that is not there, or undefined, stays. */
  lemma WriteMeans(a: Asset, d: Data)
    ensures
      var b := Store(a, Clamp(d));
      var terminal := SetsStatus(d) && (d.status.value == "decommissioned" || d.status.value == "disabled");
      && b.status == (if d.status.Plain? || d.status.SetTo? then d.status.value else a.status)
      && (terminal ==> !b.monitored && b.failures == 0)
      && (!terminal && d.monitored.Some? ==> b.monitored == d.monitored.value)
      && (!terminal && d.monitored.None? ==> b.monitored == a.monitored)
      && (!terminal && d.failures.Keep? ==> b.failures == a.failures)
      && (!terminal && d.failures.Put? ==> b.failures == d.failures.n)
      && (!terminal && d.failures.Increment? ==> b.failures == a.failures + d.failures.n)
  {
  }

  /** Which rows a hooked write touches: a create only a new one, from the column defaults; an update only an
      existing one; an upsert the one or the other; an update of many exactly those it names. */
  lemma OpMeans(assets: Assets, op: Op, id: string)
    ensures
      var after := Exec(assets, op);
      match op
      case Create(x, d) =>
        if id == x && x !in assets then id in after && after[id] == Store(Asset("active", false, 0), Clamp(d))
        else Same(assets, after, id)
      case Update(x, d) =>
        if id == x && x in assets then id in after && after[id] == Store(assets[id], Clamp(d))
        else Same(assets, after, id)
      case UpdateMany(ids, d) =>
        if id in ids && id in assets then id in after && after[id] == Store(assets[id], Clamp(d))
        else Same(assets, after, id)
      case UpsertOp(x, c, u) =>
        if id != x then Same(assets, after, id)
        else if x in assets then id in after && after[id] == Store(assets[id], Clamp(u))
        else id in after && after[id] == Store(Asset("active", false, 0), Clamp(c))
  {
  }

  predicate Same(assets: Assets, after: Assets, id: string) {
    (id in after <==> id in assets) && (id in assets ==> after[id] == assets[id])
  }

  /** In every run of hooked writes, of which no update touches the monitoring fields without
      the status, decommissioned and disabled assets stay unmonitored with no failures. */
  lemma {:induction false} RunKeepsTerminalQuiet(assets: Assets, ops: seq<Op>)
    requires Inv(assets) && forall i :: 0 <= i < |ops| ==> DisciplinedOp(ops[i])
    ensures Inv(Run(assets, ops))
    decreases |ops|
  {
    if ops != [] {
      assert DisciplinedOp(ops[0]);
      RunKeepsTerminalQuiet(Exec(assets, ops[0]), ops[1..]);
    }
  }

  /** The discipline is needed: a write that sets only `monitored` revives a disabled asset. */
  lemma UndisciplinedWriteBreaks()
    ensures
      var a := Asset("disabled", false, 0);
      Quiet(a) && !Quiet(Store(a, Clamp(Data(Absent, Some(true), Keep))))
  {
  }
}
