/** The write hooks of `_buildClient` in src/db.ts, over the three tables. */
module AssetStore {
  import opened Wrappers
  import H = IpHistory
  import S = SourceRows
  import C = StatusClamp

  /** A write as the hooks see it: the monitoring fields, `ipAddress` when it is a plain string,
      `ipSource`, and whether a field that matters for derivation is present. */
  datatype Args = Args(data: C.Data, ip: Option<string>, ipSource: Option<string>, touchesSources: bool)

  /** The environment of one write: clock, the uuid for a new history row, whether the history
      statement succeeds, what the derivation yields for the stored row and which of the source
      upserts fail (their errors are swallowed). */
  datatype Env = Env(
    now: int, uuid: string, historyOk: bool, derived: seq<S.Derived>, lastSeen: Option<int>, failing: set<int>)

  class Store {
    var assets: C.Assets
    var history: H.Table
    var sources: S.Table
    ghost var sightings: seq<H.Sighting>
    ghost var writes: seq<S.Write>

    /** The tables are what the statements issued so far make them. */
    ghost predicate Valid() reads this {
      history == H.UpsertAll(sightings) && sources == S.UpsertAll(writes)
    }

    constructor ()
      ensures Valid() && assets == map[] && sightings == [] && writes == []
    {
      assets, history, sources := map[], map[], map[];
      sightings, writes := [], [];
    }

    /** `recordIpHistory` behind its guard: a nonempty address string in the write. */
    method RecordIp(id: string, args: Args, env: Env)
      requires Valid()
      modifies this`history, this`sightings
      ensures Valid()
      ensures sightings == old(sightings) + Sighted(id, args, env)
    {
      if args.ip.Some? && args.ip.value != "" && env.historyOk {
        var src := if args.ipSource.Some? then args.ipSource.value else "manual";
        var s := H.Sighting(id, args.ip.value, src, env.now, env.uuid);
        history := H.Upsert(history, s);
        sightings := sightings + [s];
        assert sightings[..|sightings| - 1] == old(sightings);
      }
    }

    /** `shadowWriteAssetSources`: one upsert per derived source, failures skipped. */
    method ShadowWrite(id: string, env: Env)
      requires Valid()
      modifies this`sources, this`writes
      ensures Valid()
      ensures writes == old(writes) + Issued(id, env, |env.derived|)
    {
      for i := 0 to |env.derived|
        invariant Valid()
        invariant writes == old(writes) + Issued(id, env, i)
      {
        if i !in env.failing {
          var w := S.Write(id, env.derived[i], env.now, if env.lastSeen.Some? then env.lastSeen.value else env.now);
          ghost var before := writes;
          sources := S.Upsert(sources, w);
          writes := writes + [w];
          assert writes[..|writes| - 1] == before;
        }
      }
    }

    /** `asset.create` */
    method Create(id: string, args: Args, env: Env) returns (ok: bool)
      requires Valid()
      modifies this
      ensures Valid() && assets == C.Exec(old(assets), C.Create(id, args.data))
      ensures ok <==> id !in old(assets)
      ensures !ok ==> sightings == old(sightings) && writes == old(writes)
      ensures ok ==> sightings == old(sightings) + Sighted(id, args, env)
      ensures ok ==> writes == old(writes) + Issued(id, env, |env.derived|)
    {
      ok := id !in assets;
      if !ok { return; }
      assets := assets[id := C.Store(C.NEW_ASSET, C.Clamp(args.data))];
      RecordIp(id, args, env);
      ShadowWrite(id, env);
    }

    /** `asset.update`: the source rows are refreshed only if the write could change them. */
    method Update(id: string, args: Args, env: Env) returns (ok: bool)
      requires Valid()
      modifies this
      ensures Valid() && assets == C.Exec(old(assets), C.Update(id, args.data))
      ensures ok <==> id in old(assets)
      ensures !ok ==> sightings == old(sightings) && writes == old(writes)
      ensures ok ==> sightings == old(sightings) + Sighted(id, args, env)
      ensures ok ==> writes == old(writes) + if args.touchesSources then Issued(id, env, |env.derived|) else []
    {
      ok := id in assets;
      if !ok { return; }
      assets := assets[id := C.Store(assets[id], C.Clamp(args.data))];
      RecordIp(id, args, env);
      if args.touchesSources { ShadowWrite(id, env); }
    }

    /** `asset.updateMany`: neither history nor source rows are written. */
    method UpdateMany(ids: set<string>, args: Args)
      requires Valid()
      modifies this`assets
      ensures Valid() && assets == C.Exec(old(assets), C.UpdateMany(ids, args.data))
    {
      assets := map id | id in assets :: if id in ids then C.Store(assets[id], C.Clamp(args.data)) else assets[id];
    }

    /** `asset.upsert`: both branches are clamped, no IP history is recorded. */
    method Upsert(id: string, create: Args, update: Args, env: Env)
      requires Valid()
      modifies this`assets, this`sources, this`writes
      ensures Valid() && assets == C.Exec(old(assets), C.UpsertOp(id, create.data, update.data))
      ensures writes == old(writes) +
        if create.touchesSources || update.touchesSources then Issued(id, env, |env.derived|) else []
    {
      if id in assets {
        assets := assets[id := C.Store(assets[id], C.Clamp(update.data))];
      } else {
        assets := assets[id := C.Store(C.NEW_ASSET, C.Clamp(create.data))];
      }
      if create.touchesSources || update.touchesSources { ShadowWrite(id, env); }
    }
  }

  /** What a sighting does to the history: a write with a nonempty address, whose statement succeeds, leaves
      the row of that asset and address with its source, "manual" if it names none, seen last now; any other
      write leaves the history alone. */
  lemma SightingIsRecorded(ss: seq<H.Sighting>, id: string, args: Args, env: Env)
    ensures
      var before, after := H.UpsertAll(ss), H.UpsertAll(ss + Sighted(id, args, env));
      if args.ip.Some? && |args.ip.value| > 0 && env.historyOk then
        && (id, args.ip.value) in after
        && after[(id, args.ip.value)].lastSeen == env.now
        && after[(id, args.ip.value)].source == (if args.ipSource.None? then "manual" else args.ipSource.value)
        && (forall k :: k != (id, args.ip.value) ==> (k in after <==> k in before))
        && (forall k :: k != (id, args.ip.value) && k in before ==> after[k] == before[k])
      else after == before
  {
    var added := Sighted(id, args, env);
    if added != [] { assert (ss + added)[..|ss|] == ss && |ss + added| == |ss| + 1; } else { assert ss + added == ss; }
  }

  /** Which source upserts go through: those of the derived sources that do not fail, in order, for this
      asset, stamped now and with the asset's own last sighting or else now. */
  lemma IssuedMeans(id: string, env: Env, n: nat, w: S.Write)
    requires n <= |env.derived|
    ensures w in Issued(id, env, n) <==>
      exists i :: 0 <= i < n && i !in env.failing && env.derived[i] == w.d
        && w.assetId == id && w.now == env.now
        && w.seen == (if env.lastSeen.None? then env.now else env.lastSeen.value)
    ensures |Issued(id, env, n)| <= n
    decreases n
  {
    if n > 0 {
      IssuedMeans(id, env, n - 1, w);
      var seen := if env.lastSeen.Some? then env.lastSeen.value else env.now;
      var last := S.Write(id, env.derived[n - 1], env.now, seen);
      if n - 1 !in env.failing && w == last { assert env.derived[n - 1] == w.d; }
    }
  }

  /** The sighting that a create or an update records: none without a nonempty address. */
  ghost function Sighted(id: string, args: Args, env: Env): seq<H.Sighting> {
    if args.ip.None? || args.ip.value == "" || !env.historyOk then []
    else
      var source := if args.ipSource.Some? then args.ipSource.value else "manual";
      [H.Sighting(id, args.ip.value, source, env.now, env.uuid)]
  }

  /** The source upserts that went through, for the first n derived sources. */
  ghost function Issued(id: string, env: Env, n: nat): seq<S.Write>
    requires n <= |env.derived|
  {
    if n == 0 then []
    else if n - 1 in env.failing then Issued(id, env, n - 1)
    else
      var seen := if env.lastSeen.Some? then env.lastSeen.value else env.now;
      Issued(id, env, n - 1) + [S.Write(id, env.derived[n - 1], env.now, seen)]
  }
}
