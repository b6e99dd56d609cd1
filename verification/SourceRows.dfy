/** Source rows: `shadowWriteAssetSources` in src/db.ts. */
module SourceRows {
  import opened Wrappers

  type Key = (string, string)

  datatype Derived = Derived(
    kind: string, externalId: string, integrationId: Option<string>, inferred: bool, observed: string)

  datatype Row = Row(
    assetId: string, integrationId: Option<string>, inferred: bool, observed: string,
    syncedAt: int, firstSeen: int, lastSeen: int)

  /** One upsert: the derived source, the asset it came from, and the clock. */
  datatype Write = Write(assetId: string, d: Derived, now: int, seen: int)

  type Table = map<Key, Row>

  function KeyOf(w: Write): Key { (w.d.kind, w.d.externalId) }

  predicate Truthy(s: Option<string>) { s.Some? && s.value != "" }

  function Upsert(t: Table, w: Write): Table {
    var k := KeyOf(w);
    if k !in t then
      t[k := Row(w.assetId, w.d.integrationId, w.d.inferred, w.d.observed, w.now, w.seen, w.seen)]
    else
      t[k := t[k].(
        assetId := w.assetId, syncedAt := w.now, lastSeen := w.seen,
        inferred := if !w.d.inferred then false else t[k].inferred,
        integrationId := if Truthy(w.d.integrationId) then w.d.integrationId else t[k].integrationId)]
  }

  function UpsertAll(ws: seq<Write>): Table {
    if ws == [] then map[] else Upsert(UpsertAll(ws[..|ws| - 1]), ws[|ws| - 1])
  }

  function Of(ws: seq<Write>, k: Key): seq<Write> {
    if ws == [] then []
    else Of(ws[..|ws| - 1], k) + if KeyOf(ws[|ws| - 1]) == k then [ws[|ws| - 1]] else []
  }

  /** k is the last write that named an integration, or the first write of all. */
  predicate NamesIntegration(es: seq<Write>, k: int) {
    && 0 <= k < |es|
    && (k > 0 ==> Truthy(es[k].d.integrationId))
    && forall j :: k < j < |es| ==> !Truthy(es[j].d.integrationId)
  }

  /** The row that summarises the writes `es`, field by field. */
  ghost predicate Summarises(row: Row, es: seq<Write>) {
    && es != []
    && row.observed == es[0].d.observed
    && row.firstSeen == es[0].seen
    && row.assetId == es[|es| - 1].assetId
    && row.syncedAt == es[|es| - 1].now
    && row.lastSeen == es[|es| - 1].seen
    && (row.inferred <==> forall i :: 0 <= i < |es| ==> es[i].d.inferred)
    && exists k :: NamesIntegration(es, k) && row.integrationId == es[k].d.integrationId
  }

  lemma SummaryStep(t: Table, es: seq<Write>, w: Write)
    requires KeyOf(w) in t && Summarises(t[KeyOf(w)], es)
    ensures Summarises(Upsert(t, w)[KeyOf(w)], es + [w])
  {
    var row, es' := t[KeyOf(w)], es + [w];
    var row' := Upsert(t, w)[KeyOf(w)];
    var k :| NamesIntegration(es, k) && row.integrationId == es[k].d.integrationId;
    if Truthy(w.d.integrationId) {
      assert NamesIntegration(es', |es|);
    } else {
      assert NamesIntegration(es', k);
    }
    assert row'.inferred <==> forall i :: 0 <= i < |es'| ==> es'[i].d.inferred by {
      assert es'[|es|] == w;
      assert forall i :: 0 <= i < |es| ==> es'[i] == es[i];
    }
  }

  /** Whatever the derivation yields, each source row keeps the observed blob and firstSeen of
      its creation, is inferred only while every write was, and carries the latest asset and
      the last integration named. */
  lemma {:induction false} SourcesSummarise(ws: seq<Write>, k: Key)
    ensures k in UpsertAll(ws) <==> Of(ws, k) != []
    ensures k in UpsertAll(ws) ==> Summarises(UpsertAll(ws)[k], Of(ws, k))
  {
    if ws != [] {
      hide Summarises;
      var n := |ws| - 1;
      var before := Of(ws[..n], k);
      SourcesSummarise(ws[..n], k);
      if KeyOf(ws[n]) != k {
        assert Of(ws, k) == before;
      } else if before == [] {
        FirstWrite(UpsertAll(ws[..n]), ws[n]);
        assert Of(ws, k) == [ws[n]];
      } else {
        SummaryStep(UpsertAll(ws[..n]), before, ws[n]);
      }
    }
  }

  lemma FirstWrite(t: Table, w: Write)
    requires KeyOf(w) !in t
    ensures Summarises(Upsert(t, w)[KeyOf(w)], [w])
  {
    assert NamesIntegration([w], 0);
    assert [w][0] == w;
  }
}
