/** IP sightings: `recordIpHistory` in src/db.ts. One SQL statement is one step. */
module IpHistory {

  type Key = (string, string)

  /** A recorded sighting; `uuid` is the id generated for the row it might create. */
  datatype Sighting = Sighting(asset: string, ip: string, source: string, time: int, uuid: string)

  datatype Row = Row(uuid: string, source: string, firstSeen: int, lastSeen: int)

  type Table = map<Key, Row>

  function KeyOf(s: Sighting): Key { (s.asset, s.ip) }

  /** INSERT ... ON CONFLICT (assetId, ip) DO UPDATE */
  function Upsert(t: Table, s: Sighting): Table {
    var k := KeyOf(s);
    if k !in t then t[k := Row(s.uuid, s.source, s.time, s.time)]
    else
      var first := if t[k].source != s.source then s.time else t[k].firstSeen;
      t[k := t[k].(lastSeen := s.time, source := s.source, firstSeen := first)]
  }

  function UpsertAll(ss: seq<Sighting>): Table {
    if ss == [] then map[] else Upsert(UpsertAll(ss[..|ss| - 1]), ss[|ss| - 1])
  }

  /** The sightings of one asset at one address, in order. */
  function Of(ss: seq<Sighting>, k: Key): (r: seq<Sighting>)
    ensures forall i :: 0 <= i < |r| ==> KeyOf(r[i]) == k && r[i] in ss
  {
    if ss == [] then []
    else Of(ss[..|ss| - 1], k) + if KeyOf(ss[|ss| - 1]) == k then [ss[|ss| - 1]] else []
  }

  /** j starts the maximal suffix of sightings that share the last one's source. */
  predicate StartsLastStretch(es: seq<Sighting>, j: int) {
    && 0 <= j < |es|
    && (forall i :: j <= i < |es| ==> es[i].source == es[|es| - 1].source)
    && (j > 0 ==> es[j - 1].source != es[|es| - 1].source)
  }

  /** The row that summarises the sightings `es`. */
  ghost predicate Summarises(row: Row, es: seq<Sighting>) {
    && es != []
    && row.uuid == es[0].uuid
    && row.source == es[|es| - 1].source
    && row.lastSeen == es[|es| - 1].time
    && exists j :: StartsLastStretch(es, j) && row.firstSeen == es[j].time
  }

  lemma FirstSighting(t: Table, s: Sighting)
    requires KeyOf(s) !in t
    ensures Summarises(Upsert(t, s)[KeyOf(s)], [s])
  {
    assert StartsLastStretch([s], 0);
  }

  lemma SummaryStep(t: Table, es: seq<Sighting>, s: Sighting)
    requires KeyOf(s) in t && Summarises(t[KeyOf(s)], es)
    ensures Summarises(Upsert(t, s)[KeyOf(s)], es + [s])
  {
    var row := t[KeyOf(s)];
    var j :| StartsLastStretch(es, j) && row.firstSeen == es[j].time;
    var es' := es + [s];
    if row.source != s.source {
      assert StartsLastStretch(es', |es|);
    } else {
      assert StartsLastStretch(es', j);
    }
  }

  /** After any sequence of sightings there is one row per (asset, ip) sighted: its source and
      lastSeen are those of the latest sighting, its firstSeen that of the start of the current
      source's unbroken stretch. */
  lemma {:induction false} HistorySummarises(ss: seq<Sighting>, k: Key)
    ensures k in UpsertAll(ss) <==> Of(ss, k) != []
    ensures k in UpsertAll(ss) ==> Summarises(UpsertAll(ss)[k], Of(ss, k))
  {
    if ss != [] {
      hide Summarises;
      var n := |ss| - 1;
      var before := Of(ss[..n], k);
      HistorySummarises(ss[..n], k);
      if KeyOf(ss[n]) != k {
        assert Of(ss, k) == before;
      } else if before == [] {
        FirstSighting(UpsertAll(ss[..n]), ss[n]);
        assert Of(ss, k) == [ss[n]];
      } else {
        SummaryStep(UpsertAll(ss[..n]), before, ss[n]);
      }
    }
  }

  predicate Chronological(ss: seq<Sighting>) {
    forall i, j :: 0 <= i < j < |ss| ==> ss[i].time <= ss[j].time
  }

  lemma {:induction false} OfChronological(ss: seq<Sighting>, k: Key)
    requires Chronological(ss)
    ensures Chronological(Of(ss, k))
  {
    if ss != [] {
      var n := |ss| - 1;
      OfChronological(ss[..n], k);
      forall i | 0 <= i < |Of(ss[..n], k)| ensures Of(ss[..n], k)[i].time <= ss[n].time {
        assert Of(ss[..n], k)[i] in ss[..n];
      }
    }
  }

  /** With times that do not go back, no row is first seen after it was last seen. */
  lemma FirstNotAfterLast(ss: seq<Sighting>, k: Key)
    requires Chronological(ss) && k in UpsertAll(ss)
    ensures UpsertAll(ss)[k].firstSeen <= UpsertAll(ss)[k].lastSeen
  {
    HistorySummarises(ss, k);
    OfChronological(ss, k);
  }
}
