/**
 * The SYNOP side of the fetcher: reports of one station collapsed to its most
 * recent one, and decoded reports turned into observations with the station
 * history's name, country and position.
 *
 * The download of the bulletins is not modelled; the reports arrive as a
 * parameter. The station lookup goes to an index fetched beforehand, and the
 * conversion of a report time to ISO 8601 text is a parameter.
 */
module FetcherSynop {
  import opened Wrappers
  import opened Seqs
  import opened Types
  import opened SynopDecoder
  import opened SynopMetadata

  // ---------------------------------------------------------------------
  // deduplicateSynopObservations
  // ---------------------------------------------------------------------

  /** The `byStation` map of `deduplicateSynopObservations` with its insertion
      order: a JavaScript `Map` keeps a key where it was first set. */
  datatype Dedup = Dedup(byStation: map<string, SynopObservation>, order: seq<string>)

  /** The keys are the ordered ones, each once. */
  ghost predicate Coherent(d: Dedup) {
    && (forall i, j :: 0 <= i < j < |d.order| ==> d.order[i] != d.order[j])
    && (forall id :: id in d.byStation <==> id in d.order)
  }

  /** One pass of the loop: a report replaces the one kept for its station
      when there is none yet or when it is strictly more recent. */
  function DedupStep(d: Dedup, obs: SynopObservation): Dedup {
    var id := obs.stationId;
    if id !in d.byStation then Dedup(d.byStation[id := obs], d.order + [id])
    else if obs.timestamp > d.byStation[id].timestamp then Dedup(d.byStation[id := obs], d.order)
    else d
  }

  /** The map after the loop has seen `observations`. */
  function DedupOf(observations: seq<SynopObservation>): (d: Dedup)
    ensures Coherent(d)
  {
    if observations == [] then Dedup(map[], [])
    else DedupStep(DedupOf(observations[..|observations| - 1]), observations[|observations| - 1])
  }

  /** `Array.from(byStation.values())`. */
  function Values(d: Dedup): (values: seq<SynopObservation>)
    requires Coherent(d)
    ensures |values| == |d.order|
  {
    seq(|d.order|, i requires 0 <= i < |d.order| => d.byStation[d.order[i]])
  }

  /** `deduplicateSynopObservations(observations)`. */
  function Deduplicated(observations: seq<SynopObservation>): seq<SynopObservation> {
    Values(DedupOf(observations))
  }

  /** The body of the loop over the reports: insert a report for a new
      station at the end of the key order, or replace the kept report when
      this one is strictly more recent. */
  method Keep(byStation: map<string, SynopObservation>, keys: seq<string>, obs: SynopObservation)
    returns (byStation': map<string, SynopObservation>, keys': seq<string>)
    ensures Dedup(byStation', keys') == DedupStep(Dedup(byStation, keys), obs)
  {
    byStation', keys' := byStation, keys;
    if obs.stationId !in byStation {
      byStation' := byStation[obs.stationId := obs];
      keys' := keys + [obs.stationId];
    } else if obs.timestamp > byStation[obs.stationId].timestamp {
      byStation' := byStation[obs.stationId := obs];
    }
  }

  /** The loop of `deduplicateSynopObservations` that fills `byStation`. */
  method IndexByStation(observations: seq<SynopObservation>)
    returns (byStation: map<string, SynopObservation>, keys: seq<string>)
    ensures Dedup(byStation, keys) == DedupOf(observations)
  {
    byStation, keys := map[], [];
    var i := 0;
    while i < |observations|
      invariant 0 <= i <= |observations|
      invariant DedupOf(observations[..i]) == Dedup(byStation, keys)
    {
      assert observations[..i + 1][..i] == observations[..i];
      byStation, keys := Keep(byStation, keys, observations[i]);
      i := i + 1;
    }
    assert observations[..i] == observations;
  }

  /** `Array.from(byStation.values())`: the kept reports in key order. */
  method ValuesInOrder(byStation: map<string, SynopObservation>, keys: seq<string>)
    returns (result: seq<SynopObservation>)
    requires Coherent(Dedup(byStation, keys))
    ensures result == Values(Dedup(byStation, keys))
  {
    result := [];
    var k := 0;
    while k < |keys|
      invariant 0 <= k <= |keys|
      invariant result == Values(Dedup(byStation, keys))[..k]
    {
      result := result + [byStation[keys[k]]];
      k := k + 1;
    }
  }

  /** `deduplicateSynopObservations`: index the reports by station, then list
      the kept ones in the order their stations first appeared. */
  method DeduplicateSynopObservations(observations: seq<SynopObservation>) returns (result: seq<SynopObservation>)
    ensures result == Deduplicated(observations)
  {
    var byStation, keys := IndexByStation(observations);
    result := ValuesInOrder(byStation, keys);
  }

  /** The station ids of `observations`, each once, in order of first appearance. */
  function FirstIds(observations: seq<SynopObservation>): (ids: seq<string>)
    ensures forall i, j :: 0 <= i < j < |ids| ==> ids[i] != ids[j]
    ensures forall id :: id in ids <==> exists i :: 0 <= i < |observations| && observations[i].stationId == id
  {
    if observations == [] then []
    else
      var prefix := observations[..|observations| - 1];
      var last := observations[|observations| - 1];
      var ids := FirstIds(prefix);
      assert forall i :: 0 <= i < |prefix| ==> prefix[i] == observations[i];
      if last.stationId in ids then ids else ids + [last.stationId]
  }

  /** `r` is the record kept for `id`: a report of that station whose time
      no other report of it exceeds, and the earliest such report, since the
      loop replaces only on a strictly later time. */
  predicate MostRecent(observations: seq<SynopObservation>, id: string, r: SynopObservation) {
    && r.stationId == id
    && (forall j :: 0 <= j < |observations| && observations[j].stationId == id ==>
          observations[j].timestamp <= r.timestamp)
    && exists i :: 0 <= i < |observations| && observations[i] == r
         && forall j :: 0 <= j < i && observations[j].stationId == id ==> observations[j].timestamp < r.timestamp
  }

  /** The loop's keys are the station ids in order of first appearance. */
  lemma {:induction false} DedupOrder(observations: seq<SynopObservation>)
    ensures DedupOf(observations).order == FirstIds(observations)
  {
    if observations != [] {
      DedupOrder(observations[..|observations| - 1]);
    }
  }

  /** A later report that is not strictly more recent leaves the kept one kept. */
  lemma MostRecentKept(prefix: seq<SynopObservation>, o: SynopObservation, id: string, r: SynopObservation)
    requires MostRecent(prefix, id, r)
    requires o.stationId != id || o.timestamp <= r.timestamp
    ensures MostRecent(prefix + [o], id, r)
  {
    var all := prefix + [o];
    var i :| 0 <= i < |prefix| && prefix[i] == r
      && forall j :: 0 <= j < i && prefix[j].stationId == id ==> prefix[j].timestamp < r.timestamp;
    assert all[i] == r;
    assert forall j :: 0 <= j < |prefix| ==> all[j] == prefix[j];
  }

  /** A report of a station not seen before, or strictly more recent than
      the one kept, becomes the one kept. */
  lemma MostRecentReplaced(prefix: seq<SynopObservation>, o: SynopObservation, kept: Option<SynopObservation>)
    requires kept.None? ==> forall j :: 0 <= j < |prefix| ==> prefix[j].stationId != o.stationId
    requires kept.Some? ==> MostRecent(prefix, o.stationId, kept.value) && o.timestamp > kept.value.timestamp
    ensures MostRecent(prefix + [o], o.stationId, o)
  {
    var all := prefix + [o];
    assert all[|prefix|] == o;
    assert forall j :: 0 <= j < |prefix| ==> all[j] == prefix[j];
  }

  /** Each station's entry in the loop's map is its most recent report. */
  lemma {:induction false} DedupMostRecent(observations: seq<SynopObservation>)
    ensures forall id :: id in DedupOf(observations).byStation ==>
      MostRecent(observations, id, DedupOf(observations).byStation[id])
  {
    if observations != [] {
      var n := |observations| - 1;
      var prefix := observations[..n];
      var o := observations[n];
      assert observations == prefix + [o];
      DedupMostRecent(prefix);
      DedupOrder(prefix);
      var before := DedupOf(prefix);
      var after := DedupOf(observations);
      forall id | id in after.byStation
        ensures MostRecent(observations, id, after.byStation[id])
      {
        if id == o.stationId && id !in before.byStation {
          MostRecentReplaced(prefix, o, None);
        } else if id == o.stationId && o.timestamp > before.byStation[id].timestamp {
          MostRecentReplaced(prefix, o, Some(before.byStation[id]));
        } else {
          MostRecentKept(prefix, o, id, before.byStation[id]);
        }
      }
    }
  }

  /** The result holds one record per station of the input, in order of
      first appearance, and each is that station's most recent report. */
  lemma DeduplicatedMeaning(observations: seq<SynopObservation>)
    ensures var result := Deduplicated(observations);
      && |result| == |FirstIds(observations)|
      && forall k :: 0 <= k < |result| ==>
           result[k].stationId == FirstIds(observations)[k]
           && MostRecent(observations, result[k].stationId, result[k])
  {
    DedupOrder(observations);
    DedupMostRecent(observations);
  }

  /** Reports of distinct stations, in order. */
  predicate DistinctIds(observations: seq<SynopObservation>) {
    forall i, j :: 0 <= i < j < |observations| ==> observations[i].stationId != observations[j].stationId
  }

  /** The result has at most one record per station and is never longer than
      the input. */
  lemma DeduplicatedDistinct(observations: seq<SynopObservation>)
    ensures DistinctIds(Deduplicated(observations))
    ensures |Deduplicated(observations)| <= |observations|
  {
    DeduplicatedMeaning(observations);
    FirstIdsShorter(observations);
  }

  lemma {:induction false} FirstIdsShorter(observations: seq<SynopObservation>)
    ensures |FirstIds(observations)| <= |observations|
  {
    if observations != [] {
      FirstIdsShorter(observations[..|observations| - 1]);
    }
  }

  /** On reports of distinct stations the loop keeps every report, in order. */
  lemma {:induction false} DedupOfDistinct(observations: seq<SynopObservation>)
    requires DistinctIds(observations)
    ensures |DedupOf(observations).order| == |observations|
    ensures forall k :: 0 <= k < |observations| ==>
      DedupOf(observations).order[k] == observations[k].stationId
      && DedupOf(observations).byStation[observations[k].stationId] == observations[k]
  {
    if observations != [] {
      var n := |observations| - 1;
      var prefix, last := observations[..n], observations[n];
      assert forall j :: 0 <= j < n ==> prefix[j] == observations[j];
      assert DistinctIds(prefix);
      DedupOfDistinct(prefix);
      var d := DedupOf(prefix);
      assert last.stationId !in d.order;
      assert DedupOf(observations) == Dedup(d.byStation[last.stationId := last], d.order + [last.stationId]);
      forall k | 0 <= k < |observations|
        ensures DedupOf(observations).order[k] == observations[k].stationId
        ensures DedupOf(observations).byStation[observations[k].stationId] == observations[k]
      {
        if k < n {
          assert prefix[k] == observations[k];
          assert observations[k].stationId != last.stationId;
        }
      }
    }
  }

  /** Deduplicating twice is deduplicating once. */
  lemma DeduplicatedIdempotent(observations: seq<SynopObservation>)
    ensures Deduplicated(Deduplicated(observations)) == Deduplicated(observations)
  {
    var once := Deduplicated(observations);
    DeduplicatedDistinct(observations);
    DedupOfDistinct(once);
  }

  // ---------------------------------------------------------------------
  // enrichObservations
  // ---------------------------------------------------------------------

  /** `metadata?.name || \`Station ${id}\``. */
  function NameOrDefault(id: string, metadata: Option<StationMetadata>): (name: string)
    ensures name != []
    ensures metadata.Some? && metadata.value.name != [] ==> name == metadata.value.name
    ensures !(metadata.Some? && metadata.value.name != []) ==> name == "Station " + id
  {
    if metadata.Some? && metadata.value.name != [] then metadata.value.name else "Station " + id
  }

  /** `metadata?.country || 'Unknown'`. */
  function CountryOrDefault(metadata: Option<StationMetadata>): (country: string)
    ensures country != []
    ensures metadata.Some? && metadata.value.country != [] ==> country == metadata.value.country
    ensures !(metadata.Some? && metadata.value.country != []) ==> country == "Unknown"
  {
    if metadata.Some? && metadata.value.country != [] then metadata.value.country else "Unknown"
  }

  /** The observation made of a report with a temperature and the station
      found for it, if any; `iso` writes a time as ISO 8601 text. A missing
      position is 0 (a coordinate of 0 is falsy and gives 0 as well). */
  function Enriched(synop: SynopObservation, metadata: Option<StationMetadata>, iso: int -> string): (o: Observation)
    requires synop.temperature.Some?
    ensures o.stationId == synop.stationId && o.source == SYNOP && IsStation(o)
    ensures o.tempC == synop.temperature.value as real / 10.0
    ensures o.observationTime == iso(synop.timestamp)
    ensures o.latitude == if metadata.Some? then metadata.value.lat.ToReal() else 0.0
    ensures o.longitude == if metadata.Some? then metadata.value.lon.ToReal() else 0.0
    ensures o.name == Some(NameOrDefault(synop.stationId, metadata))
    ensures o.country == Some(CountryOrDefault(metadata))
  {
    Observation(
      synop.stationId,
      if metadata.Some? then metadata.value.lat.ToReal() else 0.0,
      if metadata.Some? then metadata.value.lon.ToReal() else 0.0,
      synop.temperature.value as real / 10.0,
      iso(synop.timestamp),
      Some(NameOrDefault(synop.stationId, metadata)),
      Some(CountryOrDefault(metadata)),
      SYNOP)
  }

  /** One pass of the loop of `enrichObservations`: a report without a
      temperature is skipped, any other is looked up and converted. */
  function EnrichOne(synop: SynopObservation, db: map<string, StationMetadata>, iso: int -> string): Option<Observation> {
    if synop.temperature.None? then None
    else Some(Enriched(synop, Lookup(db, synop.stationId), iso))
  }

  /** `enrichObservations(synopObs)` against the index `db`. */
  function EnrichAll(synopObs: seq<SynopObservation>, db: map<string, StationMetadata>, iso: int -> string): seq<Observation> {
    Present(MapSeq(synop => EnrichOne(synop, db, iso), synopObs))
  }

  /** `enrichObservations`: the loop that appends to `enriched`. */
  method EnrichObservations(synopObs: seq<SynopObservation>, db: map<string, StationMetadata>, iso: int -> string)
    returns (enriched: seq<Observation>)
    ensures enriched == EnrichAll(synopObs, db, iso)
  {
    enriched := [];
    var i := 0;
    while i < |synopObs|
      invariant 0 <= i <= |synopObs|
      invariant enriched == EnrichAll(synopObs[..i], db, iso)
    {
      PresentMapSnoc(synop => EnrichOne(synop, db, iso), synopObs, i);
      enriched := EnrichInto(enriched, synopObs[i], db, iso);
      i := i + 1;
    }
    assert synopObs[..i] == synopObs;
  }

  /** One pass of the enrichment loop: a report without a temperature is
      skipped, any other is looked up and appended. */
  method EnrichInto(enriched: seq<Observation>, synop: SynopObservation, db: map<string, StationMetadata>, iso: int -> string)
    returns (extended: seq<Observation>)
    ensures extended == enriched + Kept(EnrichOne(synop, db, iso))
  {
    if synop.temperature.None? {
      return enriched;
    }
    var metadata := Lookup(db, synop.stationId);
    var obs := Enriched(synop, metadata, iso);
    extended := enriched + [obs];
  }

  /** The reports that carry a temperature, in order. */
  function WithTemperature(synopObs: seq<SynopObservation>): (kept: seq<SynopObservation>)
    ensures |kept| <= |synopObs|
    ensures forall k :: 0 <= k < |kept| ==> kept[k].temperature.Some?
  {
    if synopObs == [] then []
    else
      var rest := WithTemperature(synopObs[..|synopObs| - 1]);
      var last := synopObs[|synopObs| - 1];
      if last.temperature.Some? then rest + [last] else rest
  }

  /** A report is kept iff it has a temperature. */
  lemma {:induction false} WithTemperatureMembership(synopObs: seq<SynopObservation>)
    ensures forall s :: s in WithTemperature(synopObs) <==> s in synopObs && s.temperature.Some?
  {
    if synopObs != [] {
      var prefix := synopObs[..|synopObs| - 1];
      WithTemperatureMembership(prefix);
      assert synopObs == prefix + [synopObs[|synopObs| - 1]];
    }
  }

  /** The filter keeps input order: it distributes over concatenation. */
  lemma {:induction false} WithTemperatureAppend(a: seq<SynopObservation>, b: seq<SynopObservation>)
    ensures WithTemperature(a + b) == WithTemperature(a) + WithTemperature(b)
    decreases |b|
  {
    if b == [] {
      assert a + b == a;
    } else {
      var b' := b[..|b| - 1];
      assert (a + b)[..|a + b| - 1] == a + b';
      assert (a + b)[|a + b| - 1] == b[|b| - 1];
      WithTemperatureAppend(a, b');
    }
  }

  /** Enrichment drops exactly the reports without a temperature and turns
      each other report, in order, into one observation of the station it
      names, with what the index holds for it. */
  lemma {:induction false} EnrichAllMeaning(synopObs: seq<SynopObservation>, db: map<string, StationMetadata>, iso: int -> string)
    ensures var enriched := EnrichAll(synopObs, db, iso);
      var kept := WithTemperature(synopObs);
      && |enriched| == |kept|
      && forall k :: 0 <= k < |kept| ==>
           enriched[k] == Enriched(kept[k], Lookup(db, kept[k].stationId), iso)
  {
    if synopObs != [] {
      var n := |synopObs| - 1;
      var prefix := synopObs[..n];
      var last := synopObs[n];
      EnrichAllMeaning(prefix, db, iso);
      PresentMapSnoc(synop => EnrichOne(synop, db, iso), synopObs, n);
      assert synopObs[..n + 1] == synopObs;
      var before, kept := EnrichAll(prefix, db, iso), WithTemperature(prefix);
      if last.temperature.Some? {
        var enriched := EnrichAll(synopObs, db, iso);
        assert enriched == before + [Enriched(last, Lookup(db, last.stationId), iso)];
        assert WithTemperature(synopObs) == kept + [last];
        forall k | 0 <= k < |kept| + 1
          ensures enriched[k] == Enriched((kept + [last])[k], Lookup(db, (kept + [last])[k].stationId), iso)
        {
          if k < |kept| {
            assert enriched[k] == before[k];
            assert (kept + [last])[k] == kept[k];
          }
        }
      } else {
        assert EnrichAll(synopObs, db, iso) == before + [] == before;
      }
    }
  }

  /** Keeping some reports, in order, keeps distinct stations distinct. */
  lemma {:induction false} WithTemperatureDistinct(synopObs: seq<SynopObservation>)
    requires DistinctIds(synopObs)
    ensures DistinctIds(WithTemperature(synopObs))
    ensures forall k :: 0 <= k < |WithTemperature(synopObs)| ==> WithTemperature(synopObs)[k] in synopObs
  {
    if synopObs != [] {
      var n := |synopObs| - 1;
      var prefix := synopObs[..n];
      assert forall j :: 0 <= j < n ==> prefix[j] == synopObs[j];
      WithTemperatureDistinct(prefix);
      var rest := WithTemperature(prefix);
      forall k | 0 <= k < |rest|
        ensures rest[k].stationId != synopObs[n].stationId
      {
        var j :| 0 <= j < n && prefix[j] == rest[k];
      }
    }
  }

  // ---------------------------------------------------------------------
  // fetchAllColdRegionSynopEnriched
  // ---------------------------------------------------------------------

  /** The enriched SYNOP pipeline over reports already downloaded: deduplicate,
      then enrich. */
  method FetchAllColdRegionSynopEnriched(synopObs: seq<SynopObservation>, db: map<string, StationMetadata>, iso: int -> string)
    returns (enriched: seq<Observation>)
    ensures enriched == EnrichAll(Deduplicated(synopObs), db, iso)
  {
    var deduplicated := DeduplicateSynopObservations(synopObs);
    enriched := EnrichObservations(deduplicated, db, iso);
  }

  /** Because deduplication comes first, the pipeline gives at most one
      observation per station, every one of them a SYNOP station with a
      name and a country. */
  lemma PipelineDistinct(synopObs: seq<SynopObservation>, db: map<string, StationMetadata>, iso: int -> string)
    ensures var enriched := EnrichAll(Deduplicated(synopObs), db, iso);
      && (forall i, j :: 0 <= i < j < |enriched| ==> enriched[i].stationId != enriched[j].stationId)
      && (forall k :: 0 <= k < |enriched| ==> enriched[k].source == SYNOP && IsStation(enriched[k]))
  {
    var deduplicated := Deduplicated(synopObs);
    DeduplicatedDistinct(synopObs);
    WithTemperatureDistinct(deduplicated);
    EnrichAllMeaning(deduplicated, db, iso);
  }
}
