/**
 * The coldest-place ranker `findColdestPlaces`: a stable ascending sort of a
 * copy of the observations by temperature, the five coldest enriched with a
 * name and a country, and a count of observations per source.
 */
module Finder {
  import opened Wrappers
  import opened Seqs
  import opened Types
  import opened Metadata

  // ---------------------------------------------------------------------
  // The stable sort by temperature
  // ---------------------------------------------------------------------

  /** Non-decreasing in `tempC`. */
  predicate SortedByTemp(s: seq<Observation>) {
    forall i, j :: 0 <= i < j < |s| ==> s[i].tempC <= s[j].tempC
  }

  /** `x` placed after every element of `s` at most as cold as it. */
  function Insert(x: Observation, s: seq<Observation>): (r: seq<Observation>)
    ensures |r| == |s| + 1
  {
    if s == [] then [x]
    else if x.tempC < s[0].tempC then [x] + s
    else [s[0]] + Insert(x, s[1..])
  }

  /** `[...observations].sort((a, b) => a.tempC - b.tempC)`: the ECMAScript
      sort is stable, so this is the stable ascending sort, written as an
      insertion of each observation in turn. */
  function SortByTemp(observations: seq<Observation>): (sorted: seq<Observation>)
    ensures |sorted| == |observations|
  {
    if observations == [] then []
    else
      var n := |observations| - 1;
      Insert(observations[n], SortByTemp(observations[..n]))
  }

  lemma {:induction false} InsertPermutes(x: Observation, s: seq<Observation>)
    ensures multiset(Insert(x, s)) == multiset(s) + multiset{x}
  {
    if s != [] && x.tempC >= s[0].tempC {
      InsertPermutes(x, s[1..]);
      assert s == [s[0]] + s[1..];
    }
  }

  /** The sort is a permutation of its input. */
  lemma {:induction false} SortByTempPermutes(observations: seq<Observation>)
    ensures multiset(SortByTemp(observations)) == multiset(observations)
  {
    if observations != [] {
      var n := |observations| - 1;
      var init, last := observations[..n], observations[n];
      calc {
        multiset(SortByTemp(observations));
        multiset(Insert(last, SortByTemp(init)));
        { InsertPermutes(last, SortByTemp(init)); }
        multiset(SortByTemp(init)) + multiset{last};
        { SortByTempPermutes(init); }
        multiset(init) + multiset{last};
        { assert observations == init + [last]; }
        multiset(observations);
      }
    }
  }

  lemma {:induction false} InsertSorted(x: Observation, s: seq<Observation>)
    requires SortedByTemp(s)
    ensures SortedByTemp(Insert(x, s))
  {
    if s != [] && x.tempC >= s[0].tempC {
      var rest := Insert(x, s[1..]);
      InsertSorted(x, s[1..]);
      InsertPermutes(x, s[1..]);
      forall y | y in rest ensures s[0].tempC <= y.tempC {
        assert y in multiset(rest);
        if y != x {
          assert y in s[1..];
        }
      }
    }
  }

  /** The sort yields a non-decreasing sequence. */
  lemma {:induction false} SortByTempSorted(observations: seq<Observation>)
    ensures SortedByTemp(SortByTemp(observations))
  {
    if observations != [] {
      var n := |observations| - 1;
      SortByTempSorted(observations[..n]);
      InsertSorted(observations[n], SortByTemp(observations[..n]));
    }
  }

  /** The observations at temperature `t`, in order. */
  function AtTemp(s: seq<Observation>, t: real): seq<Observation> {
    if s == [] then []
    else (if s[0].tempC == t then [s[0]] else []) + AtTemp(s[1..], t)
  }

  lemma {:induction false} AtTempAppend(a: seq<Observation>, b: seq<Observation>, t: real)
    ensures AtTemp(a + b, t) == AtTemp(a, t) + AtTemp(b, t)
  {
    if a == [] {
      assert a + b == b;
    } else {
      var h := if a[0].tempC == t then [a[0]] else [];
      assert (a + b)[0] == a[0];
      assert (a + b)[1..] == a[1..] + b;
      assert AtTemp(a + b, t) == h + AtTemp(a[1..] + b, t);
      AtTempAppend(a[1..], b, t);
      assert AtTemp(a, t) == h + AtTemp(a[1..], t);
    }
  }

  /** A sorted sequence whose first element is warmer than `t` has nothing at `t`. */
  lemma {:induction false} AtTempAbove(s: seq<Observation>, t: real)
    requires SortedByTemp(s) && s != [] && t < s[0].tempC
    ensures AtTemp(s, t) == []
  {
    if |s| > 1 {
      AtTempAbove(s[1..], t);
    }
  }

  lemma AtTempCons(y: Observation, s: seq<Observation>, t: real)
    ensures AtTemp([y] + s, t) == AtTemp([y], t) + AtTemp(s, t)
  {
    assert ([y] + s)[1..] == s;
    assert [y][1..] == [];
  }

  lemma SortedTail(s: seq<Observation>)
    requires SortedByTemp(s) && s != []
    ensures SortedByTemp(s[1..])
  {
    forall i, j | 0 <= i < j < |s| - 1 ensures s[1..][i].tempC <= s[1..][j].tempC {
      assert s[1..][i] == s[i + 1] && s[1..][j] == s[j + 1];
    }
  }

  /** Inserting `x` appends it after the elements of equal temperature. */
  lemma {:induction false} InsertStable(x: Observation, s: seq<Observation>, t: real)
    requires SortedByTemp(s)
    ensures AtTemp(Insert(x, s), t) == AtTemp(s, t) + AtTemp([x], t)
  {
    if s == [] {
      assert Insert(x, s) == [x] && AtTemp(s, t) == [];
    } else if x.tempC < s[0].tempC {
      InsertFront(x, s, t);
    } else {
      var head, tail := s[0], s[1..];
      SortedTail(s);
      InsertStable(x, tail, t);
      calc {
        AtTemp(Insert(x, s), t);
        { assert Insert(x, s) == [head] + Insert(x, tail); }
        AtTemp([head] + Insert(x, tail), t);
        { AtTempCons(head, Insert(x, tail), t); }
        AtTemp([head], t) + AtTemp(Insert(x, tail), t);
        AtTemp([head], t) + (AtTemp(tail, t) + AtTemp([x], t));
        { AtTempCons(head, tail, t); assert s == [head] + tail; }
        AtTemp(s, t) + AtTemp([x], t);
      }
    }
  }

  /** Inserting in front of warmer elements: none of them is at `x`'s temperature. */
  lemma InsertFront(x: Observation, s: seq<Observation>, t: real)
    requires SortedByTemp(s) && s != [] && x.tempC < s[0].tempC
    ensures AtTemp(Insert(x, s), t) == AtTemp(s, t) + AtTemp([x], t)
  {
    assert Insert(x, s) == [x] + s;
    AtTempCons(x, s, t);
    if x.tempC == t {
      AtTempAbove(s, t);
    }
  }

  /** Stability: the observations of any one temperature keep their input order. */
  lemma {:induction false} SortByTempStable(observations: seq<Observation>, t: real)
    ensures AtTemp(SortByTemp(observations), t) == AtTemp(observations, t)
  {
    if observations != [] {
      var n := |observations| - 1;
      var init, last := observations[..n], observations[n];
      calc {
        AtTemp(SortByTemp(observations), t);
        { assert SortByTemp(observations) == Insert(last, SortByTemp(init)); }
        AtTemp(Insert(last, SortByTemp(init)), t);
        { SortByTempSorted(init); InsertStable(last, SortByTemp(init), t); }
        AtTemp(SortByTemp(init), t) + AtTemp([last], t);
        { SortByTempStable(init, t); }
        AtTemp(init, t) + AtTemp([last], t);
        { AtTempAppend(init, [last], t); assert observations == init + [last]; }
        AtTemp(observations, t);
      }
    }
  }

  // ---------------------------------------------------------------------
  // Enrichment of the five coldest
  // ---------------------------------------------------------------------

  /** `{ ...obs, ...metadata }`: the observation's own name and country when
      both are set and non-empty, otherwise both from the fallback table. */
  function EnrichStation(o: Observation): (s: Observation)
    ensures IsStation(s)
    ensures s == o.(name := s.name, country := s.country)
    ensures Truthy(o.name) && Truthy(o.country) ==> s.name == o.name && s.country == o.country
    ensures !(Truthy(o.name) && Truthy(o.country)) ==>
      s.name == Some(LookupStationMetadata(o.stationId).name)
      && s.country == Some(LookupStationMetadata(o.stationId).country)
  {
    var info :=
      if Truthy(o.name) && Truthy(o.country) then StationInfo(o.name.value, o.country.value)
      else LookupStationMetadata(o.stationId);
    o.(name := Some(info.name), country := Some(info.country))
  }

  // ---------------------------------------------------------------------
  // Counting by source
  // ---------------------------------------------------------------------

  /** The count recorded for `source` (absent keys read as 0, as `|| 0` does). */
  function Count(sources: map<Source, nat>, source: Source): nat {
    if source in sources then sources[source] else 0
  }

  /** The `sources` record after counting `observations` in order. */
  function SourceCounts(observations: seq<Observation>): map<Source, nat> {
    if observations == [] then map[]
    else
      var counts := SourceCounts(observations[..|observations| - 1]);
      var source := observations[|observations| - 1].source;
      counts[source := Count(counts, source) + 1]
  }

  /** The counting loop of `findColdestPlaces`. */
  method CountBySource(observations: seq<Observation>) returns (sources: map<Source, nat>)
    ensures sources == SourceCounts(observations)
  {
    sources := map[];
    var i := 0;
    while i < |observations|
      invariant 0 <= i <= |observations|
      invariant sources == SourceCounts(observations[..i])
    {
      assert observations[..i + 1][..i] == observations[..i];
      var source := observations[i].source;
      sources := sources[source := (if source in sources then sources[source] else 0) + 1];
      i := i + 1;
    }
    assert observations[..|observations|] == observations;
  }

  /** The source of every observation, in order. */
  function SourcesOf(observations: seq<Observation>): seq<Source> {
    MapSeq((o: Observation) => o.source, observations)
  }

  /** Each count is the number of observations from that source. */
  lemma {:induction false} SourceCountsMeaning(observations: seq<Observation>, source: Source)
    ensures Count(SourceCounts(observations), source) == multiset(SourcesOf(observations))[source]
  {
    if observations != [] {
      var n := |observations| - 1;
      SourceCountsMeaning(observations[..n], source);
      assert SourcesOf(observations) == SourcesOf(observations[..n]) + [observations[n].source];
    }
  }

  /** A source is a key of the record exactly when some observation comes from it. */
  lemma {:induction false} SourceCountsKeys(observations: seq<Observation>, source: Source)
    ensures source in SourceCounts(observations) <==> exists o :: o in observations && o.source == source
  {
    if observations != [] {
      var n := |observations| - 1;
      SourceCountsKeys(observations[..n], source);
      assert observations == observations[..n] + [observations[n]];
    }
  }

  /** The four counts add up to the number of observations. */
  lemma SourceCountsTotal(observations: seq<Observation>)
    ensures Count(SourceCounts(observations), METAR) + Count(SourceCounts(observations), EC)
      + Count(SourceCounts(observations), ISD) + Count(SourceCounts(observations), SYNOP)
      == |observations|
  {
    SourceCountsMeaning(observations, METAR);
    SourceCountsMeaning(observations, EC);
    SourceCountsMeaning(observations, ISD);
    SourceCountsMeaning(observations, SYNOP);
    SourcesTotal(SourcesOf(observations));
  }

  lemma {:induction false} SourcesTotal(s: seq<Source>)
    ensures multiset(s)[METAR] + multiset(s)[EC] + multiset(s)[ISD] + multiset(s)[SYNOP] == |s|
  {
    if s != [] {
      SourcesTotal(s[1..]);
      assert s == [s[0]] + s[1..];
      assert multiset(s) == multiset{s[0]} + multiset(s[1..]);
      match s[0]
      case METAR =>
      case EC =>
      case ISD =>
      case SYNOP =>
    }
  }
  // ---------------------------------------------------------------------
  // findColdestPlaces
  // ---------------------------------------------------------------------

  /** The ranking `findColdestPlaces` returns. */
  datatype ColdestPlaces = ColdestPlaces(
    coldest: Observation,
    top5: seq<Observation>,
    totalStations: nat,
    sources: map<Source, nat>)

  const NoObservations := "No observations to process"

  /** The number of stations reported: at most five. */
  function TopCount(n: nat): nat {
    if n < 5 then n else 5
  }

  /** The result of `findColdestPlaces`, or the error it throws. */
  function ColdestPlacesOf(observations: seq<Observation>): (r: Result<ColdestPlaces, string>)
    ensures r.Failure? <==> observations == []
    ensures r.Failure? ==> r.error == NoObservations
  {
    if observations == [] then Failure(NoObservations)
    else
      var top5 := MapSeq(EnrichStation, SortByTemp(observations)[..TopCount(|observations|)]);
      Success(ColdestPlaces(top5[0], top5, |observations|, SourceCounts(observations)))
  }

  /** `findColdestPlaces`: sort a copy, take five, enrich them, count by source. */
  method FindColdestPlaces(observations: seq<Observation>) returns (r: Result<ColdestPlaces, string>)
    ensures r == ColdestPlacesOf(observations)
  {
    if |observations| == 0 {
      return Failure(NoObservations);
    }
    var sorted := SortByTemp(observations);
    var top5 := MapSeq(EnrichStation, sorted[..TopCount(|observations|)]);
    var sources := CountBySource(observations);
    r := Success(ColdestPlaces(top5[0], top5, |observations|, sources));
  }

  /** The five coldest are the first of the stable sort, in order, each
      enriched; `coldest` is the first of them. */
  lemma TopFive(observations: seq<Observation>)
    requires observations != []
    ensures var places := ColdestPlacesOf(observations).value;
      |places.top5| == TopCount(|observations|)
      && places.coldest == places.top5[0]
      && places.totalStations == |observations|
      && forall i :: 0 <= i < |places.top5| ==> places.top5[i] == EnrichStation(SortByTemp(observations)[i])
  {
  }

  /** The five coldest are non-decreasing in temperature and no warmer than
      any observation left out of them. */
  lemma TopFiveOrdered(observations: seq<Observation>)
    requires observations != []
    ensures var top5 := ColdestPlacesOf(observations).value.top5;
      var sorted := SortByTemp(observations);
      SortedByTemp(top5)
      && forall i, j :: 0 <= i < |top5| <= j < |sorted| ==> top5[i].tempC <= sorted[j].tempC
  {
    TopFive(observations);
    SortByTempSorted(observations);
  }

  /** `coldest` is no warmer than any input observation. */
  lemma ColdestIsMinimum(observations: seq<Observation>)
    requires observations != []
    ensures forall o :: o in observations ==> ColdestPlacesOf(observations).value.coldest.tempC <= o.tempC
  {
    var sorted := SortByTemp(observations);
    TopFive(observations);
    SortByTempSorted(observations);
    SortByTempPermutes(observations);
    var coldest := ColdestPlacesOf(observations).value.coldest;
    assert coldest.tempC == sorted[0].tempC;
    forall o | o in observations ensures coldest.tempC <= o.tempC {
      assert o in multiset(sorted);
      var j :| 0 <= j < |sorted| && sorted[j] == o;
    }
  }

  /** The per-source counts cover every observation exactly once. */
  lemma ColdestPlacesSources(observations: seq<Observation>)
    requires observations != []
    ensures var sources := ColdestPlacesOf(observations).value.sources;
      Count(sources, METAR) + Count(sources, EC) + Count(sources, ISD) + Count(sources, SYNOP)
        == ColdestPlacesOf(observations).value.totalStations
  {
    SourceCountsTotal(observations);
  }
}
