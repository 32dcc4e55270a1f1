/**
 * The station history resolver: reads NOAA's fixed-width station history
 * (`isd-history.txt`, one station per line), indexes it by USAF and ICAO code,
 * keeps the index for a day, and looks stations up by WMO number.
 */
module SynopMetadata {
  import opened Wrappers
  import opened Text
  import opened Seqs

  /** One station of the history. Coordinates and elevation are the exact
      decimals written in the record. */
  datatype StationMetadata = StationMetadata(
    usaf: string,
    wban: string,
    name: string,
    country: string,
    state: string,
    icao: string,
    lat: Decimal,
    lon: Decimal,
    elevation: Decimal,
    beginDate: string,
    endDate: string)

  /** Shorter lines are headers, blank lines or truncated records. */
  const MinLineLength: nat := 80
  /** 24 hours, in milliseconds. */
  const CacheDuration: int := 86400000

  // ---------------------------------------------------------------------
  // parseISDLine
  // ---------------------------------------------------------------------

  /** `line.substring(lo, hi).trim()`: the text of one column. */
  function Column(line: string, lo: nat, hi: nat): string
    requires lo <= hi
  {
    Trim(Substring(line, lo, hi))
  }

  /** A line that is not a record: too short, the column heading, or a rule. */
  predicate HeaderLine(line: string) {
    |line| < MinLineLength || StartsWith(line, "USAF") || StartsWith(line, "-")
  }

  /** The checks a record must pass to be kept: a real USAF code, a real name,
      and coordinates other than the placeholder 0, 0. */
  predicate Accepted(md: StationMetadata) {
    && md.usaf != [] && md.usaf != "999999"
    && md.name != [] && !Contains(md.name, "BOGUS") && !Contains(md.name, "WXPOD")
    && !(md.lat.IsZero() && md.lon.IsZero())
  }

  /** `parseISDLine(line)`. Columns are taken at fixed offsets; latitude and
      longitude must parse, and an unreadable elevation becomes 0. */
  function ParseISDLine(line: string): (r: Option<StationMetadata>)
    ensures HeaderLine(line) ==> r.None?
    ensures r.Some? ==> Accepted(r.value)
  {
    if HeaderLine(line) then None
    else
      var usaf := Column(line, 0, 6);
      var name := Column(line, 13, 43);
      if usaf == [] || usaf == "999999" || name == [] || Contains(name, "BOGUS") || Contains(name, "WXPOD") then None
      else
        var lat := ParseFloat(Column(line, 57, 64));
        var lon := ParseFloat(Column(line, 65, 73));
        var elevation := ParseFloat(Column(line, 74, 81));
        if lat.None? || lon.None? || (lat.value.IsZero() && lon.value.IsZero()) then None
        else
          Some(StationMetadata(
            usaf, Column(line, 7, 12), name, Column(line, 43, 47), Column(line, 48, 50),
            Column(line, 51, 56), lat.value, lon.value, elevation.GetOr(Decimal(0, 0)),
            Column(line, 82, 90), Column(line, 91, 99)))
  }

  /** `parseISDLine` on the columns of the line: a record is rejected exactly
      when the line is a heading, the USAF code is empty or `999999`, the name
      is empty or names a test station, latitude or longitude does not parse,
      or both are 0; the fields of any other line are its trimmed columns, and
      an elevation that does not parse becomes 0. */
  lemma ParseISDLineColumns(line: string)
    // the rejections, stated on the columns of the line
    ensures var usaf := Column(line, 0, 6);
      usaf == [] || usaf == "999999" ==> ParseISDLine(line).None?
    ensures var name := Column(line, 13, 43);
      name == [] || Contains(name, "BOGUS") || Contains(name, "WXPOD") ==> ParseISDLine(line).None?
    ensures ParseFloat(Column(line, 57, 64)).None? || ParseFloat(Column(line, 65, 73)).None? ==> ParseISDLine(line).None?
    ensures (ParseFloat(Column(line, 57, 64)).Some? && ParseFloat(Column(line, 65, 73)).Some?
             && ParseFloat(Column(line, 57, 64)).value.IsZero() && ParseFloat(Column(line, 65, 73)).value.IsZero())
            ==> ParseISDLine(line).None?
    // every other line gives a record
    ensures ParseISDLine(line).None? ==>
      || HeaderLine(line)
      || Column(line, 0, 6) == [] || Column(line, 0, 6) == "999999"
      || Column(line, 13, 43) == [] || Contains(Column(line, 13, 43), "BOGUS") || Contains(Column(line, 13, 43), "WXPOD")
      || ParseFloat(Column(line, 57, 64)).None? || ParseFloat(Column(line, 65, 73)).None?
      || (ParseFloat(Column(line, 57, 64)).value.IsZero() && ParseFloat(Column(line, 65, 73)).value.IsZero())
    // the fields are the trimmed columns; an unreadable elevation is 0
    ensures ParseISDLine(line).Some? ==>
      var md := ParseISDLine(line).value;
      && md.usaf == Column(line, 0, 6) && md.wban == Column(line, 7, 12)
      && md.name == Column(line, 13, 43) && md.country == Column(line, 43, 47)
      && md.state == Column(line, 48, 50) && md.icao == Column(line, 51, 56)
      && Some(md.lat) == ParseFloat(Column(line, 57, 64))
      && Some(md.lon) == ParseFloat(Column(line, 65, 73))
      && md.elevation == ParseFloat(Column(line, 74, 81)).GetOr(Decimal(0, 0))
      && md.beginDate == Column(line, 82, 90) && md.endDate == Column(line, 91, 99)
  {
  }

  // ---------------------------------------------------------------------
  // the record layout, written out
  // ---------------------------------------------------------------------

  /** A field that fits its column and has no white space at either end. */
  predicate FitsColumn(f: string, width: nat) {
    |f| <= width && Trimmed(f)
  }

  /** A station that the fixed-width layout can hold: a six-character USAF
      code, text fields within their columns, latitude with two whole digits
      and three decimals, longitude with three and three, elevation with four
      and one. */
  predicate Representable(md: StationMetadata) {
    && |md.usaf| == 6 && FitsColumn(md.usaf, 6) && !StartsWith(md.usaf, "USAF") && !StartsWith(md.usaf, "-")
    && FitsColumn(md.wban, 5) && FitsColumn(md.name, 30) && FitsColumn(md.country, 4)
    && FitsColumn(md.state, 2) && FitsColumn(md.icao, 5)
    && md.lat.scale == 3 && Abs(md.lat.units) < Pow10(2 + 3)
    && md.lon.scale == 3 && Abs(md.lon.units) < Pow10(3 + 3)
    && md.elevation.scale == 1 && Abs(md.elevation.units) < Pow10(4 + 1)
    && FitsColumn(md.beginDate, 8) && FitsColumn(md.endDate, 8)
  }

  /** The length of a record line, with both dates. */
  const RecordLength: nat := 99

  /** Character `i` of the record line of `md`: the character of the column
      that holds position `i`, or the space between two columns. */
  function RecordChar(md: StationMetadata, i: nat): char
    requires Representable(md) && i < RecordLength
  {
    if i < 6 then PadEnd(md.usaf, 6)[i]
    else if i < 7 then ' '
    else if i < 12 then PadEnd(md.wban, 5)[i - 7]
    else if i < 13 then ' '
    else if i < 43 then PadEnd(md.name, 30)[i - 13]
    else if i < 47 then PadEnd(md.country, 4)[i - 43]
    else if i < 48 then ' '
    else if i < 50 then PadEnd(md.state, 2)[i - 48]
    else if i < 51 then ' '
    else if i < 56 then PadEnd(md.icao, 5)[i - 51]
    else if i < 57 then ' '
    else if i < 64 then FormatFixed(md.lat.units, 2, 3)[i - 57]
    else if i < 65 then ' '
    else if i < 73 then FormatFixed(md.lon.units, 3, 3)[i - 65]
    else if i < 74 then ' '
    else if i < 81 then FormatFixed(md.elevation.units, 4, 1)[i - 74]
    else if i < 82 then ' '
    else if i < 90 then PadEnd(md.beginDate, 8)[i - 82]
    else if i < 91 then ' '
    else PadEnd(md.endDate, 8)[i - 91]
  }

  /** The record line of the station history for `md`: usaf, wban, name,
      country, state, icao, latitude, longitude, elevation, begin and end
      date, each left-aligned in its column. */
  function FormatISDLine(md: StationMetadata): (line: string)
    requires Representable(md)
    ensures |line| == RecordLength
  {
    seq(RecordLength, i requires 0 <= i < RecordLength => RecordChar(md, i))
  }

  /** A column of a formatted line reads as the text laid out in it. */
  lemma RecordColumn(md: StationMetadata, lo: nat, hi: nat, f: string)
    requires Representable(md) && lo <= hi <= RecordLength && |f| == hi - lo
    requires forall i :: lo <= i < hi ==> RecordChar(md, i) == f[i - lo]
    ensures Substring(FormatISDLine(md), lo, hi) == f
  {
    var line := FormatISDLine(md);
    assert line[lo..hi] == f;
  }

  /** The identifying columns of a formatted line hold their fields. */
  lemma IdentityColumns(md: StationMetadata)
    requires Representable(md)
    ensures var line := FormatISDLine(md);
      && Substring(line, 0, 6) == PadEnd(md.usaf, 6)
      && Substring(line, 7, 12) == PadEnd(md.wban, 5)
      && Substring(line, 13, 43) == PadEnd(md.name, 30)
  {
    RecordColumn(md, 0, 6, PadEnd(md.usaf, 6));
    RecordColumn(md, 7, 12, PadEnd(md.wban, 5));
    RecordColumn(md, 13, 43, PadEnd(md.name, 30));
  }

  /** The place columns of a formatted line hold their fields. */
  lemma PlaceColumns(md: StationMetadata)
    requires Representable(md)
    ensures var line := FormatISDLine(md);
      && Substring(line, 43, 47) == PadEnd(md.country, 4)
      && Substring(line, 48, 50) == PadEnd(md.state, 2)
      && Substring(line, 51, 56) == PadEnd(md.icao, 5)
  {
    RecordColumn(md, 43, 47, PadEnd(md.country, 4));
    RecordColumn(md, 48, 50, PadEnd(md.state, 2));
    RecordColumn(md, 51, 56, PadEnd(md.icao, 5));
  }

  /** The latitude column of a formatted line holds the latitude. */
  lemma LatitudeColumn(md: StationMetadata)
    requires Representable(md)
    ensures Substring(FormatISDLine(md), 57, 64) == FormatFixed(md.lat.units, 2, 3)
  {
    RecordColumn(md, 57, 64, FormatFixed(md.lat.units, 2, 3));
  }

  /** The longitude column of a formatted line holds the longitude. */
  lemma LongitudeColumn(md: StationMetadata)
    requires Representable(md)
    ensures Substring(FormatISDLine(md), 65, 73) == FormatFixed(md.lon.units, 3, 3)
  {
    RecordColumn(md, 65, 73, FormatFixed(md.lon.units, 3, 3));
  }

  /** The elevation column of a formatted line holds the elevation. */
  lemma ElevationColumn(md: StationMetadata)
    requires Representable(md)
    ensures Substring(FormatISDLine(md), 74, 81) == FormatFixed(md.elevation.units, 4, 1)
  {
    RecordColumn(md, 74, 81, FormatFixed(md.elevation.units, 4, 1));
  }

  /** The date columns of a formatted line hold the dates. */
  lemma DateColumns(md: StationMetadata)
    requires Representable(md)
    ensures var line := FormatISDLine(md);
      && Substring(line, 82, 90) == PadEnd(md.beginDate, 8)
      && Substring(line, 91, 99) == PadEnd(md.endDate, 8)
  {
    RecordColumn(md, 82, 90, PadEnd(md.beginDate, 8));
    RecordColumn(md, 91, 99, PadEnd(md.endDate, 8));
  }

  /** A text column reads back, trimmed, as the field padded into it. */
  lemma TextColumn(line: string, lo: nat, hi: nat, f: string)
    requires lo <= hi && FitsColumn(f, hi - lo)
    requires Substring(line, lo, hi) == PadEnd(f, hi - lo)
    ensures Column(line, lo, hi) == f
  {
    TrimPadEnd(f, hi - lo);
  }

  /** A number column parses back to the number written into it. */
  lemma NumberColumn(line: string, lo: nat, hi: nat, d: Decimal, wholeWidth: nat)
    requires lo <= hi && wholeWidth >= 1 && Abs(d.units) < Pow10(wholeWidth + d.scale)
    requires Substring(line, lo, hi) == FormatFixed(d.units, wholeWidth, d.scale)
    ensures ParseFloat(Column(line, lo, hi)) == Some(d)
  {
    FormatFixedTrimmed(d.units, wholeWidth, d.scale);
    TrimOfTrimmed(FormatFixed(d.units, wholeWidth, d.scale));
    ParseFormatFixed(d.units, wholeWidth, d.scale);
  }

  /** A long line that starts with a USAF code other than the heading and a
      rule is not a header. */
  lemma RecordNotHeader(line: string, usaf: string)
    requires |line| >= MinLineLength && |usaf| == 6 && line[..6] == usaf
    requires !StartsWith(usaf, "USAF") && !StartsWith(usaf, "-")
    ensures !HeaderLine(line)
  {
    StartsWithOfPrefix(line, usaf, "USAF");
    StartsWithOfPrefix(line, usaf, "-");
  }

  /** A record line whose columns read as the fields of an accepted station
      parses to that station: `parseISDLine` keeps every field it reads. */
  lemma ParseOfColumns(line: string, md: StationMetadata)
    requires Accepted(md) && !HeaderLine(line)
    requires && Column(line, 0, 6) == md.usaf && Column(line, 7, 12) == md.wban
             && Column(line, 13, 43) == md.name && Column(line, 43, 47) == md.country
             && Column(line, 48, 50) == md.state && Column(line, 51, 56) == md.icao
             && Column(line, 82, 90) == md.beginDate && Column(line, 91, 99) == md.endDate
    requires && ParseFloat(Column(line, 57, 64)) == Some(md.lat)
             && ParseFloat(Column(line, 65, 73)) == Some(md.lon)
             && ParseFloat(Column(line, 74, 81)) == Some(md.elevation)
    ensures ParseISDLine(line) == Some(md)
  {
  }

  /** The text columns of a line laid out for `md` read back as its fields. */
  lemma TextColumnsOfLayout(line: string, md: StationMetadata)
    requires && FitsColumn(md.usaf, 6) && FitsColumn(md.wban, 5) && FitsColumn(md.name, 30)
             && FitsColumn(md.country, 4) && FitsColumn(md.state, 2) && FitsColumn(md.icao, 5)
             && FitsColumn(md.beginDate, 8) && FitsColumn(md.endDate, 8)
    requires && Substring(line, 0, 6) == PadEnd(md.usaf, 6)
             && Substring(line, 7, 12) == PadEnd(md.wban, 5)
             && Substring(line, 13, 43) == PadEnd(md.name, 30)
             && Substring(line, 43, 47) == PadEnd(md.country, 4)
             && Substring(line, 48, 50) == PadEnd(md.state, 2)
             && Substring(line, 51, 56) == PadEnd(md.icao, 5)
             && Substring(line, 82, 90) == PadEnd(md.beginDate, 8)
             && Substring(line, 91, 99) == PadEnd(md.endDate, 8)
    ensures && Column(line, 0, 6) == md.usaf && Column(line, 7, 12) == md.wban
            && Column(line, 13, 43) == md.name && Column(line, 43, 47) == md.country
            && Column(line, 48, 50) == md.state && Column(line, 51, 56) == md.icao
            && Column(line, 82, 90) == md.beginDate && Column(line, 91, 99) == md.endDate
  {
    TextColumn(line, 0, 6, md.usaf);
    TextColumn(line, 7, 12, md.wban);
    TextColumn(line, 13, 43, md.name);
    TextColumn(line, 43, 47, md.country);
    TextColumn(line, 48, 50, md.state);
    TextColumn(line, 51, 56, md.icao);
    TextColumn(line, 82, 90, md.beginDate);
    TextColumn(line, 91, 99, md.endDate);
  }

  /** The number columns of a line laid out for `md` parse back as its
      coordinates and elevation. */
  lemma NumberColumnsOfLayout(line: string, lat: Decimal, lon: Decimal, elevation: Decimal)
    requires && lat.scale == 3 && Abs(lat.units) < Pow10(2 + 3)
             && lon.scale == 3 && Abs(lon.units) < Pow10(3 + 3)
             && elevation.scale == 1 && Abs(elevation.units) < Pow10(4 + 1)
    requires && Substring(line, 57, 64) == FormatFixed(lat.units, 2, 3)
             && Substring(line, 65, 73) == FormatFixed(lon.units, 3, 3)
             && Substring(line, 74, 81) == FormatFixed(elevation.units, 4, 1)
    ensures && ParseFloat(Column(line, 57, 64)) == Some(lat)
            && ParseFloat(Column(line, 65, 73)) == Some(lon)
            && ParseFloat(Column(line, 74, 81)) == Some(elevation)
  {
    NumberColumn(line, 57, 64, lat, 2);
    NumberColumn(line, 65, 73, lon, 3);
    NumberColumn(line, 74, 81, elevation, 4);
  }

  /** Reading a formatted line back gives the station: `parseISDLine` inverts
      the record layout for every accepted station the layout can hold. */
  lemma ParseFormatISDLine(md: StationMetadata)
    requires Representable(md) && Accepted(md)
    ensures ParseISDLine(FormatISDLine(md)) == Some(md)
  {
    IdentityColumns(md);
    PlaceColumns(md);
    LatitudeColumn(md);
    LongitudeColumn(md);
    ElevationColumn(md);
    DateColumns(md);
    var line := FormatISDLine(md);
    assert PadEnd(md.usaf, 6) == md.usaf;
    RecordNotHeader(line, md.usaf);
    TextColumnsOfLayout(line, md);
    NumberColumnsOfLayout(line, md.lat, md.lon, md.elevation);
    ParseOfColumns(line, md);
  }

  // ---------------------------------------------------------------------
  // the station index built by fetchStationDatabase
  // ---------------------------------------------------------------------

  /** The keys a station is stored under: its USAF code, and its ICAO code
      when it has one. */
  function Keys(md: StationMetadata): (ks: set<string>)
    ensures md.usaf in ks
    ensures forall k :: k in ks ==> k == md.usaf || (md.icao != [] && k == md.icao)
  {
    if md.icao != [] then {md.usaf, md.icao} else {md.usaf}
  }

  /** One pass of the indexing loop: `md` is stored under each of its keys,
      overwriting what was there, and every other entry stays. */
  function AddStation(stations: map<string, StationMetadata>, md: StationMetadata): (r: map<string, StationMetadata>)
    ensures r.Keys == stations.Keys + Keys(md)
    ensures forall k :: k in Keys(md) ==> r[k] == md
    ensures forall k :: k in stations && k !in Keys(md) ==> r[k] == stations[k]
  {
    var withUsaf := stations[md.usaf := md];
    if md.icao != [] then withUsaf[md.icao := md] else withUsaf
  }

  /** The index of `records`, built in order. */
  function Index(records: seq<StationMetadata>): map<string, StationMetadata> {
    if records == [] then map[]
    else AddStation(Index(records[..|records| - 1]), records[|records| - 1])
  }

  /** The position of the last record stored under `k`, if any. */
  function LastKeyed(records: seq<StationMetadata>, k: string): (j: Option<nat>)
    ensures j.Some? ==> j.value < |records| && k in Keys(records[j.value])
    ensures j.Some? ==> forall l :: j.value < l < |records| ==> k !in Keys(records[l])
    ensures j.None? ==> forall l :: 0 <= l < |records| ==> k !in Keys(records[l])
  {
    if records == [] then None
    else if k in Keys(records[|records| - 1]) then Some(|records| - 1)
    else LastKeyed(records[..|records| - 1], k)
  }

  /** The index holds exactly the keys of the records, and each key maps to
      the last record stored under it: later lines overwrite earlier ones. */
  lemma {:induction false} IndexLastWriter(records: seq<StationMetadata>, k: string)
    ensures k in Index(records) <==> LastKeyed(records, k).Some?
    ensures k in Index(records) ==> Index(records)[k] == records[LastKeyed(records, k).value]
  {
    if records != [] {
      IndexLastWriter(records[..|records| - 1], k);
    }
  }

  /** The stations of the history text: the records of its lines that parse. */
  function StationsOf(text: string): seq<StationMetadata> {
    Present(MapSeq(ParseISDLine, SplitOn(text, '\n')))
  }

  /** The index built from a downloaded history. */
  function DatabaseOf(text: string): map<string, StationMetadata> {
    Index(StationsOf(text))
  }

  /** Every station of a history text passed the checks of `parseISDLine`. */
  lemma StationsAccepted(text: string)
    ensures forall md :: md in StationsOf(text) ==> Accepted(md)
  {
    var parsed := MapSeq(ParseISDLine, SplitOn(text, '\n'));
    PresentFrom(parsed);
  }

  /** Every entry of an index built from a history text is an accepted station
      stored under its USAF or ICAO code. */
  lemma DatabaseEntries(text: string)
    ensures forall k :: k in DatabaseOf(text) ==>
      Accepted(DatabaseOf(text)[k]) && k in Keys(DatabaseOf(text)[k])
  {
    var records := StationsOf(text);
    StationsAccepted(text);
    forall k | k in DatabaseOf(text)
      ensures Accepted(DatabaseOf(text)[k]) && k in Keys(DatabaseOf(text)[k])
    {
      IndexLastWriter(records, k);
      assert records[LastKeyed(records, k).value] in records;
    }
  }

  /** The index after one more record, if there is one. */
  lemma IndexSnoc(records: seq<StationMetadata>, x: Option<StationMetadata>)
    ensures Index(records + Kept(x)) ==
      match x
      case Some(md) => AddStation(Index(records), md)
      case None => Index(records)
  {
    match x
    case Some(md) =>
      assert (records + [md])[..|records|] == records;
    case None =>
      assert records + [] == records;
  }

  /** The indexing loop of `fetchStationDatabase` over the lines of the
      downloaded history. */
  method IndexLines(lines: seq<string>) returns (stations: map<string, StationMetadata>)
    ensures stations == Index(Present(MapSeq(ParseISDLine, lines)))
  {
    stations := map[];
    var i := 0;
    while i < |lines|
      invariant 0 <= i <= |lines|
      invariant stations == Index(Present(MapSeq(ParseISDLine, lines[..i])))
    {
      var station := ParseISDLine(lines[i]);
      PresentMapSnoc(ParseISDLine, lines, i);
      IndexSnoc(Present(MapSeq(ParseISDLine, lines[..i])), station);
      if station.Some? {
        var md := station.value;
        stations := stations[md.usaf := md];
        if md.icao != [] {
          stations := stations[md.icao := md];
        }
      }
      i := i + 1;
    }
    assert lines[..i] == lines;
  }

  // ---------------------------------------------------------------------
  // the cache policy of fetchStationDatabase
  // ---------------------------------------------------------------------

  /** The module-level cache: the last index fetched, if any, and when. */
  datatype CacheState = CacheState(cache: Option<map<string, StationMetadata>>, lastFetchTime: int)

  /** What a call of `fetchStationDatabase` returns and leaves behind. */
  datatype Fetched = Fetched(db: map<string, StationMetadata>, state: CacheState)

  /** A cached index younger than a day, at time `now`. */
  predicate Fresh(state: CacheState, now: int) {
    state.cache.Some? && now - state.lastFetchTime < CacheDuration
  }

  /** `fetchStationDatabase` at time `now`, when the download gives
      `response` (`None` for a failed request or a status other than ok). A
      fresh cache is served as it is; otherwise a successful download
      replaces the cache and its time, and a failed one serves the stale
      cache, or an empty index when there is none, leaving the state alone. */
  function FetchOutcome(state: CacheState, now: int, response: Option<string>): (f: Fetched)
    ensures Fresh(state, now) ==> f == Fetched(state.cache.value, state)
    ensures !Fresh(state, now) && response.Some? ==>
      f.db == DatabaseOf(response.value) && f.state == CacheState(Some(f.db), now)
    ensures response.None? ==> f.state == state
    ensures response.None? && state.cache.None? ==> f.db == map[]
    ensures state.cache.Some? ==> f.state.cache.Some?
    ensures f.state.cache.Some? ==> f.db == f.state.cache.value
  {
    if Fresh(state, now) then Fetched(state.cache.value, state)
    else match response
      case Some(text) =>
        var db := DatabaseOf(text);
        Fetched(db, CacheState(Some(db), now))
      case None =>
        if state.cache.Some? then Fetched(state.cache.value, state) else Fetched(map[], state)
  }

  /** Fetching a second time at the same moment, with the same download
      outcome, returns the same index and changes nothing: a successful
      download leaves a fresh cache, a failed one leaves the state as it was. */
  lemma FetchSettles(state: CacheState, now: int, response: Option<string>)
    ensures var f := FetchOutcome(state, now, response);
      FetchOutcome(f.state, now, response) == f
  {
    var f := FetchOutcome(state, now, response);
    if !Fresh(state, now) && response.Some? {
      assert Fresh(f.state, now);
    }
  }

  // ---------------------------------------------------------------------
  // lookupStation
  // ---------------------------------------------------------------------

  /** The keys `lookupStation` tries, in order: the id, then for a five-digit
      id the id after a leading zero, the id with a zero appended, and the id
      again. */
  function KeyVariants(id: string): (keys: seq<string>)
    ensures |keys| >= 1 && keys[0] == id
  {
    if |id| == 5 then [id, "0" + id, id + "0", id] else [id]
  }

  /** The entry under the first of `keys` that the index holds. */
  function FirstHit(db: map<string, StationMetadata>, keys: seq<string>): (r: Option<StationMetadata>)
    ensures r.Some? <==> exists i :: 0 <= i < |keys| && keys[i] in db
    ensures r.Some? ==> exists i :: 0 <= i < |keys| && keys[i] in db && r.value == db[keys[i]]
                           && forall j :: 0 <= j < i ==> keys[j] !in db
  {
    if keys == [] then None
    else if keys[0] in db then Some(db[keys[0]])
    else
      var r := FirstHit(db, keys[1..]);
      assert forall i :: 0 < i < |keys| ==> keys[i] == keys[1..][i - 1];
      r
  }

  /** `lookupStation(id)` on the index `db`. */
  function Lookup(db: map<string, StationMetadata>, id: string): Option<StationMetadata> {
    FirstHit(db, KeyVariants(id))
  }

  /** The lookup in closed form: the id itself wins; a five-digit id then
      falls back to the id after a leading zero and then to the id with a
      zero appended; anything else is a miss. Trying the id a second time
      never finds anything. */
  lemma LookupCases(db: map<string, StationMetadata>, id: string)
    ensures Lookup(db, id) ==
      if id in db then Some(db[id])
      else if |id| == 5 && "0" + id in db then Some(db["0" + id])
      else if |id| == 5 && id + "0" in db then Some(db[id + "0"])
      else None
  {
    var keys := KeyVariants(id);
    if |id| == 5 && id !in db {
      assert keys[1..] == ["0" + id, id + "0", id];
      assert FirstHit(db, keys) == FirstHit(db, keys[1..]);
      if "0" + id !in db {
        assert keys[1..][1..] == [id + "0", id];
        if id + "0" !in db {
          assert keys[1..][1..][1..] == [id];
        }
      }
    }
  }

  /** The search of `lookupStation` in a fetched index: the id, then for a
      five-digit id the id after a leading zero, then the patterns id with a
      zero appended and id, stopping at the first hit. */
  method FindStation(db: map<string, StationMetadata>, id: string) returns (station: Option<StationMetadata>)
    ensures station == Lookup(db, id)
  {
    LookupCases(db, id);
    if id in db {
      return Some(db[id]);
    }
    if |id| == 5 {
      if "0" + id in db {
        return Some(db["0" + id]);
      }
    }
    if |id| == 5 {
      var patterns := [id + "0", id];
      var i := 0;
      while i < |patterns|
        invariant 0 <= i <= |patterns|
        invariant forall j :: 0 <= j < i ==> patterns[j] !in db
      {
        if patterns[i] in db {
          return Some(db[patterns[i]]);
        }
        i := i + 1;
      }
      assert patterns[0] == id + "0";
    }
    return None;
  }

  /** The entries of `lookupStations(ids)`: every id that the lookup finds,
      with what it finds, entered in the order of `ids`. */
  function LookupAll(db: map<string, StationMetadata>, ids: seq<string>): (results: map<string, StationMetadata>)
    ensures forall id :: id in results <==> id in ids && Lookup(db, id).Some?
    ensures forall id :: id in results ==> results[id] == Lookup(db, id).value
  {
    if ids == [] then map[]
    else
      var id := ids[|ids| - 1];
      var before := LookupAll(db, ids[..|ids| - 1]);
      assert forall x :: x in ids <==> x in ids[..|ids| - 1] || x == id;
      match Lookup(db, id)
      case Some(md) => before[id := md]
      case None => before
  }

  lemma LookupAllSnoc(db: map<string, StationMetadata>, ids: seq<string>, i: nat)
    requires i < |ids|
    ensures LookupAll(db, ids[..i + 1]) ==
      match Lookup(db, ids[i])
      case Some(md) => LookupAll(db, ids[..i])[ids[i] := md]
      case None => LookupAll(db, ids[..i])
  {
    assert ids[..i + 1][..i] == ids[..i];
  }

  /** The station history service: the module-level cache of
      `fetchStationDatabase`, and the lookups that go through it. */
  class StationDatabase {
    var stationCache: Option<map<string, StationMetadata>>
    var lastFetchTime: int

    function State(): CacheState
      reads this
    {
      CacheState(stationCache, lastFetchTime)
    }

    /** The module's initial state: no cache, fetched at time 0. */
    constructor()
      ensures State() == CacheState(None, 0)
    {
      stationCache := None;
      lastFetchTime := 0;
    }

    /** `fetchStationDatabase()` at time `now`, the download giving `response`. */
    method FetchStationDatabase(now: int, response: Option<string>) returns (db: map<string, StationMetadata>)
      modifies this
      ensures Fetched(db, State()) == FetchOutcome(old(State()), now, response)
    {
      if stationCache.Some? && now - lastFetchTime < CacheDuration {
        return stationCache.value;
      }
      if response.Some? {
        var lines := SplitOn(response.value, '\n');
        var stations := IndexLines(lines);
        stationCache := Some(stations);
        lastFetchTime := now;
        return stations;
      }
      if stationCache.Some? {
        return stationCache.value;
      }
      return map[];
    }

    /** `lookupStation(id)`: fetch the index (through the cache), then try the
      key variants in order. */
    method LookupStation(id: string, now: int, response: Option<string>) returns (station: Option<StationMetadata>)
      modifies this
      ensures var f := FetchOutcome(old(State()), now, response);
        State() == f.state && station == Lookup(f.db, id)
    {
      var db := FetchStationDatabase(now, response);
      station := FindStation(db, id);
    }

    /** `lookupStations(ids)`: one fetch, then a lookup per id, keeping the
      hits. All calls happen at time `now` and see the same download. */
    method LookupStations(ids: seq<string>, now: int, response: Option<string>)
      returns (results: map<string, StationMetadata>)
      modifies this
      ensures var f := FetchOutcome(old(State()), now, response);
        State() == f.state && results == LookupAll(f.db, ids)
    {
      ghost var f := FetchOutcome(State(), now, response);
      var _ := FetchStationDatabase(now, response);
      FetchSettles(old(State()), now, response);
      results := map[];
      var i := 0;
      while i < |ids|
        invariant 0 <= i <= |ids|
        invariant State() == f.state
        invariant results == LookupAll(f.db, ids[..i])
      {
        results := LookupInto(results, ids[i], now, response, f);
        LookupAllSnoc(f.db, ids, i);
        i := i + 1;
      }
      assert ids[..i] == ids;
    }

    /** One pass of the loop of `lookupStations`: look `id` up and record a hit.
      Once the cache has settled, the lookup fetches nothing new. */
    method LookupInto(results: map<string, StationMetadata>, id: string, now: int, response: Option<string>,
                      ghost f: Fetched)
      returns (updated: map<string, StationMetadata>)
      requires State() == f.state && FetchOutcome(f.state, now, response) == f
      modifies this
      ensures State() == f.state
      ensures updated == match Lookup(f.db, id)
        case Some(md) => results[id := md]
        case None => results
    {
      var metadata := LookupStation(id, now, response);
      updated := results;
      if metadata.Some? {
        updated := results[id := metadata.value];
      }
    }
  }

  // ---------------------------------------------------------------------
  // formatters
  // ---------------------------------------------------------------------

  /** `formatStationName`: the name, followed by the ICAO code in parentheses
      when there is one. */
  function FormatStationName(md: StationMetadata): (s: string)
    ensures StartsWith(s, md.name)
    ensures s == md.name <==> md.icao == []
    ensures md.icao != [] ==> s[|md.name|..] == " (" + md.icao + ")"
  {
    if md.icao != [] then md.name + " (" + md.icao + ")" else md.name
  }

  /** The strings of `parts` that are not empty, in order. */
  function NonEmpty(parts: seq<string>): (kept: seq<string>)
    ensures forall p :: p in kept <==> p in parts && p != []
    ensures |kept| <= |parts|
  {
    if parts == [] then []
    else (if parts[0] != [] then [parts[0]] else []) + NonEmpty(parts[1..])
  }

  lemma NonEmptyOfThree(a: string, b: string, c: string)
    ensures NonEmpty([a, b, c]) == NonEmpty([a]) + NonEmpty([b]) + NonEmpty([c])
  {
    assert [a][1..] == [] && [b][1..] == [] && [c][1..] == [];
    assert [b, c][1..] == [c];
    assert NonEmpty([b, c]) == NonEmpty([b]) + NonEmpty([c]);
    assert [a, b, c][1..] == [b, c];
    assert NonEmpty([a, b, c]) == NonEmpty([a]) + (NonEmpty([b]) + NonEmpty([c]));
  }

  /** `getLocationString`: name, state and country, those that are set,
      joined with commas. */
  method GetLocationString(md: StationMetadata) returns (s: string)
    ensures s == Join(NonEmpty([md.name, md.state, md.country]), ", ")
  {
    var parts: seq<string> := [];
    if md.name != [] {
      parts := parts + [md.name];
    }
    assert parts == NonEmpty([md.name]);
    if md.state != [] {
      parts := parts + [md.state];
    }
    assert parts == NonEmpty([md.name]) + NonEmpty([md.state]);
    if md.country != [] {
      parts := parts + [md.country];
    }
    assert parts == NonEmpty([md.name]) + NonEmpty([md.state]) + NonEmpty([md.country]);
    NonEmptyOfThree(md.name, md.state, md.country);
    s := Join(parts, ", ");
  }

  /** Joining strings that are not empty gives the empty string only when
      there is nothing to join. */
  lemma {:induction false} JoinEmpty(parts: seq<string>, sep: string)
    requires forall p :: p in parts ==> p != []
    ensures Join(parts, sep) == [] <==> parts == []
  {
    if |parts| > 1 {
      assert parts[0] in parts;
      assert |Join(parts, sep)| >= |parts[0]|;
    } else if |parts| == 1 {
      assert parts[0] in parts;
    }
  }

  /** The location string is empty only for a station with no name, state or
      country, and otherwise starts with the first of them that is set. */
  lemma LocationString(md: StationMetadata)
    ensures var s := Join(NonEmpty([md.name, md.state, md.country]), ", ");
      && (s == [] <==> md.name == [] && md.state == [] && md.country == [])
      && (md.name != [] ==> StartsWith(s, md.name))
  {
    var parts := NonEmpty([md.name, md.state, md.country]);
    NonEmptyOfThree(md.name, md.state, md.country);
    JoinEmpty(parts, ", ");
    if md.name != [] {
      assert parts[0] == md.name;
    }
  }

  /** `isStationActive` on the date `today`, written `YYYYMMDD`: a station
      with no end date is active, and otherwise one whose end date does not
      come before today in string order. */
  function IsStationActive(md: StationMetadata, today: string): (active: bool)
    ensures md.endDate == [] ==> active
  {
    md.endDate == [] || !LexLess(md.endDate, today)
  }

  /** For dates written with eight digits, the string comparison of
      `isStationActive` is the comparison of the dates as numbers. */
  lemma ActiveByDate(md: StationMetadata, today: string)
    requires |md.endDate| == 8 && |today| == 8 && AllDigits(md.endDate) && AllDigits(today)
    ensures IsStationActive(md, today) <==> DigitsValue(md.endDate) >= DigitsValue(today)
  {
    LexLessDigits(md.endDate, today);
  }
}
