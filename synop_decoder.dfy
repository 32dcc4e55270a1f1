/**
 * Decoding of WMO FM 12 SYNOP surface reports (WMO-No. 306, Manual on Codes,
 * Volume I.1, FM 12, Section 1): the station index group `IIiii` and the air
 * temperature group `1SnTTT`, one physical line of a bulletin at a time.
 *
 * Temperatures are integer tenths of a degree Celsius. Times are milliseconds
 * since the Unix epoch; the clock is a parameter (`now`), and so is the start
 * of the current UTC month (`monthStart`), which the bulletin header's
 * day-hour-minute token is counted from.
 */
module SynopDecoder {
  import opened Wrappers
  import opened Text
  import opened Seqs

  /** A decoded report: the station's index number, the report time and the
      air temperature in tenths of a degree, if the report carried a usable one. */
  datatype SynopObservation = SynopObservation(stationId: string, timestamp: int, temperature: Option<int>)

  // ---------------------------------------------------------------------
  // the station group IIiii
  // ---------------------------------------------------------------------

  /** How many leading groups are searched for the station index. */
  const StationSearchWidth: nat := 5

  /** `IIiii`: exactly five digits, and not a `999..` marker group. */
  predicate IsStationGroup(g: string) {
    |g| == 5 && AllDigits(g) && !StartsWith(g, "999")
  }

  /** The position of the first station group among the first five groups, searching from `i`. */
  function StationIndexFrom(groups: seq<string>, i: nat): (k: Option<nat>)
    requires i <= StationSearchWidth
    ensures k.Some? ==> i <= k.value < |groups| && k.value < StationSearchWidth && IsStationGroup(groups[k.value])
    ensures k.Some? ==> forall j :: i <= j < k.value ==> !IsStationGroup(groups[j])
    ensures k.None? ==> forall j :: i <= j < |groups| && j < StationSearchWidth ==> !IsStationGroup(groups[j])
    decreases StationSearchWidth - i
  {
    if i >= |groups| || i >= StationSearchWidth then None
    else if IsStationGroup(groups[i]) then Some(i)
    else StationIndexFrom(groups, i + 1)
  }

  function StationIndex(groups: seq<string>): Option<nat> {
    StationIndexFrom(groups, 0)
  }

  // ---------------------------------------------------------------------
  // the temperature group 1SnTTT
  // ---------------------------------------------------------------------

  /** Magnitudes from this value up are missing-value codes, not temperatures. */
  const MissingMagnitude: nat := 900
  /** The plausible range of surface air temperature, -90.0 to +60.0 degrees. */
  const LowestTenths: int := -900
  const HighestTenths: int := 600

  /** `1SnTTT`: the group indicator `1`, the sign `0` or `1`, three digits. */
  predicate IsTemperatureGroup(g: string) {
    |g| == 5 && g[0] == '1' && (g[1] == '0' || g[1] == '1') && AllDigits(g[2..])
  }

  /** The temperature a single group contributes as a candidate, if any. A group
      is a candidate exactly when it is a temperature group whose magnitude is
      below the missing-value codes and whose value is not above +60.0 degrees
      (every negative value with such a magnitude is at or above -89.9). */
  function GroupTemperature(g: string): (t: Option<int>)
    ensures t.Some? <==> IsTemperatureGroup(g) && DigitsValue(g[2..]) < MissingMagnitude
                         && (g[1] == '1' || DigitsValue(g[2..]) <= HighestTenths)
    ensures t.Some? ==> -(MissingMagnitude as int) < t.value <= HighestTenths
    ensures t.Some? ==> (if g[1] == '1' then -t.value else t.value) == DigitsValue(g[2..])
  {
    if !IsTemperatureGroup(g) then None
    else
      var magnitude: int := DigitsValue(g[2..]);
      var tenths := if g[1] == '1' then -magnitude else magnitude;
      if magnitude < MissingMagnitude && LowestTenths <= tenths <= HighestTenths then Some(tenths)
      else None
  }

  /** The group that reports `t` tenths: `1`, the sign digit, three digits. */
  function TemperatureGroup(t: int): (g: string)
    requires -(MissingMagnitude as int) < t < MissingMagnitude as int
    ensures IsTemperatureGroup(g)
  {
    var magnitude := if t < 0 then -t else t;
    assert Pow10(3) == 1000;
    ['1', if t < 0 then '1' else '0'] + PadDigits(magnitude, 3)
  }

  /** Every plausible temperature survives being written as a group and read back. */
  lemma GroupTemperatureOfGroup(t: int)
    requires -(MissingMagnitude as int) < t <= HighestTenths
    ensures GroupTemperature(TemperatureGroup(t)) == Some(t)
  {
    var g := TemperatureGroup(t);
    var magnitude := if t < 0 then -t else t;
    assert Pow10(3) == 1000;
    assert g[2..] == PadDigits(magnitude, 3);
    DigitsValueOfPad(magnitude, 3);
  }

  /** A group read as a temperature is the group written for that temperature,
      except that a negative zero `11000` reads as zero. */
  lemma GroupOfGroupTemperature(g: string)
    requires GroupTemperature(g).Some?
    requires g != "11000"
    ensures TemperatureGroup(GroupTemperature(g).value) == g
  {
    var t := GroupTemperature(g).value;
    var digits := g[2..];
    var magnitude := DigitsValue(digits);
    assert Pow10(3) == 1000;
    assert |digits| == 3;
    DigitsOfValue(digits);
    if g[1] == '1' {
      assert magnitude != 0;
    }
    assert g == [g[0], g[1]] + digits;
  }

  // ---------------------------------------------------------------------
  // candidates and the position heuristic
  // ---------------------------------------------------------------------

  /** A candidate temperature and the position of its group in the line. */
  datatype Candidate = Candidate(temp: int, position: nat)

  /** The candidates among the groups at positions `lo` up to `hi`, in order. */
  function Candidates(groups: seq<string>, lo: nat, hi: nat): (cs: seq<Candidate>)
    requires lo <= hi <= |groups|
    ensures forall j :: 0 <= j < |cs| ==>
      (lo <= cs[j].position < hi && GroupTemperature(groups[cs[j].position]) == Some(cs[j].temp))
    ensures forall j, l :: 0 <= j < l < |cs| ==> (cs[j].position < cs[l].position)
    decreases hi - lo
  {
    if hi == lo then []
    else
      var earlier := Candidates(groups, lo, hi - 1);
      match GroupTemperature(groups[hi - 1])
      case Some(t) => earlier + [Candidate(t, hi - 1)]
      case None => earlier
  }

  /** Every candidate group in the range is listed. */
  lemma {:induction false} CandidatesComplete(groups: seq<string>, lo: nat, hi: nat, p: nat) returns (j: nat)
    requires lo <= p < hi <= |groups|
    requires GroupTemperature(groups[p]).Some?
    ensures j < |Candidates(groups, lo, hi)| && Candidates(groups, lo, hi)[j].position == p
    decreases hi - lo
  {
    var cs := Candidates(groups, lo, hi);
    if p == hi - 1 {
      j := |cs| - 1;
      assert cs[j].position == p;
    } else {
      j := CandidatesComplete(groups, lo, hi - 1, p);
      assert cs[j] == Candidates(groups, lo, hi - 1)[j];
    }
  }

  /** The index of the first candidate at or after position `threshold`, searching from `i`. */
  function FirstAtOrAfter(cs: seq<Candidate>, threshold: nat, i: nat): (j: Option<nat>)
    requires i <= |cs|
    ensures j.Some? ==> i <= j.value < |cs| && cs[j.value].position >= threshold
    ensures j.Some? ==> forall l :: i <= l < j.value ==> cs[l].position < threshold
    ensures j.None? ==> forall l :: i <= l < |cs| ==> cs[l].position < threshold
    decreases |cs| - i
  {
    if i == |cs| then None
    else if cs[i].position >= threshold then Some(i)
    else FirstAtOrAfter(cs, threshold, i + 1)
  }

  /** The chosen temperature: the first candidate at or after `threshold`,
      otherwise the last candidate, and none when there is no candidate. */
  function ChooseTemperature(cs: seq<Candidate>, threshold: nat): Option<int> {
    if cs == [] then None
    else match FirstAtOrAfter(cs, threshold, 0)
      case Some(j) => Some(cs[j].temp)
      case None => Some(cs[|cs| - 1].temp)
  }

  // ---------------------------------------------------------------------
  // one report line
  // ---------------------------------------------------------------------

  /** The fewest groups a report line must have. */
  const MinGroups: nat := 3
  /** Temperature groups this far after the station group are preferred. */
  const PreferredOffset: nat := 3

  /** A report given as its groups, stamped with `timestamp`. */
  function DecodeGroups(groups: seq<string>, timestamp: int): Option<SynopObservation> {
    if |groups| < MinGroups then None
    else match StationIndex(groups)
      case None => None
      case Some(k) =>
        var cs := Candidates(groups, k + 1, |groups|);
        Some(SynopObservation(groups[k], timestamp, ChooseTemperature(cs, k + PreferredOffset)))
  }

  /** `decodeSynopMessage(line, bulletinTimestamp)`: the report on one line,
      stamped with the bulletin time when there is one and with `now` otherwise. */
  function Decode(line: string, bulletinTimestamp: Option<int>, now: int): Option<SynopObservation> {
    DecodeGroups(SplitWhitespace(line), bulletinTimestamp.GetOr(now))
  }

  lemma DecodeGroupsWithStation(groups: seq<string>, timestamp: int, k: nat)
    requires |groups| >= MinGroups && StationIndex(groups) == Some(k)
    ensures DecodeGroups(groups, timestamp) ==
      Some(SynopObservation(groups[k], timestamp, ChooseTemperature(Candidates(groups, k + 1, |groups|), k + PreferredOffset)))
  {
  }

  /** What a decoded line is, stated on its groups without the helper functions. */
  lemma DecodeGroupsMeaning(groups: seq<string>, timestamp: int)
    ensures DecodeGroups(groups, timestamp).None? <==>
      |groups| < MinGroups || forall i :: 0 <= i < |groups| && i < StationSearchWidth ==> !IsStationGroup(groups[i])
    ensures DecodeGroups(groups, timestamp).Some? ==>
      var r := DecodeGroups(groups, timestamp).value;
      exists k :: 0 <= k < |groups| && k < StationSearchWidth && IsStationGroup(groups[k])
        && (forall i :: 0 <= i < k ==> !IsStationGroup(groups[i]))
        && r.stationId == groups[k] && r.timestamp == timestamp
        && TemperatureChosen(groups, k, r.temperature)
  {
    if |groups| >= MinGroups && StationIndex(groups).Some? {
      var k := StationIndex(groups).value;
      var t := ChooseTemperature(Candidates(groups, k + 1, |groups|), k + PreferredOffset);
      DecodeGroupsWithStation(groups, timestamp, k);
      ChooseTemperatureMeaning(groups, k);
      assert TemperatureChosen(groups, k, t);
      assert DecodeGroups(groups, timestamp).value == SynopObservation(groups[k], timestamp, t);
    }
  }

  /** `t` is the temperature chosen for a report whose station group is at `k`. */
  ghost predicate TemperatureChosen(groups: seq<string>, k: nat, t: Option<int>)
    requires k < |groups|
  {
    if t.None? then
      forall p :: k < p < |groups| ==> GroupTemperature(groups[p]).None?
    else
      exists p :: k < p < |groups| && GroupTemperature(groups[p]) == t &&
        if p >= k + PreferredOffset then
          forall q :: k + PreferredOffset <= q < p ==> GroupTemperature(groups[q]).None?
        else
          forall q :: p < q < |groups| ==> GroupTemperature(groups[q]).None?
  }

  /** The position heuristic: no candidate gives no temperature; otherwise the
      first candidate at least three groups after the station group wins, and
      when there is none the last candidate does. */
  lemma ChooseTemperatureMeaning(groups: seq<string>, k: nat)
    requires k < |groups|
    ensures TemperatureChosen(groups, k, ChooseTemperature(Candidates(groups, k + 1, |groups|), k + PreferredOffset))
  {
    var cs := Candidates(groups, k + 1, |groups|);
    if cs == [] {
      NoCandidates(groups, k);
    } else if FirstAtOrAfter(cs, k + PreferredOffset, 0).Some? {
      PreferredCandidate(groups, k);
    } else {
      LastCandidate(groups, k);
    }
  }

  /** A range of positions after the station group that holds no candidate
      holds no temperature group. */
  lemma NoCandidateIn(groups: seq<string>, k: nat, a: nat, b: nat)
    requires k < |groups| && b <= |groups|
    requires var cs := Candidates(groups, k + 1, |groups|);
      forall l :: 0 <= l < |cs| ==> !(a <= cs[l].position < b)
    ensures forall q :: k < q && a <= q < b ==> GroupTemperature(groups[q]).None?
  {
    forall q | k < q && a <= q < b
      ensures GroupTemperature(groups[q]).None?
    {
      if GroupTemperature(groups[q]).Some? {
        var j := CandidatesComplete(groups, k + 1, |groups|, q);
      }
    }
  }

  lemma NoCandidates(groups: seq<string>, k: nat)
    requires k < |groups|
    requires Candidates(groups, k + 1, |groups|) == []
    ensures forall p :: k < p < |groups| ==> GroupTemperature(groups[p]).None?
  {
    NoCandidateIn(groups, k, k + 1, |groups|);
  }

  lemma PreferredCandidate(groups: seq<string>, k: nat)
    requires k < |groups|
    requires FirstAtOrAfter(Candidates(groups, k + 1, |groups|), k + PreferredOffset, 0).Some?
    ensures var cs := Candidates(groups, k + 1, |groups|);
      var p := cs[FirstAtOrAfter(cs, k + PreferredOffset, 0).value].position;
      k < p < |groups| && p >= k + PreferredOffset &&
      forall q :: k + PreferredOffset <= q < p ==> GroupTemperature(groups[q]).None?
  {
    var cs := Candidates(groups, k + 1, |groups|);
    var j := FirstAtOrAfter(cs, k + PreferredOffset, 0).value;
    var p := cs[j].position;
    forall l | 0 <= l < |cs|
      ensures !(k + PreferredOffset <= cs[l].position < p)
    {
      if l > j {
        assert cs[j].position < cs[l].position;
      }
    }
    NoCandidateIn(groups, k, k + PreferredOffset, p);
  }

  lemma LastCandidate(groups: seq<string>, k: nat)
    requires k < |groups|
    requires Candidates(groups, k + 1, |groups|) != []
    requires FirstAtOrAfter(Candidates(groups, k + 1, |groups|), k + PreferredOffset, 0).None?
    ensures var cs := Candidates(groups, k + 1, |groups|);
      var p := cs[|cs| - 1].position;
      k < p < k + PreferredOffset &&
      forall q :: p < q < |groups| ==> GroupTemperature(groups[q]).None?
  {
    var cs := Candidates(groups, k + 1, |groups|);
    var last := |cs| - 1;
    var p := cs[last].position;
    forall l | 0 <= l < |cs|
      ensures cs[l].position <= p
    {
      if l < last {
        assert cs[l].position < cs[last].position;
      }
    }
    NoCandidateIn(groups, k, p + 1, |groups|);
  }

  /** A temperature group exactly three groups after the station group is the
      one chosen, whatever comes before or after it. */
  lemma DecodeGroupsPreferred(groups: seq<string>, timestamp: int, k: nat, t: int)
    requires |groups| >= MinGroups && StationIndex(groups) == Some(k)
    requires k + PreferredOffset < |groups| && GroupTemperature(groups[k + PreferredOffset]) == Some(t)
    ensures DecodeGroups(groups, timestamp) == Some(SynopObservation(groups[k], timestamp, Some(t)))
  {
    var p := k + PreferredOffset;
    var cs := Candidates(groups, k + 1, |groups|);
    var j := CandidatesComplete(groups, k + 1, |groups|, p);
    var first := FirstAtOrAfter(cs, p, 0);
    assert first == Some(j) by {
      assert first.Some?;
      var j' := first.value;
      assert !(j' < j);
      assert !(j' > j);
    }
    DecodeGroupsWithStation(groups, timestamp, k);
  }

  /** Every temperature a report carries is within -89.9 and +60.0 degrees. */
  lemma DecodedTemperatureInRange(groups: seq<string>, timestamp: int)
    requires DecodeGroups(groups, timestamp).Some?
    requires DecodeGroups(groups, timestamp).value.temperature.Some?
    ensures -(MissingMagnitude as int) < DecodeGroups(groups, timestamp).value.temperature.value <= HighestTenths
    ensures DecodeGroups(groups, timestamp).value.timestamp == timestamp
  {
    var k := StationIndex(groups).value;
    var cs := Candidates(groups, k + 1, |groups|);
    var t := ChooseTemperature(cs, k + PreferredOffset).value;
    assert exists j :: 0 <= j < |cs| && cs[j].temp == t;
  }

  /** `decodeSynopMessage`: splits the line into groups, finds the station
      group, collects the temperature candidates and applies the position
      heuristic. */
  method DecodeSynopMessage(line: string, bulletinTimestamp: Option<int>, now: int)
    returns (r: Option<SynopObservation>)
    ensures r == Decode(line, bulletinTimestamp, now)
  {
    var groups := SplitWhitespace(line);
    if |groups| < MinGroups {
      return None;
    }
    var station := FindStationGroup(groups);
    if station.None? {
      return None;
    }
    var k := station.value;
    var candidates := CollectCandidates(groups, k);
    var temperature := PickTemperature(candidates, k + PreferredOffset);
    var timestamp := if bulletinTimestamp.Some? then bulletinTimestamp.value else now;
    DecodeGroupsWithStation(groups, timestamp, k);
    return Some(SynopObservation(groups[k], timestamp, temperature));
  }

  /** The search for the station group among the first five groups. */
  method FindStationGroup(groups: seq<string>) returns (k: Option<nat>)
    ensures k == StationIndex(groups)
  {
    var limit := if |groups| < StationSearchWidth then |groups| else StationSearchWidth;
    var i := 0;
    while i < limit
      invariant 0 <= i <= limit
      invariant StationIndexFrom(groups, i) == StationIndex(groups)
    {
      if IsStationGroup(groups[i]) {
        return Some(i);
      }
      i := i + 1;
    }
    return None;
  }

  /** The scan of the groups after the station group for temperature candidates. */
  method CollectCandidates(groups: seq<string>, k: nat) returns (candidates: seq<Candidate>)
    requires k < |groups|
    ensures candidates == Candidates(groups, k + 1, |groups|)
  {
    candidates := [];
    var p := k + 1;
    while p < |groups|
      invariant k + 1 <= p <= |groups|
      invariant candidates == Candidates(groups, k + 1, p)
    {
      var group := groups[p];
      if IsTemperatureGroup(group) {
        var sign := group[1];
        var magnitude: int := DigitsValue(group[2..]);
        if magnitude < MissingMagnitude {
          var temp := if sign == '1' then -magnitude else magnitude;
          if LowestTenths <= temp <= HighestTenths {
            candidates := candidates + [Candidate(temp, p)];
          }
        }
      }
      p := p + 1;
    }
  }

  /** The position heuristic over the collected candidates. */
  method PickTemperature(candidates: seq<Candidate>, threshold: nat) returns (temperature: Option<int>)
    ensures temperature == ChooseTemperature(candidates, threshold)
  {
    temperature := None;
    if |candidates| > 0 {
      var j := 0;
      while j < |candidates| && candidates[j].position < threshold
        invariant 0 <= j <= |candidates|
        invariant FirstAtOrAfter(candidates, threshold, j) == FirstAtOrAfter(candidates, threshold, 0)
      {
        j := j + 1;
      }
      temperature := if j < |candidates| then Some(candidates[j].temp) else Some(candidates[|candidates| - 1].temp);
    }
  }

  // ---------------------------------------------------------------------
  // the bulletin header's day-hour-minute token
  // ---------------------------------------------------------------------

  /** `Date.UTC(year, month, day, hour, minute)` for the month that starts at
      `monthStart`: a day is 86400000 ms, an hour 3600000 ms and a minute
      60000 ms, and fields beyond their usual range carry over, as in `Date.UTC`. */
  function BulletinInstant(monthStart: int, day: int, hour: int, minute: int): int {
    monthStart + (day - 1) * 86400000 + hour * 3600000 + minute * 60000
  }

  /** `YYGGgg`: six digits, day of month, hour and minute. */
  predicate IsDayTimeToken(token: string) {
    |token| == 6 && AllDigits(token)
  }

  function TokenDay(token: string): nat requires IsDayTimeToken(token) { DigitsValue(token[0..2]) }
  function TokenHour(token: string): nat requires IsDayTimeToken(token) { DigitsValue(token[2..4]) }
  function TokenMinute(token: string): nat requires IsDayTimeToken(token) { DigitsValue(token[4..6]) }

  /** `parseBulletinTimestamp(header)`: the instant named by the third token of
      the header, in the month that starts at `monthStart`, or none when the
      header has fewer than three tokens or the third is not six digits. */
  function ParseBulletinTimestamp(header: string, monthStart: int): Option<int> {
    var parts := SplitWhitespace(header);
    if |parts| < 3 then None
    else
      var token := parts[2];
      if !IsDayTimeToken(token) then None
      else Some(BulletinInstant(monthStart, TokenDay(token), TokenHour(token), TokenMinute(token)))
  }

  /** The token for a day, an hour and a minute, each written with two digits. */
  function DayTimeToken(day: nat, hour: nat, minute: nat): (token: string)
    requires day < 100 && hour < 100 && minute < 100
    ensures IsDayTimeToken(token)
  {
    assert Pow10(2) == 100;
    PadDigits(day, 2) + PadDigits(hour, 2) + PadDigits(minute, 2)
  }

  /** Reading a written token gives back its day, hour and minute. */
  lemma DayTimeTokenFields(day: nat, hour: nat, minute: nat)
    requires day < 100 && hour < 100 && minute < 100
    ensures var token := DayTimeToken(day, hour, minute);
      TokenDay(token) == day && TokenHour(token) == hour && TokenMinute(token) == minute
  {
    assert Pow10(2) == 100;
    var token := DayTimeToken(day, hour, minute);
    assert token[0..2] == PadDigits(day, 2);
    assert token[2..4] == PadDigits(hour, 2);
    assert token[4..6] == PadDigits(minute, 2);
    DigitsValueOfPad(day, 2);
    DigitsValueOfPad(hour, 2);
    DigitsValueOfPad(minute, 2);
  }

  /** A header whose third token was written for a day, hour and minute is read
      as that instant of the month, whatever the first two tokens and the rest are. */
  lemma ParseBulletinTimestampOfHeader(first: string, second: string, day: nat, hour: nat, minute: nat,
                                       rest: seq<string>, monthStart: int)
    requires day < 100 && hour < 100 && minute < 100
    requires first != [] && NoSpace(first) && second != [] && NoSpace(second)
    requires forall i :: 0 <= i < |rest| ==> rest[i] != [] && NoSpace(rest[i])
    ensures ParseBulletinTimestamp(Join([first, second, DayTimeToken(day, hour, minute)] + rest, " "), monthStart)
            == Some(BulletinInstant(monthStart, day, hour, minute))
  {
    var token := DayTimeToken(day, hour, minute);
    var ws := [first, second, token] + rest;
    DigitsHaveNoSpace(token);
    HeaderWords(first, second, token, rest);
    SplitWhitespaceOfJoin(ws);
    DayTimeTokenFields(day, hour, minute);
    assert ws[2] == token;
  }

  lemma HeaderWords(first: string, second: string, token: string, rest: seq<string>)
    requires first != [] && NoSpace(first) && second != [] && NoSpace(second) && token != [] && NoSpace(token)
    requires forall i :: 0 <= i < |rest| ==> rest[i] != [] && NoSpace(rest[i])
    ensures var ws := [first, second, token] + rest;
      forall i :: 0 <= i < |ws| ==> ws[i] != [] && NoSpace(ws[i])
  {
    var ws := [first, second, token] + rest;
    forall i | 0 <= i < |ws| ensures ws[i] != [] && NoSpace(ws[i]) {
      if i >= 3 { assert ws[i] == rest[i - 3]; }
    }
  }

  /** A numeral holds no white space. */
  lemma DigitsHaveNoSpace(s: string)
    requires AllDigits(s)
    ensures NoSpace(s)
  {
    forall i | 0 <= i < |s| ensures !IsSpace(s[i]) {
      assert IsDigit(s[i]);
    }
  }

  /** The value of a token read as one six-digit number. */
  lemma TokenValue(token: string)
    requires IsDayTimeToken(token)
    ensures DigitsValue(token) == TokenDay(token) * 10000 + TokenHour(token) * 100 + TokenMinute(token)
  {
    var d, h, m := token[0..2], token[2..4], token[4..6];
    assert token == d + (h + m);
    DigitsValueConcat(h, m);
    DigitsValueConcat(d, h + m);
    ShiftSmall(DigitsValue(h));
    ShiftSmall(DigitsValue(d));
  }

  /** Day-hour-minute triples with hours below 24 and minutes below 60 are
      ordered alike as six-digit numbers and as instants of the month. */
  lemma DayTimeOrder(d1: nat, h1: nat, m1: nat, d2: nat, h2: nat, m2: nat, monthStart: int)
    requires h1 < 24 && m1 < 60 && h2 < 24 && m2 < 60
    ensures d1 * 10000 + h1 * 100 + m1 < d2 * 10000 + h2 * 100 + m2
            <==> BulletinInstant(monthStart, d1, h1, m1) < BulletinInstant(monthStart, d2, h2, m2)
  {
    if d1 < d2 {
      assert d1 * 10000 + 10000 <= d2 * 10000;
      assert (d1 - 1) * 86400000 + 86400000 <= (d2 - 1) * 86400000;
    } else if d1 > d2 {
      assert d2 * 10000 + 10000 <= d1 * 10000;
      assert (d2 - 1) * 86400000 + 86400000 <= (d1 - 1) * 86400000;
    } else if h1 < h2 {
      assert h1 * 3600000 + 3600000 <= h2 * 3600000;
    } else if h1 > h2 {
      assert h2 * 3600000 + 3600000 <= h1 * 3600000;
    }
  }

  /** Within a month, tokens whose hour is below 24 and whose minute is below 60
      name later instants exactly when they are later in string order. The
      deduplication of reports keeps the report with the later instant, so
      this says which heading's reports win: the one with the later day-time
      token. */
  lemma BulletinInstantOrder(a: string, b: string, monthStart: int)
    requires IsDayTimeToken(a) && IsDayTimeToken(b)
    requires TokenHour(a) < 24 && TokenMinute(a) < 60 && TokenHour(b) < 24 && TokenMinute(b) < 60
    ensures BulletinInstant(monthStart, TokenDay(a), TokenHour(a), TokenMinute(a))
            < BulletinInstant(monthStart, TokenDay(b), TokenHour(b), TokenMinute(b))
            <==> LexLess(a, b)
  {
    LexLessDigits(a, b);
    TokenValue(a);
    TokenValue(b);
    DayTimeOrder(TokenDay(a), TokenHour(a), TokenMinute(a), TokenDay(b), TokenHour(b), TokenMinute(b), monthStart);
  }

  // ---------------------------------------------------------------------
  // a whole bulletin
  // ---------------------------------------------------------------------

  /** The lines that carry no report: empty lines, the `SM..` heading, the
      `AAXX` marker, and short `=`-terminated tails of a report. */
  predicate SkippedLine(trimmed: string) {
    || trimmed == []
    || StartsWith(trimmed, "SM")
    || trimmed == "AAXX"
    || (EndsWith(trimmed, "=") && |trimmed| < 10)
  }

  /** What one line of a bulletin contributes: its report when the line is not
      skipped and the report has a temperature. */
  function LineReport(line: string, bulletinTimestamp: Option<int>, now: int): Option<SynopObservation> {
    var trimmed := Trim(line);
    if SkippedLine(trimmed) then None
    else match Decode(trimmed, bulletinTimestamp, now)
      case Some(obs) => if obs.temperature.Some? then Some(obs) else None
      case None => None
  }

  /** What each line contributes, line by line. */
  function LineReports(lines: seq<string>, bulletinTimestamp: Option<int>, now: int): seq<Option<SynopObservation>> {
    MapSeq(line => LineReport(line, bulletinTimestamp, now), lines)
  }

  /** The reports of the lines, in line order. */
  function Reports(lines: seq<string>, bulletinTimestamp: Option<int>, now: int): seq<SynopObservation> {
    Present(LineReports(lines, bulletinTimestamp, now))
  }

  /** The time in the heading, the first line, of a bulletin. */
  function HeaderTimestamp(bulletin: string, monthStart: int): Option<int> {
    ParseBulletinTimestamp(SplitOn(bulletin, '\n')[0], monthStart)
  }

  /** `parseSynopBulletin(bulletin)`. */
  function ParseBulletin(bulletin: string, monthStart: int, now: int): seq<SynopObservation> {
    Reports(SplitOn(bulletin, '\n'), HeaderTimestamp(bulletin, monthStart), now)
  }

  /** The reports of two runs of lines one after the other are the reports of
      the first run followed by those of the second. */
  lemma ReportsAppend(a: seq<string>, b: seq<string>, bulletinTimestamp: Option<int>, now: int)
    ensures Reports(a + b, bulletinTimestamp, now) == Reports(a, bulletinTimestamp, now) + Reports(b, bulletinTimestamp, now)
  {
    var ra, rb := LineReports(a, bulletinTimestamp, now), LineReports(b, bulletinTimestamp, now);
    MapSeqAppend(line => LineReport(line, bulletinTimestamp, now), a, b);
    PresentAppend(ra, rb);
  }

  /** At most one report per line; every report has a temperature in range and
      carries the bulletin time, or `now` when the heading gave none. */
  lemma ReportsShape(lines: seq<string>, bulletinTimestamp: Option<int>, now: int)
    ensures |Reports(lines, bulletinTimestamp, now)| <= |lines|
    ensures forall obs :: obs in Reports(lines, bulletinTimestamp, now) ==>
      obs.temperature.Some? && -(MissingMagnitude as int) < obs.temperature.value <= HighestTenths
      && obs.timestamp == bulletinTimestamp.GetOr(now)
  {
    var rs := LineReports(lines, bulletinTimestamp, now);
    forall i | 0 <= i < |rs| && rs[i].Some?
      ensures var obs := rs[i].value;
        obs.temperature.Some? && -(MissingMagnitude as int) < obs.temperature.value <= HighestTenths
        && obs.timestamp == bulletinTimestamp.GetOr(now)
    {
      LineReportShape(lines[i], bulletinTimestamp, now);
    }
    PresentFrom(rs);
  }

  lemma LineReportShape(line: string, bulletinTimestamp: Option<int>, now: int)
    requires LineReport(line, bulletinTimestamp, now).Some?
    ensures var obs := LineReport(line, bulletinTimestamp, now).value;
      obs.temperature.Some? && -(MissingMagnitude as int) < obs.temperature.value <= HighestTenths
      && obs.timestamp == bulletinTimestamp.GetOr(now)
  {
    var trimmed := Trim(line);
    var groups := SplitWhitespace(trimmed);
    var timestamp := bulletinTimestamp.GetOr(now);
    assert Decode(trimmed, bulletinTimestamp, now) == DecodeGroups(groups, timestamp);
    assert LineReport(line, bulletinTimestamp, now) == DecodeGroups(groups, timestamp);
    DecodedTemperatureInRange(groups, timestamp);
  }

  /** A line made of words separated by single spaces contributes the report of
      those words, unless the line is one of the skipped kinds. */
  lemma LineReportOfWords(ws: seq<string>, bulletinTimestamp: Option<int>, now: int)
    requires ws != []
    requires forall i :: 0 <= i < |ws| ==> ws[i] != [] && NoSpace(ws[i])
    ensures var line := Join(ws, " ");
      LineReport(line, bulletinTimestamp, now) ==
        if SkippedLine(line) then None
        else match DecodeGroups(ws, bulletinTimestamp.GetOr(now))
          case Some(obs) => if obs.temperature.Some? then Some(obs) else None
          case None => None
  {
    var line := Join(ws, " ");
    TrimOfJoin(ws);
    DecodeOfWords(ws, bulletinTimestamp, now);
  }

  /** A line of words separated by single spaces decodes as those words. */
  lemma DecodeOfWords(ws: seq<string>, bulletinTimestamp: Option<int>, now: int)
    requires ws != []
    requires forall i :: 0 <= i < |ws| ==> ws[i] != [] && NoSpace(ws[i])
    ensures Decode(Join(ws, " "), bulletinTimestamp, now) == DecodeGroups(ws, bulletinTimestamp.GetOr(now))
  {
    SplitWhitespaceOfJoin(ws);
  }

  /** `parseSynopBulletin`: the heading's time is read first, then every line
      that is not skipped is decoded and kept when it has a temperature. */
  method ParseSynopBulletin(bulletin: string, monthStart: int, now: int) returns (observations: seq<SynopObservation>)
    ensures observations == ParseBulletin(bulletin, monthStart, now)
  {
    var lines := SplitOn(bulletin, '\n');
    var bulletinTimestamp := ParseBulletinTimestamp(lines[0], monthStart);
    observations := ReportLines(lines, bulletinTimestamp, now);
  }

  /** The loop of `parseSynopBulletin` over the lines of a bulletin. */
  method ReportLines(lines: seq<string>, bulletinTimestamp: Option<int>, now: int)
    returns (observations: seq<SynopObservation>)
    ensures observations == Reports(lines, bulletinTimestamp, now)
  {
    observations := [];
    var i := 0;
    while i < |lines|
      invariant 0 <= i <= |lines|
      invariant observations == Present(LineReports(lines[..i], bulletinTimestamp, now))
    {
      var report := DecodeLine(lines[i], bulletinTimestamp, now);
      LineReportsSnoc(lines, i, bulletinTimestamp, now);
      observations := observations + Kept(report);
      i := i + 1;
    }
    assert lines[..i] == lines;
  }

  /** One pass of the loop body of `parseSynopBulletin`: skip, or decode and keep. */
  method DecodeLine(line: string, bulletinTimestamp: Option<int>, now: int) returns (report: Option<SynopObservation>)
    ensures report == LineReport(line, bulletinTimestamp, now)
  {
    var trimmed := Trim(line);
    if SkippedLine(trimmed) {
      return None;
    }
    var obs := DecodeSynopMessage(trimmed, bulletinTimestamp, now);
    if obs.Some? && obs.value.temperature.Some? {
      return obs;
    }
    return None;
  }

  lemma LineReportsSnoc(lines: seq<string>, i: nat, bulletinTimestamp: Option<int>, now: int)
    requires i < |lines|
    ensures Present(LineReports(lines[..i + 1], bulletinTimestamp, now)) ==
      Present(LineReports(lines[..i], bulletinTimestamp, now))
      + Kept(LineReport(lines[i], bulletinTimestamp, now))
  {
    var prefix := LineReports(lines[..i + 1], bulletinTimestamp, now);
    assert prefix[..i] == LineReports(lines[..i], bulletinTimestamp, now);
    assert prefix[i] == LineReport(lines[i], bulletinTimestamp, now);
  }

  // ---------------------------------------------------------------------
  // filterValidTemperatures
  // ---------------------------------------------------------------------

  /** A temperature is kept when it is present and below 100 degrees in magnitude. */
  predicate HasValidTemperature(obs: SynopObservation) {
    obs.temperature.Some? && -1000 < obs.temperature.value < 1000
  }

  /** `filterValidTemperatures(observations)`. */
  function FilterValidTemperatures(observations: seq<SynopObservation>): (kept: seq<SynopObservation>)
    ensures |kept| <= |observations|
    ensures forall obs :: obs in kept <==> obs in observations && HasValidTemperature(obs)
  {
    if observations == [] then []
    else
      var rest := FilterValidTemperatures(observations[1..]);
      assert forall obs :: obs in observations <==> obs == observations[0] || obs in observations[1..];
      if HasValidTemperature(observations[0]) then [observations[0]] + rest else rest
  }

  /** The filter keeps the order: filtering two lists one after the other is
      filtering each. */
  lemma {:induction false} FilterValidTemperaturesAppend(a: seq<SynopObservation>, b: seq<SynopObservation>)
    ensures FilterValidTemperatures(a + b) == FilterValidTemperatures(a) + FilterValidTemperatures(b)
  {
    if a != [] {
      assert (a + b)[0] == a[0];
      assert (a + b)[1..] == a[1..] + b;
      FilterValidTemperaturesAppend(a[1..], b);
    } else {
      assert a + b == b;
    }
  }

  /** A list whose every temperature is valid passes the filter unchanged. */
  lemma {:induction false} FilterValidTemperaturesOfValid(observations: seq<SynopObservation>)
    requires forall i :: 0 <= i < |observations| ==> HasValidTemperature(observations[i])
    ensures FilterValidTemperatures(observations) == observations
  {
    if observations != [] {
      FilterValidTemperaturesOfValid(observations[1..]);
    }
  }

  /** Filtering twice is filtering once. */
  lemma FilterValidTemperaturesIdempotent(observations: seq<SynopObservation>)
    ensures FilterValidTemperatures(FilterValidTemperatures(observations)) == FilterValidTemperatures(observations)
  {
    var kept := FilterValidTemperatures(observations);
    assert forall i :: 0 <= i < |kept| ==> kept[i] in kept;
    FilterValidTemperaturesOfValid(kept);
  }

  /** Every report of a bulletin already passes the filter. */
  lemma FilterValidTemperaturesOfBulletin(bulletin: string, monthStart: int, now: int)
    ensures FilterValidTemperatures(ParseBulletin(bulletin, monthStart, now)) == ParseBulletin(bulletin, monthStart, now)
  {
    var reports := ParseBulletin(bulletin, monthStart, now);
    ReportsShape(SplitOn(bulletin, '\n'), HeaderTimestamp(bulletin, monthStart), now);
    assert forall i :: 0 <= i < |reports| ==> reports[i] in reports;
    FilterValidTemperaturesOfValid(reports);
  }
}
