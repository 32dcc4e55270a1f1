/**
 * Reports from a Russian SYNOP bulletin (heading `SMRA10 RUHB 090000`), decoded
 * line by line: the worked cases of the station and temperature rules.
 */
module SynopSamples {
  import opened Wrappers
  import opened Text
  import opened SynopDecoder

  /** `30372 12699 61501 11338 ...`: station 30372 at -33.8 degrees, from the
      temperature group in the fourth position. */
  lemma Station30372(timestamp: int)
    ensures DecodeGroups(["30372", "12699", "61501", "11338", "21377", "39283", "40264",
                          "52012", "60002", "85931", "333", "21349"], timestamp)
            == Some(SynopObservation("30372", timestamp, Some(-338)))
  {
    var groups := ["30372", "12699", "61501", "11338", "21377", "39283", "40264",
                   "52012", "60002", "85931", "333", "21349"];
    assert "30372"[..3][0] == '3';
    assert StationIndex(groups) == Some(0);
    assert PadDigits(338, 3) == "338";
    assert TemperatureGroup(-338) == "11338";
    GroupTemperatureOfGroup(-338);
    DecodeGroupsPreferred(groups, timestamp, 0, -338);
  }

  /** `31285 42999 11802 11209 ...`: -80.2 in the third position is a
      candidate, but -20.9 in the fourth is preferred. */
  lemma Station31285(timestamp: int)
    ensures DecodeGroups(["31285", "42999", "11802", "11209", "21258", "30040", "40124",
                          "53004", "81030="], timestamp)
            == Some(SynopObservation("31285", timestamp, Some(-209)))
  {
    var groups := ["31285", "42999", "11802", "11209", "21258", "30040", "40124", "53004", "81030="];
    assert "31285"[..3][0] == '3';
    assert StationIndex(groups) == Some(0);
    assert PadDigits(802, 3) == "802";
    assert TemperatureGroup(-802) == "11802";
    GroupTemperatureOfGroup(-802);
    assert PadDigits(209, 3) == "209";
    assert TemperatureGroup(-209) == "11209";
    GroupTemperatureOfGroup(-209);
    DecodeGroupsPreferred(groups, timestamp, 0, -209);
  }

  /** Magnitudes 996 and 993 are missing-value codes: those groups give no candidate. */
  lemma MissingValueGroups()
    ensures GroupTemperature("11996") == None
    ensures GroupTemperature("11993") == None
  {
    assert "11996"[2..] == "996";
    assert PadDigits(996, 3) == "996";
    DigitsValueOfPad(996, 3);
    assert "11993"[2..] == "993";
    assert PadDigits(993, 3) == "993";
    DigitsValueOfPad(993, 3);
  }

  /** `30758 11996 13501 11257 ...`: a magnitude of 996 is a missing-value code,
      and the report reads -25.7. */
  lemma Station30758(timestamp: int)
    ensures DecodeGroups(["30758", "11996", "13501", "11257", "21283", "39371", "40272",
                          "52010", "60002", "70500", "81040", "333"], timestamp)
            == Some(SynopObservation("30758", timestamp, Some(-257)))
  {
    var groups := ["30758", "11996", "13501", "11257", "21283", "39371", "40272",
                   "52010", "60002", "70500", "81040", "333"];
    assert "30758"[..3][0] == '3';
    assert StationIndex(groups) == Some(0);
    MissingValueGroups();
    assert PadDigits(257, 3) == "257";
    assert TemperatureGroup(-257) == "11257";
    GroupTemperatureOfGroup(-257);
    DecodeGroupsPreferred(groups, timestamp, 0, -257);
  }

  /** `31300 11993 00000 11251 ...`: 993 is rejected too, and the report reads -25.1. */
  lemma Station31300(timestamp: int)
    ensures DecodeGroups(["31300", "11993", "00000", "11251", "21257", "39864", "40181",
                          "52009", "60002", "74840", "333", "21254"], timestamp)
            == Some(SynopObservation("31300", timestamp, Some(-251)))
  {
    var groups := ["31300", "11993", "00000", "11251", "21257", "39864", "40181",
                   "52009", "60002", "74840", "333", "21254"];
    assert "31300"[..3][0] == '3';
    assert StationIndex(groups) == Some(0);
    MissingValueGroups();
    assert PadDigits(251, 3) == "251";
    assert TemperatureGroup(-251) == "11251";
    GroupTemperatureOfGroup(-251);
    DecodeGroupsPreferred(groups, timestamp, 0, -251);
  }

  /** `21257 47012 55081=`, the tail of the 30758 report on a line of its own,
      reads as a report of station 21257 with no temperature. */
  lemma ContinuationGroups(timestamp: int)
    ensures DecodeGroups(["21257", "47012", "55081="], timestamp)
            == Some(SynopObservation("21257", timestamp, None))
  {
    var groups := ["21257", "47012", "55081="];
    assert "21257"[..3][0] == '2';
    assert StationIndex(groups) == Some(0);
    assert GroupTemperature("47012") == None;
    assert GroupTemperature("55081=") == None;
    assert Candidates(groups, 1, 3) == [];
    DecodeGroupsWithStation(groups, timestamp, 0);
  }

  /** ... so that line of the bulletin contributes nothing. */
  lemma ContinuationLine(ws: seq<string>, bulletinTimestamp: Option<int>, now: int)
    requires ws == ["21257", "47012", "55081="]
    ensures LineReport(Join(ws, " "), bulletinTimestamp, now) == None
  {
    forall i | 0 <= i < |ws| ensures ws[i] != [] && NoSpace(ws[i]) {
      forall c | 0 <= c < |ws[i]| ensures !IsSpace(ws[i][c]) {
      }
    }
    LineReportOfWords(ws, bulletinTimestamp, now);
    ContinuationGroups(bulletinTimestamp.GetOr(now));
  }

  /** `47016 55086=` and `AAXX 09001` have too few groups to be reports. */
  lemma TooFewGroups(timestamp: int)
    ensures DecodeGroups(["47016", "55086="], timestamp) == None
    ensures DecodeGroups(["AAXX", "09001"], timestamp) == None
  {
  }

  /** The day-time token of the heading. */
  lemma HeadingToken()
    ensures DayTimeToken(9, 0, 0) == "090000"
  {
    assert PadDigits(9, 2) == "09" && PadDigits(0, 2) == "00";
  }

  /** The heading `SMRA10 RUHB 090000` names 00:00 UTC on the 9th of the month. */
  lemma Heading(first: string, second: string, monthStart: int)
    requires first == "SMRA10" && second == "RUHB"
    ensures ParseBulletinTimestamp(Join([first, second, "090000"], " "), monthStart) == Some(monthStart + 8 * 86400000)
  {
    HeadingToken();
    assert NoSpace(first) by {
      forall c | 0 <= c < |first| ensures !IsSpace(first[c]) { }
    }
    assert NoSpace(second) by {
      forall c | 0 <= c < |second| ensures !IsSpace(second[c]) { }
    }
    assert [first, second, DayTimeToken(9, 0, 0)] + [] == [first, second, "090000"];
    ParseBulletinTimestampOfHeader(first, second, 9, 0, 0, [], monthStart);
  }
}
