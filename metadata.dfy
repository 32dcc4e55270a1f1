/**
 * The fallback station-name table used by the ranker: a fixed table of
 * well-known ICAO stations, and for every other id a generic name with the
 * country guessed from the first letter of the ICAO code.
 */
module Metadata {
  import opened Wrappers
  import opened Text

  /** A display name and a country. */
  datatype StationInfo = StationInfo(name: string, country: string)

  /** The built-in table, keyed by ICAO code: the entry for `stationId`, if any. */
  function StationEntry(stationId: string): Option<StationInfo>
  {
    match stationId
    // Arctic and Antarctic research stations
    case "NZSP" => Some(StationInfo("Amundsen-Scott South Pole Station", "Antarctica"))
    case "NZPG" => Some(StationInfo("Pegasus Field", "Antarctica"))
    case "NZIR" => Some(StationInfo("McMurdo Station", "Antarctica"))
    case "SAWB" => Some(StationInfo("Belgrano II Base", "Antarctica"))
    // Russia (Siberia)
    case "UHMM" => Some(StationInfo("Mirny Airport", "Russia"))
    case "UEST" => Some(StationInfo("Tiksi Airport", "Russia"))
    case "UOOO" => Some(StationInfo("Oymyakon", "Russia"))
    case "UEEE" => Some(StationInfo("Yakutsk Airport", "Russia"))
    case "UHPP" => Some(StationInfo("Pevek Airport", "Russia"))
    // Canada
    case "CYYC" => Some(StationInfo("Calgary International Airport", "Canada"))
    case "CYEG" => Some(StationInfo("Edmonton International Airport", "Canada"))
    case "CYVR" => Some(StationInfo("Vancouver International Airport", "Canada"))
    case "CYYZ" => Some(StationInfo("Toronto Pearson International", "Canada"))
    case "CYUL" => Some(StationInfo("Montreal-Trudeau International", "Canada"))
    case "CYQB" => Some(StationInfo("Quebec City Jean Lesage International", "Canada"))
    case "CYWG" => Some(StationInfo("Winnipeg James Armstrong Richardson International", "Canada"))
    case "CYOW" => Some(StationInfo("Ottawa Macdonald-Cartier International", "Canada"))
    case "CYHZ" => Some(StationInfo("Halifax Stanfield International", "Canada"))
    case "CYYT" => Some(StationInfo("St. John's International Airport", "Canada"))
    // Greenland
    case "BGBW" => Some(StationInfo("Narsarsuaq Airport", "Greenland"))
    case "BGGH" => Some(StationInfo("Nuuk Airport", "Greenland"))
    case "BGTL" => Some(StationInfo("Thule Air Base", "Greenland"))
    // Alaska
    case "PANC" => Some(StationInfo("Ted Stevens Anchorage International", "United States"))
    case "PAFA" => Some(StationInfo("Fairbanks International Airport", "United States"))
    case "PABR" => Some(StationInfo("Wiley Post-Will Rogers Memorial Airport", "United States"))
    // Well-known stations elsewhere
    case "KJFK" => Some(StationInfo("John F. Kennedy International Airport", "United States"))
    case "EGLL" => Some(StationInfo("London Heathrow Airport", "United Kingdom"))
    case "LFPG" => Some(StationInfo("Paris Charles de Gaulle Airport", "France"))
    case "EDDF" => Some(StationInfo("Frankfurt Airport", "Germany"))
    case "RJTT" => Some(StationInfo("Tokyo Haneda Airport", "Japan"))
    case "YSSY" => Some(StationInfo("Sydney Kingsford Smith Airport", "Australia"))
    case _ => None
  }

  /** The country guessed from an ICAO code outside the table: the chain of
      tests on its first character (`substring(0, 1)`), `NZ` being the only
      two-letter case. */
  function GuessCountry(stationId: string): string {
    var first := if stationId == [] then "" else [stationId[0]];
    if first == "K" then "United States"
    else if first == "C" then "Canada"
    else if first == "E" then "Europe"
    else if first == "U" then "Russia"
    else if first == "Y" then "Australia"
    else if first == "N" && StartsWith(stationId, "NZ") then "Antarctica/New Zealand"
    else if first == "S" then "South America"
    else if first == "P" then "Pacific"
    else "Unknown"
  }

  /** `lookupStationMetadata`: the table entry, or a generic name with a guessed
      country. It never fails. */
  function LookupStationMetadata(stationId: string): (info: StationInfo)
    ensures StationEntry(stationId).Some? ==> info == StationEntry(stationId).value
    ensures StationEntry(stationId).None? ==> info.name == stationId + " Station"
    ensures StationEntry(stationId).None? ==> info.country == GuessCountry(stationId)
  {
    match StationEntry(stationId)
    case Some(info) => info
    case None => StationInfo(stationId + " Station", GuessCountry(stationId))
  }

  // ---------------------------------------------------------------------
  // The country guess, against a table of ICAO prefixes
  // ---------------------------------------------------------------------

  /** The ICAO prefixes the guess knows, with their countries, in the order
      the source tests them. */
  const CountryPrefixes: seq<(string, string)> := [
    ("K", "United States"), ("C", "Canada"), ("E", "Europe"), ("U", "Russia"),
    ("Y", "Australia"), ("NZ", "Antarctica/New Zealand"), ("S", "South America"),
    ("P", "Pacific")]

  /** The country of the first prefix in `prefixes` that `stationId` starts with. */
  function FirstPrefixCountry(stationId: string, prefixes: seq<(string, string)>): string {
    if prefixes == [] then "Unknown"
    else if StartsWith(stationId, prefixes[0].0) then prefixes[0].1
    else FirstPrefixCountry(stationId, prefixes[1..])
  }

  /** Starting with a one-letter prefix is a test of the first character. */
  lemma StartsWithLetter(s: string, c: char)
    ensures StartsWith(s, [c]) <==> (if s == [] then "" else [s[0]]) == [c]
  {
  }

  /** The last four prefixes of the table, against the tail of the if-chain. */
  lemma LaterPrefixes(stationId: string)
    ensures FirstPrefixCountry(stationId, CountryPrefixes[4..])
      == if StartsWith(stationId, "Y") then "Australia"
         else if StartsWith(stationId, "NZ") then "Antarctica/New Zealand"
         else if StartsWith(stationId, "S") then "South America"
         else if StartsWith(stationId, "P") then "Pacific"
         else "Unknown"
  {
    var ps := CountryPrefixes;
    assert ps[7..][1..] == [];
    assert FirstPrefixCountry(stationId, ps[7..])
      == if StartsWith(stationId, "P") then "Pacific" else "Unknown";
    assert ps[6..][1..] == ps[7..];
    assert FirstPrefixCountry(stationId, ps[6..])
      == if StartsWith(stationId, "S") then "South America" else FirstPrefixCountry(stationId, ps[7..]);
    assert ps[5..][1..] == ps[6..];
    assert FirstPrefixCountry(stationId, ps[5..])
      == if StartsWith(stationId, "NZ") then "Antarctica/New Zealand" else FirstPrefixCountry(stationId, ps[6..]);
    assert ps[4..][1..] == ps[5..];
  }

  /** The if-chain picks the country of the first listed ICAO prefix the id
      starts with, and "Unknown" when it starts with none (the empty id and
      an `N` not followed by `Z` included). */
  lemma GuessCountryByPrefix(stationId: string)
    ensures GuessCountry(stationId) == FirstPrefixCountry(stationId, CountryPrefixes)
  {
    var ps := CountryPrefixes;
    StartsWithLetter(stationId, 'K');
    StartsWithLetter(stationId, 'C');
    StartsWithLetter(stationId, 'E');
    StartsWithLetter(stationId, 'U');
    StartsWithLetter(stationId, 'Y');
    StartsWithLetter(stationId, 'N');
    StartsWithLetter(stationId, 'S');
    StartsWithLetter(stationId, 'P');
    if stationId != [] && StartsWith(stationId, "NZ") {
      assert stationId[0] == 'N';
    }
    LaterPrefixes(stationId);
    assert ps[3..][1..] == ps[4..];
    assert FirstPrefixCountry(stationId, ps[3..])
      == if StartsWith(stationId, "U") then "Russia" else FirstPrefixCountry(stationId, ps[4..]);
    assert ps[2..][1..] == ps[3..];
    assert FirstPrefixCountry(stationId, ps[2..])
      == if StartsWith(stationId, "E") then "Europe" else FirstPrefixCountry(stationId, ps[3..]);
    assert ps[1..][1..] == ps[2..];
    assert FirstPrefixCountry(stationId, ps[1..])
      == if StartsWith(stationId, "C") then "Canada" else FirstPrefixCountry(stationId, ps[2..]);
  }

  /** A station in the table is returned as listed. */
  lemma LookupListed()
    ensures LookupStationMetadata("UOOO") == StationInfo("Oymyakon", "Russia")
  {
  }

  /** A five-digit WMO id is not in the table: it gets the generic name and no
      country guess, as does the empty id. */
  lemma LookupUnlisted()
    ensures LookupStationMetadata("24266") == StationInfo("24266 Station", "Unknown")
    ensures LookupStationMetadata("").country == "Unknown"
  {
  }
}
