/**
 * The record shapes shared by the fetchers and the ranker: a temperature
 * observation from any source, tagged with the source it came from.
 */
module Types {
  import opened Wrappers

  /** The data sources an observation can come from. */
  datatype Source = METAR | EC | ISD | SYNOP

  /** One temperature reading. `tempC` is in degrees Celsius; `observationTime`
      is the text the source gave (an ISO 8601 instant for SYNOP records).
      `name` and `country` are optional, as on the source's `Observation`. */
  datatype Observation = Observation(
    stationId: string,
    latitude: real,
    longitude: real,
    tempC: real,
    observationTime: string,
    name: Option<string>,
    country: Option<string>,
    source: Source)

  /** JavaScript truthiness of an optional string: present and not empty. */
  predicate Truthy(s: Option<string>) {
    s.Some? && s.value != []
  }

  /** A `Station`: an observation whose name and country are both set. */
  predicate IsStation(o: Observation) {
    o.name.Some? && o.country.Some?
  }
}
