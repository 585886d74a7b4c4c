/** port.GeoIPService: the country lookup the registration path depends on. */
module GeoIP {
  import opened Wrappers

  /**
   * A GeoIP port whose answer for each IP is fixed but arbitrary: a country, or an error
   * (the HTTP client's request, status and decoding failures all land here). The ghost
   * log records every IP the service asked about.
   */
  class GeoIPService {
    const answer: string -> Result<string>
    ghost var queries: seq<string>

    /** Any GeoIP implementation, such as the ip-api.com client, given by its answers. */
    constructor (answer: string -> Result<string>)
      ensures this.answer == answer && queries == []
    {
      this.answer := answer;
      queries := [];
    }

    /** geoIPMock of the router tests: every IP is in the given country. */
    constructor Stub(country: string)
      ensures forall ip :: answer(ip) == Ok(country)
      ensures queries == []
    {
      answer := _ => Ok(country);
      queries := [];
    }

    method GetCountryByIP(ip: string) returns (country: string, err: Option<string>)
      modifies this
      ensures queries == old(queries) + [ip]
      ensures answer(ip).Ok? ==> country == answer(ip).value && err == None
      ensures answer(ip).Err? ==> country == "" && err == Some(answer(ip).error)
    {
      queries := queries + [ip];
      match answer(ip)
      case Ok(c) =>
        country, err := c, None;
      case Err(e) =>
        country, err := "", Some(e);
    }
  }
}
