/**
 * `src/node/geoip.rs`: the GeoLite2 ASN and City readers and the three
 * `Display` forms of what they find. Opening and querying the MaxMind
 * databases is foreign; a database is modelled as the records it holds,
 * keyed by the address text, where a missing key stands for a failed lookup
 * or decode.
 */
module GeoIp {
  import opened Common

  /** What the ASN database records for an address; either field may be absent. */
  datatype AsnRecord = AsnRecord(number: Option<nat>, organization: Option<string>)

  /** What the City database records for an address. */
  datatype CityRecord = CityRecord(city: Option<string>, country: Option<string>, countryCode: Option<string>)

  datatype AsnDb = AsnDb(records: map<string, AsnRecord>)
  datatype CityDb = CityDb(records: map<string, CityRecord>)

  /** `GeoIpReader`: whichever of the two databases opened. */
  datatype GeoIpReader = GeoIpReader(asnReader: Option<AsnDb>, cityReader: Option<CityDb>)

  datatype AsnInfo = AsnInfo(number: nat, organization: string)
  datatype CityInfo = CityInfo(city: Option<string>, country: Option<string>, countryCode: Option<string>)
  datatype GeoInfo = GeoInfo(asn: Option<AsnInfo>, city: Option<CityInfo>)

  /**
   * `GeoIpReader::new`, given the outcome of opening each file (`None`: it
   * failed): an error only when neither opened.
   */
  function New(asnOpened: Option<AsnDb>, cityOpened: Option<CityDb>): (r: Result<GeoIpReader, string>)
    ensures r.Err? <==> asnOpened.None? && cityOpened.None?
    ensures r.Err? ==> r.error == "Failed to load any GeoIP databases"
    ensures r.Ok? ==> r.value.asnReader == asnOpened && r.value.cityReader == cityOpened
  {
    if asnOpened.None? && cityOpened.None? then Err("Failed to load any GeoIP databases")
    else Ok(GeoIpReader(asnOpened, cityOpened))
  }

  /** `lookup_asn`: needs the reader, a record, and both its number and organisation. */
  function LookupAsn(reader: GeoIpReader, ip: string): (r: Option<AsnInfo>)
    ensures r.Some? <==>
      reader.asnReader.Some? && ip in reader.asnReader.value.records
      && reader.asnReader.value.records[ip].number.Some?
      && reader.asnReader.value.records[ip].organization.Some?
    ensures r.Some? ==>
      r.value.number == reader.asnReader.value.records[ip].number.value
      && r.value.organization == reader.asnReader.value.records[ip].organization.value
  {
    if reader.asnReader.None? || ip !in reader.asnReader.value.records then None
    else
      var rec := reader.asnReader.value.records[ip];
      if rec.number.None? || rec.organization.None? then None
      else Some(AsnInfo(rec.number.value, rec.organization.value))
  }

  /** `lookup_city`: needs the reader and a record; the record's names are copied as they are. */
  function LookupCity(reader: GeoIpReader, ip: string): (r: Option<CityInfo>)
    ensures r.Some? <==> reader.cityReader.Some? && ip in reader.cityReader.value.records
    ensures r.Some? ==>
      var rec := reader.cityReader.value.records[ip];
      r.value == CityInfo(rec.city, rec.country, rec.countryCode)
  {
    if reader.cityReader.None? || ip !in reader.cityReader.value.records then None
    else
      var rec := reader.cityReader.value.records[ip];
      Some(CityInfo(rec.city, rec.country, rec.countryCode))
  }

  /** `lookup_all`: both lookups, side by side. */
  function LookupAll(reader: GeoIpReader, ip: string): (r: GeoInfo)
    ensures r.asn == LookupAsn(reader, ip) && r.city == LookupCity(reader, ip)
  {
    GeoInfo(LookupAsn(reader, ip), LookupCity(reader, ip))
  }

  /** With only one database open, the other half of every lookup is empty. */
  lemma MissingDatabaseGivesNothing(reader: GeoIpReader, ip: string)
    ensures reader.asnReader.None? ==> LookupAll(reader, ip).asn.None?
    ensures reader.cityReader.None? ==> LookupAll(reader, ip).city.None?
  {
  }

  /** `Display for AsnInfo`: `AS<number> - <organisation>`. */
  function AsnDisplay(a: AsnInfo): (text: string)
    ensures |text| >= 6 + |a.organization| && text[..2] == "AS"
    ensures text[|text| - |a.organization|..] == a.organization
  {
    "AS" + NatToString(a.number) + " - " + a.organization
  }

  /** The AS number can be read back from the text after `AS`. */
  lemma AsnDisplayShowsNumber(a: AsnInfo)
    ensures var digits := NatToString(a.number);
            var text := AsnDisplay(a);
            |text| >= 2 + |digits| + 3 && text[..2] == "AS"
            && text[2..2 + |digits|] == digits && text[2 + |digits|..5 + |digits|] == " - "
            && DigitsValue(text[2..2 + |digits|]) == a.number
  {
    NatToStringValue(a.number);
  }

  /** `Display for CityInfo`: `city, country`, or the one present, or `Unknown`. */
  function CityDisplay(c: CityInfo): (text: string)
    ensures c.city.None? && c.country.None? ==> text == "Unknown"
    ensures c.city.Some? ==> |c.city.value| <= |text| && text[..|c.city.value|] == c.city.value
    ensures c.country.Some? ==> |c.country.value| <= |text| && text[|text| - |c.country.value|..] == c.country.value
  {
    match (c.city, c.country)
    case (Some(city), Some(country)) => city + ", " + country
    case (None, Some(country)) => country
    case (Some(city), None) => city
    case (None, None) => "Unknown"
  }

  /** The names present, in the order city, country. */
  function PresentNames(c: CityInfo): seq<string> {
    (if c.city.Some? then [c.city.value] else []) + (if c.country.Some? then [c.country.value] else [])
  }

  /** The city text is the present names joined by `, `, or `Unknown` when there are none. */
  lemma CityDisplayIsJoin(c: CityInfo)
    ensures CityDisplay(c) == (if PresentNames(c) == [] then "Unknown" else Join(PresentNames(c), ", "))
  {
  }

  /** The country code never shows. */
  lemma CityDisplayIgnoresCode(c: CityInfo, code: Option<string>)
    ensures CityDisplay(c.(countryCode := code)) == CityDisplay(c)
  {
  }

  /** `Display for GeoInfo`: both parts on two lines, or the one present, or a fixed notice. */
  function GeoInfoDisplay(g: GeoInfo): (text: string)
    ensures g.asn.None? && g.city.None? ==> text == "No information available"
    ensures g.asn.Some? ==>
      |AsnDisplay(g.asn.value)| <= |text| && text[..|AsnDisplay(g.asn.value)|] == AsnDisplay(g.asn.value)
    ensures g.city.Some? ==>
      |CityDisplay(g.city.value)| <= |text| && text[|text| - |CityDisplay(g.city.value)|..] == CityDisplay(g.city.value)
  {
    match (g.asn, g.city)
    case (Some(asn), Some(city)) => AsnDisplay(asn) + "\n" + CityDisplay(city)
    case (Some(asn), None) => AsnDisplay(asn)
    case (None, Some(city)) => CityDisplay(city)
    case (None, None) => "No information available"
  }

  /** The displays of the parts present, in the order ASN, city. */
  function PresentParts(g: GeoInfo): seq<string> {
    (if g.asn.Some? then [AsnDisplay(g.asn.value)] else [])
    + (if g.city.Some? then [CityDisplay(g.city.value)] else [])
  }

  /** The text is the present parts one per line, or the notice when nothing is known. */
  lemma GeoInfoDisplayIsJoin(g: GeoInfo)
    ensures GeoInfoDisplay(g) ==
      (if PresentParts(g) == [] then "No information available" else Join(PresentParts(g), "\n"))
  {
  }

  /** When the ASN is known, the text starts with its `AS` line. */
  lemma GeoInfoDisplayStartsWithAsn(g: GeoInfo)
    requires g.asn.Some?
    ensures var a := AsnDisplay(g.asn.value);
            |a| <= |GeoInfoDisplay(g)| && GeoInfoDisplay(g)[..|a|] == a
  {
    var a := AsnDisplay(g.asn.value);
    if g.city.Some? {
      assert GeoInfoDisplay(g) == a + ("\n" + CityDisplay(g.city.value));
    }
  }
}
