/** The values the IP service reads and writes: the records of its three
    geo databases, the response it fills in, and the library and database
    capabilities it calls. The response follows the fields the service writes
    (Location.Location, Region, City, Continent). */
module Records {
  import opened Wrappers
  import opened NetRange

  /** A record of the ASN database; network is None when its address or mask is nil. */
  datatype AsnRecord = AsnRecord(number: nat, organization: string, network: Option<IPNet>)

  /** A record of the domestic GeoCN database. */
  datatype GeoCNRecord = GeoCNRecord(
    province: string, provinceCode: nat,
    city: string, cityCode: nat,
    districts: string, districtsCode: nat,
    isp: string, net: string)

  /** An ISO code with names keyed by language tag (a country or a subdivision). */
  datatype Place = Place(isoCode: string, names: map<string, string>)

  /** A record of the GeoIP2 City database. Latitude and longitude are only
      copied, so they are kept as opaque reals. */
  datatype CityRecord = CityRecord(
    continentCode: string, continentNames: map<string, string>,
    country: Place, registeredCountry: Place,
    cityNames: map<string, string>,
    subdivisions: seq<Place>,
    latitude: real, longitude: real, accuracyRadius: nat, timeZone: string,
    isAnycast: bool,
    network: Option<IPNet>)

  /** What maxminddb decodes when an address is not in the GeoCN database:
      a zeroed record, with no error. */
  const ZeroGeoCN := GeoCNRecord("", 0, "", 0, "", 0, "", "")

  datatype AsnBlock = AsnBlock(number: nat, name: string, info: string)
  datatype NetworkBlock = NetworkBlock(cidr: string, startIP: string, endIP: string, totalIPs: nat, netType: string)
  datatype Country = Country(code: string, name: string)
  datatype Region = Region(code: string, name: string)
  datatype City = City(name: string)
  datatype Continent = Continent(code: string, name: string)
  datatype Position = Position(latitude: real, longitude: real, accuracyRadius: nat, timeZone: string)
  datatype LocationBlock = LocationBlock(country: Country, region: Region, city: City, continent: Continent, position: Position)
  datatype IspBlock = IspBlock(name: string, ispType: string)

  /** The whole response, as a value. */
  datatype Record = Record(ip: string, version: string, asn: AsnBlock, network: NetworkBlock,
                           location: LocationBlock, isp: IspBlock)

  const NoAsn := AsnBlock(0, "", "")
  const NoNetwork := NetworkBlock("", "", "", 0, "")
  const NoPosition := Position(0.0, 0.0, 0, "")
  const NoLocation := LocationBlock(Country("", ""), Region("", ""), City(""), Continent("", ""), NoPosition)
  const NoIsp := IspBlock("", "")

  /** A response with only its IP text set, every other field zero. */
  function EmptyRecord(ip: string): Record {
    Record(ip, "", NoAsn, NoNetwork, NoLocation, NoIsp)
  }

  /** The library functions and static tables the service uses:
      net.ParseIP, net.IP.String, net.IPNet.String, asn.Map and asn.Provinces. */
  datatype Env = Env(
    parseIP: string -> Option<Bytes>,
    ipText: Bytes -> string,
    netText: IPNet -> string,
    carriers: map<nat, string>,
    provinces: seq<string>)

  /** ParseIP yields 4- or 16-byte addresses, and IPNet.String never yields
      "" (it writes at least the address and the prefix). */
  ghost predicate ValidEnv(env: Env) {
    && (forall s :: env.parseIP(s).Some? ==> IsAddress(env.parseIP(s).value))
    && (forall n :: env.netText(n) != "")
  }

  /** The three databases as lookups by address; None is a lookup error, a
      miss is a zeroed record. */
  datatype Databases = Databases(
    asnDB: Bytes -> Option<AsnRecord>,
    geoCNDB: Bytes -> Option<GeoCNRecord>,
    cityDB: Bytes -> Option<CityRecord>)

  predicate AsnNetworkOk(r: Option<AsnRecord>) {
    r.Some? && r.value.network.Some? ==> WellFormed(r.value.network.value)
  }

  predicate CityNetworkOk(r: Option<CityRecord>) {
    r.Some? && r.value.network.Some? ==> WellFormed(r.value.network.value)
  }

  /** Every network a database reports has a mask as long as its address. */
  ghost predicate ValidDatabases(db: Databases) {
    forall ip :: AsnNetworkOk(db.asnDB(ip)) && CityNetworkOk(db.cityDB(ip))
  }
}
