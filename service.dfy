/** The IP service as the source runs it: LookupIP allocates a response and
    hands it to lookupASN, lookupGeoCN, lookupGeoIP2, setNetworkInfo and
    setDefaultNetwork, which update its fields in a fixed order. Each method
    is proved to leave the response holding what the matching function of
    Resolution computes. */
module Service {
  import opened Wrappers
  import opened NetRange
  import opened Helpers
  import opened Records
  import opened Resolution

  /** The response the service fills in. */
  class IPResponse {
    var ip: string
    var version: string
    var asn: AsnBlock
    var network: NetworkBlock
    var location: LocationBlock
    var isp: IspBlock

    constructor (ip: string)
      ensures Value() == EmptyRecord(ip)
    {
      this.ip := ip;
      version := "";
      asn := NoAsn;
      network := NoNetwork;
      location := NoLocation;
      isp := NoIsp;
    }

    /** The response's fields as one value. */
    function Value(): Record
      reads this
    {
      Record(ip, version, asn, network, location, isp)
    }
  }

  /** The service, holding the databases it reads and the library it calls. */
  class IPService {
    const env: Env
    const db: Databases

    ghost predicate Valid() {
      ValidEnv(env) && ValidDatabases(db)
    }

    constructor (env: Env, db: Databases)
      requires ValidEnv(env) && ValidDatabases(db)
      ensures Valid() && this.env == env && this.db == db
    {
      this.env := env;
      this.db := db;
    }

    /** LookupIP: ErrInvalidIP and no response for unparsable text; otherwise
        a fresh response holding what Resolve computes. */
    method LookupIP(text: string) returns (resp: IPResponse?, err: Option<LookupError>)
      requires Valid()
      ensures resp == null <==> err.Some?
      ensures resp == null ==> Resolve(env, db, text) == Failure(ErrInvalidIP) && err == Some(ErrInvalidIP)
      ensures resp != null ==> fresh(resp) && Resolve(env, db, text) == Success(resp.Value())
    {
      var parsed := env.parseIP(text);
      if parsed.None? {
        return null, Some(ErrInvalidIP);
      }
      var ip := parsed.value;
      resp := new IPResponse(text);
      if To4(ip).Some? {
        resp.version := "IPv4";
      } else {
        resp.version := "IPv6";
      }
      var asnOk := LookupASN(ip, resp);
      var cnOk := LookupGeoCN(ip, resp);
      if !cnOk {
        var cityOk := LookupGeoIP2(ip, resp);
      }
      if resp.network.cidr == "" {
        SetDefaultNetwork(ip, resp);
      }
      err := None;
    }

    /** lookupASN: reports whether the lookup succeeded and applies AfterAsn. */
    method LookupASN(ip: Bytes, resp: IPResponse) returns (ok: bool)
      requires Valid()
      modifies resp
      ensures ok == db.asnDB(ip).Some?
      ensures AsnNetworkOk(db.asnDB(ip)) && resp.Value() == AfterAsn(env, old(resp.Value()), db.asnDB(ip))
    {
      var found := db.asnDB(ip);
      assert AsnNetworkOk(found);
      if found.None? {
        return false;
      }
      var rec := found.value;
      resp.asn := resp.asn.(number := rec.number, name := rec.organization);
      if rec.number in env.carriers {
        var info := env.carriers[rec.number];
        resp.asn := resp.asn.(info := info);
        resp.isp := resp.isp.(ispType := info);
      }
      resp.isp := resp.isp.(name := rec.organization);
      if rec.network.Some? {
        SetNetworkInfo(resp, rec.network.value);
      }
      return true;
    }

    /** lookupGeoCN: reports a hit (a successful lookup with a non-empty
        province or ISP); on a hit applies AfterGeoCN, with the City record
        looked up for the backfill; otherwise changes nothing. */
    method LookupGeoCN(ip: Bytes, resp: IPResponse) returns (ok: bool)
      requires Valid()
      modifies resp
      ensures ok == GeoCNHit(db.geoCNDB(ip))
      ensures ok ==> resp.Value() == AfterGeoCN(old(resp.Value()), db.geoCNDB(ip).value, db.cityDB(ip))
      ensures !ok ==> resp.Value() == old(resp.Value())
    {
      var found := db.geoCNDB(ip);
      if found.None? {
        return false;
      }
      var g := found.value;
      if g.province == "" && g.isp == "" {
        return false;
      }
      resp.location := resp.location.(country := Country("CN", "中国"));
      resp.location := resp.location.(position := resp.location.position.(timeZone := "Asia/Shanghai"));

      var regions := RemoveEmpty([g.province, g.city, g.districts]);
      var fullName := Concat(regions);
      var lastCode := "";
      if g.districts != "" {
        lastCode := DecimalString(g.districtsCode);
      } else if g.city != "" {
        lastCode := DecimalString(g.cityCode);
      } else if g.province != "" {
        lastCode := DecimalString(g.provinceCode);
      }
      resp.location := resp.location.(region := Region(lastCode, fullName));

      if g.isp != "" {
        resp.isp := resp.isp.(name := g.isp);
        resp.asn := resp.asn.(info := g.isp);
      }
      if g.net != "" {
        resp.network := resp.network.(netType := g.net);
      }

      var city := db.cityDB(ip);
      if city.Some? {
        var c := city.value;
        resp.location := resp.location.(position := resp.location.position.(
          latitude := c.latitude, longitude := c.longitude, accuracyRadius := c.accuracyRadius));
        if resp.location.continent.code == "" {
          resp.location := resp.location.(continent := Continent(c.continentCode, Localized(c.continentNames)));
        }
      }
      return true;
    }

    /** lookupGeoIP2: reports whether the City lookup succeeded and, if so,
        applies AfterGeoIP2. */
    method LookupGeoIP2(ip: Bytes, resp: IPResponse) returns (ok: bool)
      requires Valid()
      modifies resp
      ensures ok == db.cityDB(ip).Some?
      ensures CityNetworkOk(db.cityDB(ip))
      ensures ok ==> resp.Value() == AfterGeoIP2(env, old(resp.Value()), db.cityDB(ip).value)
      ensures !ok ==> resp.Value() == old(resp.Value())
    {
      var found := db.cityDB(ip);
      assert CityNetworkOk(found);
      if found.None? {
        return false;
      }
      var c := found.value;
      if c.continentCode != "" {
        resp.location := resp.location.(continent := Continent(c.continentCode, Localized(c.continentNames)));
      }
      if c.isAnycast {
        resp.location := resp.location.(country := Country(c.registeredCountry.isoCode, Localized(c.registeredCountry.names)));
        return true;
      }
      if c.country.isoCode != "" {
        resp.location := resp.location.(country := Country(c.country.isoCode, Localized(c.country.names)));
      }
      if |c.subdivisions| > 0 {
        var subdivision := c.subdivisions[0];
        resp.location := resp.location.(region := Region(subdivision.isoCode, Localized(subdivision.names)));
      }
      var cityName := Localized(c.cityNames);
      if cityName != "" {
        resp.location := resp.location.(city := City(cityName));
      }
      if c.timeZone != "" {
        resp.location := resp.location.(position := Position(c.latitude, c.longitude, c.accuracyRadius, c.timeZone));
      }
      if resp.network.cidr == "" && c.network.Some? {
        SetNetworkInfo(resp, c.network.value);
      }
      return true;
    }

    /** setNetworkInfo: writes the CIDR text, the range and the count of network. */
    method SetNetworkInfo(resp: IPResponse, network: IPNet)
      requires WellFormed(network)
      modifies resp
      ensures resp.Value() == WithNetwork(env, old(resp.Value()), network)
    {
      resp.network := resp.network.(cidr := env.netText(network));
      var startIP, endIP := CalculateNetworkRange(network);
      resp.network := resp.network.(startIP := env.ipText(startIP), endIP := env.ipText(endIP));
      resp.network := resp.network.(totalIPs := TotalIPs(network));
    }

    /** setDefaultNetwork: the network fields of the /24 (IPv4) or /64 (IPv6)
        network around ip. */
    method SetDefaultNetwork(ip: Bytes, resp: IPResponse)
      requires IsAddress(ip)
      modifies resp
      ensures resp.Value() == WithNetwork(env, old(resp.Value()), DefaultNetwork(ip))
    {
      var ipNet: IPNet;
      if To4(ip).Some? {
        ipNet := IPNet(MaskIP(ip, PrefixMask(24, 4)).value, PrefixMask(24, 4));
      } else {
        ipNet := IPNet(MaskIP(ip, PrefixMask(64, 16)).value, PrefixMask(64, 16));
      }
      SetNetworkInfo(resp, ipNet);
    }
  }
}
