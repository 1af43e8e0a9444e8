/** What a lookup computes, as functions on the response value: one function
    per step of LookupIP (the ASN step, the GeoCN step with its City backfill,
    the GeoIP2 step, the network fields), the whole lookup as Resolve, and the
    precedence rules proved about Resolve. */
module Resolution {
  import opened Wrappers
  import opened NetRange
  import opened Helpers
  import opened Records

  datatype LookupError = ErrInvalidIP

  /** The language tags names are looked up under. */
  const PrimaryLang := "zh-CN"
  const FallbackLang := "en"

  function Localized(names: map<string, string>): string {
    GetLocalizedName(names, PrimaryLang, FallbackLang)
  }

  /** "IPv4" for an address with a 4-byte form, else "IPv6". */
  function VersionOf(ip: Bytes): string {
    if To4(ip).Some? then "IPv4" else "IPv6"
  }

  /** setNetworkInfo: the CIDR text, the range's first and last address and
      the address count of n; the network type is left alone. */
  function WithNetwork(env: Env, r: Record, n: IPNet): (r': Record)
    requires WellFormed(n)
    ensures r'.ip == r.ip && r'.version == r.version && r'.asn == r.asn && r'.location == r.location && r'.isp == r.isp
    ensures r'.network.netType == r.network.netType
  {
    r.(network := r.network.(cidr := env.netText(n),
                             startIP := env.ipText(RangeStart(n)),
                             endIP := env.ipText(RangeEnd(n)),
                             totalIPs := TotalIPs(n)))
  }

  /** lookupASN: a failed lookup changes nothing; otherwise the ASN number and
      organization, the carrier label of a number found in the carrier table
      (as ASN info and ISP type), the organization as ISP name, and the
      record's network when it has one. */
  function AfterAsn(env: Env, r: Record, found: Option<AsnRecord>): (r': Record)
    requires AsnNetworkOk(found)
    ensures r'.ip == r.ip && r'.version == r.version && r'.location == r.location
    ensures r'.network.netType == r.network.netType
  {
    match found
    case None => r
    case Some(a) =>
      var known := a.number in env.carriers;
      var r1 := r.(asn := AsnBlock(a.number, a.organization, if known then env.carriers[a.number] else r.asn.info),
                   isp := IspBlock(a.organization, if known then env.carriers[a.number] else r.isp.ispType));
      if a.network.Some? then WithNetwork(env, r1, a.network.value) else r1
  }

  /** A GeoCN lookup counts only when it succeeded and its province or ISP
      is non-empty; a zeroed record from a miss does not. */
  predicate GeoCNHit(found: Option<GeoCNRecord>) {
    found.Some? && (found.value.province != "" || found.value.isp != "")
  }

  /** The decimal code of the most specific non-empty level. */
  function RegionCode(g: GeoCNRecord): string {
    if g.districts != "" then DecimalString(g.districtsCode)
    else if g.city != "" then DecimalString(g.cityCode)
    else if g.province != "" then DecimalString(g.provinceCode)
    else ""
  }

  /** The City database's backfill after a GeoCN hit: coordinates and
      accuracy always, the continent only when none is set yet. */
  function Backfill(r: Record, c: CityRecord): Record {
    var pos := r.location.position.(latitude := c.latitude, longitude := c.longitude,
                                    accuracyRadius := c.accuracyRadius);
    var continent := if r.location.continent.code == "" then Continent(c.continentCode, Localized(c.continentNames))
                     else r.location.continent;
    r.(location := r.location.(position := pos, continent := continent))
  }

  /** lookupGeoCN after a hit: China as the country, Asia/Shanghai as time
      zone, the joined non-empty levels as region name, the ISP (over the ASN
      organization and ASN info) and network type when non-empty, then the
      backfill from the City record when that lookup succeeded. */
  function AfterGeoCN(r: Record, g: GeoCNRecord, city: Option<CityRecord>): (r': Record)
    ensures r'.ip == r.ip && r'.version == r.version && r'.isp.ispType == r.isp.ispType && r'.asn.number == r.asn.number
    ensures r'.asn.name == r.asn.name && r'.network == r.network.(netType := r'.network.netType)
  {
    var loc := r.location.(country := Country("CN", "中国"),
                           position := r.location.position.(timeZone := "Asia/Shanghai"),
                           region := Region(RegionCode(g), Concat(NonEmpty([g.province, g.city, g.districts]))));
    var r1 := r.(location := loc);
    var r2 := if g.isp != "" then r1.(isp := r1.isp.(name := g.isp), asn := r1.asn.(info := g.isp)) else r1;
    var r3 := if g.net != "" then r2.(network := r2.network.(netType := g.net)) else r2;
    if city.Some? then Backfill(r3, city.value) else r3
  }

  function WithCountry(r: Record, p: Place): Record {
    r.(location := r.location.(country := Country(p.isoCode, Localized(p.names))))
  }

  /** lookupGeoIP2 after a successful lookup: the continent when its code is
      non-empty; for an anycast record only the registered country besides;
      otherwise the country when its ISO code is non-empty, the first
      subdivision as region, the city when its name is non-empty, the
      position when the time zone is non-empty, and the record's network when
      none is set yet. */
  function AfterGeoIP2(env: Env, r: Record, c: CityRecord): (r': Record)
    requires CityNetworkOk(Some(c))
    ensures r'.ip == r.ip && r'.version == r.version && r'.asn == r.asn && r'.isp == r.isp
    ensures r.network.cidr != "" ==> r'.network == r.network
    ensures r'.network.netType == r.network.netType
  {
    var r1 := if c.continentCode != "" then
                r.(location := r.location.(continent := Continent(c.continentCode, Localized(c.continentNames))))
              else r;
    if c.isAnycast then WithCountry(r1, c.registeredCountry)
    else
      var r2 := if c.country.isoCode != "" then WithCountry(r1, c.country) else r1;
      var r3 := if |c.subdivisions| > 0 then
                  r2.(location := r2.location.(region := Region(c.subdivisions[0].isoCode, Localized(c.subdivisions[0].names))))
                else r2;
      var r4 := if Localized(c.cityNames) != "" then r3.(location := r3.location.(city := City(Localized(c.cityNames)))) else r3;
      var r5 := if c.timeZone != "" then
                  r4.(location := r4.location.(position := Position(c.latitude, c.longitude, c.accuracyRadius, c.timeZone)))
                else r4;
      if r5.network.cidr == "" && c.network.Some? then WithNetwork(env, r5, c.network.value) else r5
  }

  /** getRegionCode: the ISO code of the first subdivision, "" when there is none. */
  function GetRegionCode(subdivisions: seq<Place>): (code: string)
    ensures code != "" ==> |subdivisions| > 0 && code == subdivisions[0].isoCode
    ensures |subdivisions| > 0 ==> code == subdivisions[0].isoCode
  {
    if |subdivisions| > 0 && subdivisions[0].isoCode != "" then subdivisions[0].isoCode else ""
  }

  /** LookupIP: unparsable text is the one error; any address yields a
      response whose IP is the text, whose version says whether the address
      has a 4-byte form, and whose CIDR is set. */
  function Resolve(env: Env, db: Databases, text: string): (res: Result<Record, LookupError>)
    requires ValidEnv(env) && ValidDatabases(db)
    ensures res.Failure? <==> env.parseIP(text).None?
    ensures res.Failure? ==> res.error == ErrInvalidIP
    ensures res.Success? ==> && res.value.ip == text
                             && res.value.version == (if To4(env.parseIP(text).value).Some? then "IPv4" else "IPv6")
                             && res.value.network.cidr != ""
  {
    match env.parseIP(text)
    case None => Failure(ErrInvalidIP)
    case Some(ip) =>
      var r0 := EmptyRecord(text).(version := VersionOf(ip));
      var r1 := AfterAsn(env, r0, db.asnDB(ip));
      var cn := db.geoCNDB(ip);
      var r2 := if GeoCNHit(cn) then AfterGeoCN(r1, cn.value, db.cityDB(ip))
                else if db.cityDB(ip).Some? then AfterGeoIP2(env, r1, db.cityDB(ip).value)
                else r1;
      var r3 := if r2.network.cidr == "" then WithNetwork(env, r2, DefaultNetwork(ip)) else r2;
      Success(r3)
  }

  /** The network a lookup's response describes: the ASN record's when it
      has one; else, on the GeoIP2 path, a non-anycast City record's; else the
      default network around the queried address. */
  function NetworkSource(db: Databases, ip: Bytes): (n: IPNet)
    requires ValidDatabases(db) && IsAddress(ip)
    ensures WellFormed(n)
  {
    var a, c := db.asnDB(ip), db.cityDB(ip);
    assert AsnNetworkOk(a) && CityNetworkOk(c);
    if a.Some? && a.value.network.Some? then a.value.network.value
    else if !GeoCNHit(db.geoCNDB(ip)) && c.Some? && !c.value.isAnycast && c.value.network.Some? then c.value.network.value
    else DefaultNetwork(ip)
  }

  /** The network fields are written once, by the first source that has a
      network (ASN before GeoIP2 before the default), and never overwritten;
      the network type comes from GeoCN alone. */
  lemma NetworkSetOnce(env: Env, db: Databases, text: string)
    requires ValidEnv(env) && ValidDatabases(db) && env.parseIP(text).Some?
    ensures var ip := env.parseIP(text).value;
            var n := NetworkSource(db, ip);
            var cn := db.geoCNDB(ip);
            var net := Resolve(env, db, text).value.network;
            && net.cidr == env.netText(n)
            && net.startIP == env.ipText(RangeStart(n))
            && net.endIP == env.ipText(RangeEnd(n))
            && net.totalIPs == TotalIPs(n)
            && net.netType == (if GeoCNHit(cn) && cn.value.net != "" then cn.value.net else "")
  {
    var ip := env.parseIP(text).value;
    assert AsnNetworkOk(db.asnDB(ip)) && CityNetworkOk(db.cityDB(ip));
  }

  /** The organization the ASN lookup reported, "" when it failed. */
  function AsnOrganization(db: Databases, ip: Bytes): string {
    if db.asnDB(ip).Some? then db.asnDB(ip).value.organization else ""
  }

  /** The carrier label of the ASN number, "" when the lookup failed or the
      number is not in the table. */
  function Carrier(env: Env, db: Databases, ip: Bytes): string {
    var a := db.asnDB(ip);
    if a.Some? && a.value.number in env.carriers then env.carriers[a.value.number] else ""
  }

  /** A GeoCN ISP overrides the ASN organization as ISP name and the carrier
      label as ASN info, but the ISP type stays the carrier label. */
  lemma IspPrecedence(env: Env, db: Databases, text: string)
    requires ValidEnv(env) && ValidDatabases(db) && env.parseIP(text).Some?
    ensures var ip := env.parseIP(text).value;
            var cn := db.geoCNDB(ip);
            var cnIsp := GeoCNHit(cn) && cn.value.isp != "";
            var r := Resolve(env, db, text).value;
            && r.isp.name == (if cnIsp then cn.value.isp else AsnOrganization(db, ip))
            && r.isp.ispType == Carrier(env, db, ip)
            && r.asn.info == (if cnIsp then cn.value.isp else Carrier(env, db, ip))
            && r.asn.name == AsnOrganization(db, ip)
            && r.asn.number == (if db.asnDB(ip).Some? then db.asnDB(ip).value.number else 0)
  {
    var ip := env.parseIP(text).value;
    assert AsnNetworkOk(db.asnDB(ip)) && CityNetworkOk(db.cityDB(ip));
  }

  /** The location the GeoCN step writes over an empty location. */
  lemma GeoCNStepLocation(r: Record, g: GeoCNRecord, city: Option<CityRecord>)
    requires r.location == NoLocation
    ensures var loc := AfterGeoCN(r, g, city).location;
            && loc.country == Country("CN", "中国")
            && loc.position.timeZone == "Asia/Shanghai"
            && loc.region == Region(RegionCode(g), Concat(NonEmpty([g.province, g.city, g.districts])))
            && loc.city == City("")
            && (city.Some? ==> && loc.position == Position(city.value.latitude, city.value.longitude,
                                                           city.value.accuracyRadius, "Asia/Shanghai")
                               && loc.continent == Continent(city.value.continentCode, Localized(city.value.continentNames)))
            && (city.None? ==> loc.position == NoPosition.(timeZone := "Asia/Shanghai") && loc.continent == Continent("", ""))
  {
  }

  /** The location the GeoIP2 step writes over an empty location. */
  lemma GeoIP2StepLocation(env: Env, r: Record, c: CityRecord)
    requires CityNetworkOk(Some(c)) && r.location == NoLocation
    ensures var loc := AfterGeoIP2(env, r, c).location;
            && loc.continent == (if c.continentCode != "" then Continent(c.continentCode, Localized(c.continentNames))
                                 else Continent("", ""))
            && (c.isAnycast ==> && loc.country == Country(c.registeredCountry.isoCode, Localized(c.registeredCountry.names))
                                && loc.region == Region("", "") && loc.city == City("") && loc.position == NoPosition)
            && (!c.isAnycast ==>
                  && loc.country == (if c.country.isoCode != "" then Country(c.country.isoCode, Localized(c.country.names))
                                     else Country("", ""))
                  && loc.region == (if |c.subdivisions| > 0 then Region(c.subdivisions[0].isoCode, Localized(c.subdivisions[0].names))
                                    else Region("", ""))
                  && loc.city == City(Localized(c.cityNames))
                  && loc.position == (if c.timeZone != "" then Position(c.latitude, c.longitude, c.accuracyRadius, c.timeZone)
                                      else NoPosition))
  {
  }

  /** Before the location sources run, the location is empty. */
  function AsnStage(env: Env, db: Databases, text: string, ip: Bytes): (r: Record)
    requires ValidDatabases(db)
    ensures r.location == NoLocation && r.network.netType == ""
  {
    assert AsnNetworkOk(db.asnDB(ip));
    AfterAsn(env, EmptyRecord(text).(version := VersionOf(ip)), db.asnDB(ip))
  }

  /** The response's location is what the location step made of the ASN
      stage's record: the default network never touches it. */
  lemma ResolvedLocation(env: Env, db: Databases, text: string)
    requires ValidEnv(env) && ValidDatabases(db) && env.parseIP(text).Some?
    ensures var ip := env.parseIP(text).value;
            var r1 := AsnStage(env, db, text, ip);
            var cn := db.geoCNDB(ip);
            var c := db.cityDB(ip);
            CityNetworkOk(c) &&
            Resolve(env, db, text).value.location
              == (if GeoCNHit(cn) then AfterGeoCN(r1, cn.value, c).location
                  else if c.Some? then AfterGeoIP2(env, r1, c.value).location
                  else r1.location)
  {
    var ip := env.parseIP(text).value;
    assert AsnNetworkOk(db.asnDB(ip)) && CityNetworkOk(db.cityDB(ip));
  }

  /** After a GeoCN hit the location is domestic: China, Asia/Shanghai, the
      province, city and district joined as region name with the code of the
      most specific one, no city block; the City record, when found, supplies
      only coordinates, accuracy and continent. */
  lemma DomesticPrecedence(env: Env, db: Databases, text: string)
    requires ValidEnv(env) && ValidDatabases(db) && env.parseIP(text).Some?
    requires var cn := db.geoCNDB(env.parseIP(text).value);
             cn.Some? && (cn.value.province != "" || cn.value.isp != "")
    ensures var ip := env.parseIP(text).value;
            var g := db.geoCNDB(ip).value;
            var c := db.cityDB(ip);
            var loc := Resolve(env, db, text).value.location;
            && loc.country == Country("CN", "中国")
            && loc.position.timeZone == "Asia/Shanghai"
            && loc.region.name == g.province + g.city + g.districts
            && loc.region.code == (if g.districts != "" then DecimalString(g.districtsCode)
                                   else if g.city != "" then DecimalString(g.cityCode)
                                   else if g.province != "" then DecimalString(g.provinceCode)
                                   else "")
            && loc.city == City("")
            && (c.Some? ==> && loc.position.latitude == c.value.latitude
                            && loc.position.longitude == c.value.longitude
                            && loc.position.accuracyRadius == c.value.accuracyRadius
                            && loc.continent == Continent(c.value.continentCode, Localized(c.value.continentNames)))
            && (c.None? ==> loc.position == NoPosition.(timeZone := "Asia/Shanghai") && loc.continent == Continent("", ""))
  {
    var ip := env.parseIP(text).value;
    var g := db.geoCNDB(ip).value;
    ResolvedLocation(env, db, text);
    GeoCNStepLocation(AsnStage(env, db, text, ip), g, db.cityDB(ip));
    ConcatNonEmpty([g.province, g.city, g.districts]);
    Concat3(g.province, g.city, g.districts);
  }

  /** Without a GeoCN hit a non-anycast City record is the location source:
      continent and country when their codes are non-empty, the first
      subdivision as region (its code is getRegionCode's), the localized city
      name, and coordinates with time zone when the time zone is non-empty. */
  lemma GlobalFallback(env: Env, db: Databases, text: string)
    requires ValidEnv(env) && ValidDatabases(db) && env.parseIP(text).Some?
    requires var ip := env.parseIP(text).value;
             var cn := db.geoCNDB(ip);
             && (cn.None? || (cn.value.province == "" && cn.value.isp == ""))
             && db.cityDB(ip).Some? && !db.cityDB(ip).value.isAnycast
    ensures var ip := env.parseIP(text).value;
            var c := db.cityDB(ip).value;
            var loc := Resolve(env, db, text).value.location;
            && loc.continent == (if c.continentCode != "" then Continent(c.continentCode, Localized(c.continentNames))
                                 else Continent("", ""))
            && loc.country == (if c.country.isoCode != "" then Country(c.country.isoCode, Localized(c.country.names))
                               else Country("", ""))
            && loc.region == (if |c.subdivisions| > 0 then Region(c.subdivisions[0].isoCode, Localized(c.subdivisions[0].names))
                              else Region("", ""))
            && loc.region.code == GetRegionCode(c.subdivisions)
            && loc.city == City(Localized(c.cityNames))
            && loc.position == (if c.timeZone != "" then Position(c.latitude, c.longitude, c.accuracyRadius, c.timeZone)
                                else NoPosition)
  {
    var ip := env.parseIP(text).value;
    ResolvedLocation(env, db, text);
    GeoIP2StepLocation(env, AsnStage(env, db, text, ip), db.cityDB(ip).value);
  }

  /** An anycast City record supplies only the continent and the registered
      country; region, city and position stay empty. */
  lemma AnycastLocation(env: Env, db: Databases, text: string)
    requires ValidEnv(env) && ValidDatabases(db) && env.parseIP(text).Some?
    requires var ip := env.parseIP(text).value;
             var cn := db.geoCNDB(ip);
             && (cn.None? || (cn.value.province == "" && cn.value.isp == ""))
             && db.cityDB(ip).Some? && db.cityDB(ip).value.isAnycast
    ensures var ip := env.parseIP(text).value;
            var c := db.cityDB(ip).value;
            var loc := Resolve(env, db, text).value.location;
            && loc.country == Country(c.registeredCountry.isoCode, Localized(c.registeredCountry.names))
            && loc.continent == (if c.continentCode != "" then Continent(c.continentCode, Localized(c.continentNames))
                                 else Continent("", ""))
            && loc.region == Region("", "") && loc.city == City("") && loc.position == NoPosition
  {
    var ip := env.parseIP(text).value;
    ResolvedLocation(env, db, text);
    GeoIP2StepLocation(env, AsnStage(env, db, text, ip), db.cityDB(ip).value);
  }

  /** A lookup that no database answers still succeeds: the response holds
      the IP, its version and the default network, and nothing else. */
  lemma NoSourceAnswers(env: Env, db: Databases, text: string)
    requires ValidEnv(env) && ValidDatabases(db) && env.parseIP(text).Some?
    requires var ip := env.parseIP(text).value;
             db.asnDB(ip).None? && db.geoCNDB(ip).None? && db.cityDB(ip).None?
    ensures var ip := env.parseIP(text).value;
            Resolve(env, db, text)
              == Success(WithNetwork(env, EmptyRecord(text).(version := VersionOf(ip)), DefaultNetwork(ip)))
  {
  }

  /** A GeoCN record with empty province and ISP, such as the zeroed record
      of a miss, leads to the same response as a failed GeoCN lookup. */
  lemma RejectedGeoCNIsLikeFailure(env: Env, db: Databases, text: string)
    requires ValidEnv(env) && ValidDatabases(db) && env.parseIP(text).Some?
    requires var cn := db.geoCNDB(env.parseIP(text).value);
             cn.Some? && cn.value.province == "" && cn.value.isp == ""
    ensures var failing := db.(geoCNDB := (a: Bytes) => None);
            ValidDatabases(failing) && Resolve(env, db, text) == Resolve(env, failing, text)
  {
    var failing := db.(geoCNDB := (a: Bytes) => None);
    assert ValidDatabases(failing) by {
      forall a ensures AsnNetworkOk(failing.asnDB(a)) && CityNetworkOk(failing.cityDB(a)) {
        assert AsnNetworkOk(db.asnDB(a)) && CityNetworkOk(db.cityDB(a));
      }
    }
  }

  /** A GeoCN miss, which the reader reports as the zeroed record, is not a
      hit: the lookup answers as if the GeoCN database had failed. */
  lemma GeoCNMissIsLikeFailure(env: Env, db: Databases, text: string)
    requires ValidEnv(env) && ValidDatabases(db) && env.parseIP(text).Some?
    requires db.geoCNDB(env.parseIP(text).value) == Some(ZeroGeoCN)
    ensures var failing := db.(geoCNDB := (a: Bytes) => None);
            ValidDatabases(failing) && Resolve(env, db, text) == Resolve(env, failing, text)
  {
    RejectedGeoCNIsLikeFailure(env, db, text);
  }
}
