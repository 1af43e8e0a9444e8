# ip-geo lookup service, modelled in Dafny

This project models the IP lookup service of the ip-geo server
(`internal/service/ip.go`). Given an address in text form, the service:

- parses the address and records its version (IPv4 when it has a 4-byte form);
- fills the ASN block and the ISP name from the ASN database;
- tries the Chinese GeoCN database, falling back to the GeoIP2 City database;
- uses the City database to backfill coordinates and the continent after a GeoCN hit;
- describes the network the address belongs to: CIDR, first and last address, address count;
- falls back to a /24 (IPv4) or /64 (IPv6) network around the address when no database supplies one.

The model also covers the helpers the file defines:

- localized names with a zh-CN / en fallback;
- removing empty strings and duplicates from a list;
- classifying a region name;
- choosing a region code;
- picking the client address from `X-Real-IP`, `X-Forwarded-For` or the remote address.

Layout:

- `wrappers.dfy`: `Option` and `Result`.
- `netrange.dfy` (`NetRange`):
  - addresses and masks as byte sequences (`bv8`);
  - Go's `IP.Mask`, including its conversions between the 4-byte and 16-byte forms;
  - Go's `IPMask.Size`;
  - the network range, computed by a method over an array;
  - the address count: the as-written version and a corrected one;
  - the default network.
- `helpers.dfy` (`Helpers`): string helpers, `removeEmpty`, `removeDuplicates`, decimal formatting, `getLocalizedName` and `determineRegionType`.
- `records.dfy` (`Records`):
  - the database records and the response blocks;
  - the environment: address parsing and printing, the ASN carrier table, the province list;
  - the three databases, as functions from an address to an optional record. `None` is a lookup error. A miss is a zeroed record, as the MaxMind reader returns.
- `resolution.dfy` (`Resolution`):
  - one pure function per lookup step;
  - `Resolve`, the whole lookup as one function;
  - the lemmas about source precedence.
- `service.dfy` (`Service`):
  - the response (`IPResponse`) and the service (`IPService`) as classes whose methods update the response in place;
  - each method is proved equal to its step function in `Resolution`.
- `clientip.dfy` (`ClientIP`): `GetRealIP`, with Go's `strings.TrimSpace` over the Unicode white-space set.

## Model

| member | source | states |
|---|---|---|
| Service.IPService.constructor | internal/service/ip.go:20-25 | The service holds the given databases. |
| Service.IPResponse.constructor | internal/service/ip.go:30 | A new response holds only the queried text; every other block is empty. |
| Service.IPService.LookupIP | internal/service/ip.go:28-69 | Returns no response exactly when it returns an error. The error is ErrInvalidIP exactly when the text does not parse. Otherwise the response is a fresh object equal to the pure `Resolve` result. |
| Service.IPService.LookupASN | internal/service/ip.go:72-96 | Reports success exactly when the ASN lookup does not fail. The new response is the ASN step applied to the old one. |
| Service.IPService.LookupGeoCN | internal/service/ip.go:99-188 | Reports success exactly when the GeoCN lookup succeeds with a non-empty province or ISP. In that case the new response is the GeoCN step, with the City backfill, applied to the old one. Otherwise the response is unchanged. |
| Service.IPService.LookupGeoIP2 | internal/service/ip.go:191-285 | Reports success exactly when the City lookup does not fail. In that case the new response is the GeoIP2 step applied to the old one. Otherwise the response is unchanged. |
| Service.IPService.SetNetworkInfo | internal/service/ip.go:288-294 | The new response is the old one with the network's CIDR text, first and last address text, and address count. |
| Service.IPService.SetDefaultNetwork | internal/service/ip.go:297-311 | The new response is the old one with the default network around the address. |
| Resolution.Resolve | internal/service/ip.go:28-69 | The lookup fails exactly when the text does not parse, and then with ErrInvalidIP. A successful lookup carries the queried text and the version (IPv4 exactly when the address has a 4-byte form), and its CIDR is never empty. |
| Resolution.NetworkSetOnce | internal/service/ip.go:47-65 | The network block comes from the first of these with a network: the ASN record; then, on the GeoIP2 path only, a non-anycast City record; then the default network. It is never overwritten. Its type is the GeoCN `net` field after a GeoCN hit, else empty. |
| Resolution.IspPrecedence | internal/service/ip.go:83-89 | A GeoCN ISP replaces the ASN organization as ISP name and the carrier label as ASN info. The ISP type stays the carrier label. The ASN number and name come from the ASN record alone. |
| Resolution.DomesticPrecedence | internal/service/ip.go:115-186 | After a GeoCN hit the location is China with time zone Asia/Shanghai and no city block. The region name is province + city + district. The region code is the decimal code of the most specific non-empty level. A City record, when present, supplies only coordinates, accuracy radius and continent. |
| Resolution.GlobalFallback | internal/service/ip.go:233-277 | Without a GeoCN hit, a non-anycast City record supplies the location. Continent and country are taken only when their codes are non-empty. The region is the first subdivision, and its code is `GetRegionCode`'s. The city is the localized city name. Position and time zone are taken only when the time zone is non-empty. |
| Resolution.AnycastLocation | internal/service/ip.go:239-247 | An anycast City record supplies the continent and the registered country only. Region, city and position stay empty. |
| Resolution.NoSourceAnswers | internal/service/ip.go:47-65 | When every database lookup fails, the lookup still succeeds with only the IP, its version and the default network. |
| Resolution.RejectedGeoCNIsLikeFailure | internal/service/ip.go:115-118 | A GeoCN record with empty province and ISP, such as a miss, gives the same response as a failed GeoCN lookup. |
| Resolution.GeoCNMissIsLikeFailure | internal/service/ip.go:111-118 | A GeoCN miss, which the reader reports as the zeroed record, is not a hit. The lookup then gives the same response as when the GeoCN lookup fails. |
| Resolution.ResolvedLocation | internal/service/ip.go:52-65 | The final location is the one the chosen location step produced. The default-network step never changes it. |
| Resolution.GeoCNStepLocation | internal/service/ip.go:120-186 | States the location the GeoCN step writes over an empty location, with and without a City record. |
| Resolution.GeoIP2StepLocation | internal/service/ip.go:233-277 | States the location the GeoIP2 step writes over an empty location, for anycast and non-anycast records. |
| Resolution.AsnStage | internal/service/ip.go:47-50 | After the ASN step the location is still empty and the network type unset. |
| Resolution.WithNetwork | internal/service/ip.go:288-294 | Writing the network info changes nothing outside the network block, and keeps its type. |
| Resolution.AfterAsn | internal/service/ip.go:72-96 | The ASN step keeps the IP, the version, the location and the network type. |
| Resolution.AfterGeoCN | internal/service/ip.go:99-188 | The GeoCN step keeps the IP, the version, the ISP type, the ASN number and name, and every network field but the type. |
| Resolution.AfterGeoIP2 | internal/service/ip.go:191-285 | The GeoIP2 step keeps the IP, the version, the ASN and ISP blocks and the network type. It keeps a network whose CIDR is already set. |
| Resolution.NetworkSource | internal/service/ip.go:91-93 | The network that ends up described is always well formed. |
| Resolution.GetRegionCode | internal/service/ip.go:420-430 | Returns the first subdivision's ISO code when there is a subdivision, and "" otherwise. |
| NetRange.CalculateNetworkRange | internal/service/ip.go:348-362 | The first address is the network address masked. The last address is that with every host bit set. |
| NetRange.RangeBrackets | internal/service/ip.go:348-362 | The first and last addresses belong to the network. Every address in the network lies between them, by numeric value. |
| NetRange.MaskIP | internal/service/ip.go:352 | Go's IP.Mask: masks byte-wise when the lengths agree, and masks the 4-byte tail of a v4-mapped address by a 4-byte mask. It fails exactly when the lengths disagree after those conversions. |
| NetRange.MaskSize | internal/service/ip.go:366 | Go's IPMask.Size: the result is (ones, bits) with ones <= bits. Bits is 0 for a non-canonical mask, else 8 times the mask length, and then the mask is the canonical prefix mask of `ones` bits. |
| NetRange.MaskSizeOfPrefix | internal/service/ip.go:366 | The size of the canonical prefix mask of `ones` bits over `len` bytes is (ones, 8*len). |
| NetRange.LeadingOnesOfPrefix | internal/service/ip.go:366 | A canonical prefix mask of `ones` bits has exactly `ones` leading one bits. |
| NetRange.TotalIPsAsWritten | internal/service/ip.go:365-371 | The source's count: 2 to the power (32 or 128, by whether the address has a 4-byte form, less the prefix length). It is 0 for a negative exponent, and it is defined and fits a uint64 exactly when the exponent is below 64. |
| NetRange.TotalIPs | internal/service/ip.go:365-371 | The corrected count: 2 to the power of the host bits, using the address's own length, capped at the largest uint64. |
| NetRange.TotalIPsAgrees | internal/service/ip.go:365-371 | The corrected count equals the source's wherever the source's is defined and the address is not a 16-byte v4-mapped one. |
| NetRange.DefaultNetwork | internal/service/ip.go:297-311 | The default network is well formed. |
| NetRange.DefaultNetworkV4 | internal/service/ip.go:299-303 | The default network of an address with a 4-byte form is its 4-byte form masked to /24, with the /24 mask. |
| NetRange.DefaultNetworkV6 | internal/service/ip.go:304-309 | The default network of any other address is the address masked to /64, with the /64 mask. Its address has no 4-byte form. |
| NetRange.MaskedMember | internal/service/ip.go:301-306 | An address belongs to the network formed by masking it. |
| NetRange.DefaultNetworkContainsQuery | internal/service/ip.go:297-311 | The default network has size /24 of 32 or /64 of 128 bits. It contains the queried address, which lies between its first and last address. It holds 256 addresses for IPv4, and the uint64 cap for IPv6. |
| NetRange.DefaultIPv6CountAsWritten | internal/service/ip.go:365-371 | For every IPv6 default network, the source's count is undefined; the corrected one is the cap. |
| NetRange.MappedNetworkCountAsWritten | internal/service/ip.go:365-371 | For ::ffff:192.168.1.0 with a 16-byte /120 mask, the source's count is 0 and the corrected one is 256. |
| NetRange.Slash24Example | internal/service/ip.go:348-371 | 192.168.1.0/24 runs from 192.168.1.0 to 192.168.1.255 and holds 256 addresses. |
| Helpers.RemoveEmpty | internal/service/ip.go:374-382 | Returns the input in order without its empty strings. A string is in the result exactly when it is a non-empty element of the input. |
| Helpers.NonEmptyElements | internal/service/ip.go:374-382 | The filtered list holds exactly the non-empty elements. |
| Helpers.ConcatNonEmpty | internal/service/ip.go:126-128 | Joining a list with "" gives the same string before and after removing its empty strings. |
| Helpers.Concat3 | internal/service/ip.go:126-128 | Joining three strings with "" is their concatenation. |
| Helpers.RemoveDuplicates | internal/service/ip.go:385-395 | Returns the first occurrence of each string, in input order. The result is duplicate-free and has the same elements as the input. |
| Helpers.DedupElements | internal/service/ip.go:385-395 | Removing duplicates keeps exactly the input's elements. |
| Helpers.DedupDistinct | internal/service/ip.go:385-395 | Removing duplicates leaves no duplicate. |
| Helpers.DedupFirstOccurrenceOrder | internal/service/ip.go:385-395 | The kept strings appear in the order of their first occurrences in the input. |
| Helpers.DecimalString | internal/service/ip.go:133-137 | `%d` of a number is a non-empty string of digits with no leading zero, except "0" itself. |
| Helpers.DecimalRoundTrip | internal/service/ip.go:133-137 | Reading back the decimal text of a number gives the number. |
| Helpers.GetLocalizedName | internal/service/ip.go:337-345 | Returns the primary language's entry when that key is present (even if the entry is empty), else the fallback's, else "". The result is "" or one of the map's values. |
| Helpers.EmptyPrimaryHidesFallback | internal/service/ip.go:338-340 | A present but empty zh-CN name hides the English one. |
| Helpers.DetermineRegionType | internal/service/ip.go:398-417 | Returns "province" exactly when the region contains a province name. Else "city" exactly when it ends in 市. Else "district" exactly when it ends in 区 or 县. Otherwise "unknown". |
| ClientIP.GetRealIP | internal/service/ip.go:314-334 | A non-empty X-Real-IP header wins. Next comes the first comma-separated field of a non-empty X-Forwarded-For, trimmed: it holds no comma and neither starts nor ends with white space. Otherwise the host part of the remote address is used. A missing header counts as empty. |
| ClientIP.FirstField | internal/service/ip.go:323-324 | The first field of a comma-split is the longest comma-free prefix. |
| ClientIP.TrimSpace | internal/service/ip.go:325 | The trimmed string neither starts nor ends with a white-space character. |
| ClientIP.TrimSpaceIsInfix | internal/service/ip.go:325 | The trimmed string is a contiguous piece of the input, and only white space surrounds it. |

## Left out

- Other parts of the server are not part of this model: the database loader and downloader, the HTTP handler, CORS, configuration, the entry point and the response JSON encoding.
- `net.ParseIP`, `IP.String`, `IPNet.String` and `net.SplitHostPort` are parameters of the model. Their parsing and printing are not modelled, and neither is the error `SplitHostPort` can return: only its host part is used.
- The MaxMind reader is modelled as a function from an address to an optional record. Decoding and real database contents are not modelled.
- The service takes its databases as a parameter. The process-wide singleton behind `NewIPService` is not modelled.
- Logging is left out. It has no effect on the result.
- Latitude and longitude are copied as `real` values. No floating-point arithmetic is done on them.
- Unsigned integer fields are naturals:
  - The `uint16` accuracy radius and the `uint64` GeoCN codes are only copied, or formatted with `%d`.
  - The `uint` AS number (internal/service/ip.go:74) is converted with `int(...)` at internal/service/ip.go:85 to index the carrier table. AS numbers are 32-bit, so that conversion cannot wrap, and the carrier table is keyed by naturals.
  - The `uint64` address count is computed; `NetRange.TotalIPsAsWritten` and `NetRange.TotalIPs` model that computation.
- Geoname IDs are not modelled. The source decodes them but never reads them.
- The City database is read at two places, and at most one of them runs per query. The backfill read at internal/service/ip.go:167 runs only after a GeoCN hit. The read at internal/service/ip.go:229 runs only when the GeoCN step reports an error. Both read the same entry for the same address, into different struct shapes. The model uses one `CityRecord`, of which the backfill reads a part, so the two shapes being separate decodings is all it leaves out.
- The ASN carrier table and the province list are parameters. Their contents are not modelled.
- `ValidDatabases` requires every database network to have a 4- or 16-byte address and a mask of the same length. The model says nothing about the other shapes. In the source they behave as follows:
  - A mask shorter than the address makes the loop at internal/service/ip.go:357-358 read past the mask's end and panic. A v4-mapped 16-byte address with a 4-byte mask is one such case.
  - A mask longer than the address does not panic. `IP.Mask` at internal/service/ip.go:352 cuts a 16-byte mask whose first 12 bytes are all ones to its last four bytes when the address has 4 bytes. Any other length mismatch gives a nil start address. The end address is built from the mask's first bytes, as many as the address has.
  - An address of another length with a mask of the same length gets an ordinary range. Its address count uses 128 bits.
- NetRange.TotalIPsAsWritten: for exponents of 64 or more, the source's uint64 conversion of the float power is implementation-dependent in Go. `TotalIPsAsWritten` returns `None` there and does not pick a value.
- Service.IPService.SetNetworkInfo: the count written into the response is the corrected `NetRange.TotalIPs` from the Findings table, not `calculateTotalIPs` as written. The two differ in two cases:
  - A v4-mapped 16-byte address with a 16-byte mask. The source counts 2^(32 - prefix), which truncates to 0 for prefixes above 32 (0 for ::ffff:192.168.1.0/120). The response holds 2^(128 - prefix), capped at the largest uint64: 256 in that example, and the cap for every prefix up to 64. A non-canonical mask, whose size Go reports as (0, 0), makes the source count 2^32, while the response holds the cap.
  - A network with 64 or more host bits, such as every IPv6 default /64: the source's value is implementation-dependent, while the response holds the largest uint64.
  `Resolution.WithNetwork`, `Resolution.NetworkSetOnce` and `Resolution.Resolve` carry the same corrected count.
- `removeDuplicates`, `determineRegionType` and `getRegionCode` are not called by the lookup in the source. They are modelled on their own.
- The model follows the code on these points:
  - a GeoCN record counts as a hit when its province or its ISP is non-empty;
  - no default network type is ever set;
  - the location holds a single region, with a code and a name.

## Findings

| source | as written | input that shows it | evidently intended | confidence | as-written member | corrected member |
|---|---|---|---|---|---|---|
| internal/service/ip.go:365-371 | `uint64(math.Pow(2, 128-prefix))` for IPv6 networks | any IPv6 address with no database network: the default /64 asks for 2^64, which no uint64 holds, so Go's conversion is implementation-dependent | a count capped at the largest uint64 | not executed; high | NetRange.DefaultIPv6CountAsWritten | NetRange.TotalIPs |
| internal/service/ip.go:365-371 | the exponent uses 32 whenever the address has a 4-byte form, with the prefix length of a possibly 16-byte mask | network ::ffff:192.168.1.0 with a 16-byte /120 mask: exponent 32 - 120 < 0, so the count truncates to 0 | 2^(mask bits - prefix) = 256 | not executed; medium | NetRange.MappedNetworkCountAsWritten | NetRange.TotalIPs |
