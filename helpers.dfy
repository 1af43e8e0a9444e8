/** The string helpers of the IP service: empty and duplicate filtering,
    joining, decimal formatting, localized-name selection and region-type
    classification. Strings are sequences of characters; the source's
    strings.HasSuffix and strings.Contains work on UTF-8 bytes, which agree
    with the character view for the well-formed text the service handles. */
module Helpers {

  /** strings.HasPrefix. */
  predicate HasPrefix(s: string, p: string) {
    |p| <= |s| && s[..|p|] == p
  }

  /** strings.HasSuffix. */
  predicate HasSuffix(s: string, p: string) {
    |p| <= |s| && s[|s| - |p|..] == p
  }

  /** strings.Contains: sub occurs in s starting at some position; the empty
      string occurs in every string. */
  predicate Contains(s: string, sub: string) {
    HasPrefix(s, sub) || (|s| > 0 && Contains(s[1..], sub))
  }

  /** strings.Join(xs, ""): the strings one after another. */
  function Concat(xs: seq<string>): string {
    if xs == [] then "" else Concat(xs[..|xs| - 1]) + xs[|xs| - 1]
  }

  /** The non-empty strings of xs, in their order. */
  function NonEmpty(xs: seq<string>): seq<string> {
    if xs == [] then []
    else NonEmpty(xs[..|xs| - 1]) + (if xs[|xs| - 1] == "" then [] else [xs[|xs| - 1]])
  }

  /** NonEmpty keeps exactly the non-empty strings of its input. */
  lemma {:induction false} NonEmptyElements(xs: seq<string>)
    ensures forall s :: s in NonEmpty(xs) <==> s in xs && s != ""
  {
    if xs != [] {
      NonEmptyElements(xs[..|xs| - 1]);
      assert xs == xs[..|xs| - 1] + [xs[|xs| - 1]];
    }
  }

  /** Dropping empty strings does not change their concatenation. */
  lemma {:induction false} ConcatNonEmpty(xs: seq<string>)
    ensures Concat(NonEmpty(xs)) == Concat(xs)
  {
    if xs != [] {
      var init, last := xs[..|xs| - 1], xs[|xs| - 1];
      ConcatNonEmpty(init);
      if last != "" {
        var r := NonEmpty(init) + [last];
        assert r[..|r| - 1] == NonEmpty(init);
      } else {
        assert NonEmpty(xs) == NonEmpty(init) + [] == NonEmpty(init);
        assert Concat(xs) == Concat(init) + last;
        assert Concat(init) + "" == Concat(init);
      }
    }
  }

  /** Joining three strings with no separator is their concatenation. */
  lemma Concat3(a: string, b: string, c: string)
    ensures Concat([a, b, c]) == a + b + c
  {
    assert [a][..0] == [];
    assert Concat([a]) == "" + a == a;
    assert [a, b][..1] == [a];
    assert Concat([a, b]) == a + b;
    assert [a, b, c][..2] == [a, b];
  }

  /** removeEmpty: appends each non-empty string of arr to a fresh slice. */
  method RemoveEmpty(arr: seq<string>) returns (result: seq<string>)
    ensures result == NonEmpty(arr)
    ensures forall s :: s in result <==> s in arr && s != ""
  {
    result := [];
    for i := 0 to |arr|
      invariant result == NonEmpty(arr[..i])
    {
      assert arr[..i + 1][..i] == arr[..i];
      if arr[i] != "" {
        result := result + [arr[i]];
      }
    }
    assert arr[..|arr|] == arr;
    NonEmptyElements(arr);
  }

  /** The strings of xs, each at its first occurrence only, in order. */
  function Dedup(xs: seq<string>): seq<string> {
    if xs == [] then []
    else
      var r := Dedup(xs[..|xs| - 1]);
      if xs[|xs| - 1] in r then r else r + [xs[|xs| - 1]]
  }

  predicate Distinct(xs: seq<string>) {
    forall i, j :: 0 <= i < j < |xs| ==> xs[i] != xs[j]
  }

  /** The position of the first occurrence of s in xs. */
  function FirstIndex(xs: seq<string>, s: string): (k: nat)
    requires s in xs
    ensures k < |xs| && xs[k] == s && s !in xs[..k]
  {
    var init := xs[..|xs| - 1];
    if s in init then
      var k := FirstIndex(init, s);
      assert xs[..k] == init[..k];
      k
    else
      |xs| - 1
  }

  /** Dedup keeps every string of its input and no other. */
  lemma {:induction false} DedupElements(xs: seq<string>)
    ensures forall s :: s in Dedup(xs) <==> s in xs
  {
    if xs != [] {
      DedupElements(xs[..|xs| - 1]);
      assert xs == xs[..|xs| - 1] + [xs[|xs| - 1]];
    }
  }

  /** Dedup's result holds no string twice. */
  lemma {:induction false} DedupDistinct(xs: seq<string>)
    ensures Distinct(Dedup(xs))
  {
    if xs != [] {
      DedupDistinct(xs[..|xs| - 1]);
    }
  }

  /** Dedup lists the strings in the order of their first occurrences. */
  lemma {:induction false} DedupFirstOccurrenceOrder(xs: seq<string>)
    ensures forall s :: s in Dedup(xs) ==> s in xs
    ensures forall i, j :: 0 <= i < j < |Dedup(xs)| ==>
              FirstIndex(xs, Dedup(xs)[i]) < FirstIndex(xs, Dedup(xs)[j])
  {
    DedupElements(xs);
    if xs != [] {
      var init, last := xs[..|xs| - 1], xs[|xs| - 1];
      var r := Dedup(init);
      DedupFirstOccurrenceOrder(init);
      DedupElements(init);
      forall s | s in init ensures FirstIndex(xs, s) == FirstIndex(init, s) && FirstIndex(init, s) < |init| {
      }
      if last !in r {
        assert last !in init;
        assert FirstIndex(xs, last) == |xs| - 1;
      }
    }
  }

  /** removeDuplicates: walks arr once, keeping a string when the map of
      strings seen so far does not mark it (a missing key reads as false). */
  method RemoveDuplicates(arr: seq<string>) returns (result: seq<string>)
    ensures result == Dedup(arr)
    ensures Distinct(result)
    ensures forall s :: s in result <==> s in arr
  {
    var seen: map<string, bool> := map[];
    result := [];
    for i := 0 to |arr|
      invariant result == Dedup(arr[..i])
      invariant forall s :: s in seen <==> s in result
      invariant forall s :: s in seen ==> seen[s]
    {
      assert arr[..i + 1][..i] == arr[..i];
      var str := arr[i];
      if !(str in seen && seen[str]) {
        seen := seen[str := true];
        result := result + [str];
      }
    }
    assert arr[..|arr|] == arr;
    DedupDistinct(arr);
    DedupElements(arr);
  }

  function DigitChar(d: nat): char
    requires d < 10
  {
    "0123456789"[d]
  }

  predicate IsDigits(s: string) {
    forall i :: 0 <= i < |s| ==> '0' <= s[i] <= '9'
  }

  /** The number a string of decimal digits denotes. */
  function DecimalValue(s: string): nat
    requires IsDigits(s)
  {
    if s == [] then 0 else DecimalValue(s[..|s| - 1]) * 10 + (s[|s| - 1] as int - '0' as int)
  }

  /** fmt.Sprintf("%d", n) for an unsigned n: its decimal digits, no leading zero. */
  function DecimalString(n: nat): (s: string)
    ensures |s| >= 1 && IsDigits(s)
    ensures |s| == 1 || s[0] != '0'
  {
    if n < 10 then [DigitChar(n)] else DecimalString(n / 10) + [DigitChar(n % 10)]
  }

  /** Reading the digits back gives the number that was formatted. */
  lemma {:induction false} DecimalRoundTrip(n: nat)
    ensures DecimalValue(DecimalString(n)) == n
  {
    if n >= 10 {
      DecimalRoundTrip(n / 10);
      var p := DecimalString(n / 10);
      var s := p + [DigitChar(n % 10)];
      assert s[..|s| - 1] == p;
    }
  }

  /** getLocalizedName: the name under the primary language tag when that key
      exists, even if it maps to "", else the name under the fallback tag when
      that key exists, else "". */
  function GetLocalizedName(names: map<string, string>, primary: string, fallback: string): (name: string)
    ensures primary in names ==> name == names[primary]
    ensures primary !in names ==> name == (if fallback in names then names[fallback] else "")
    ensures name == "" || name in names.Values
  {
    if primary in names then names[primary]
    else if fallback in names then names[fallback]
    else ""
  }

  /** An empty primary-language entry hides a non-empty fallback entry: the
      fallback is taken only when the primary key is absent. */
  lemma EmptyPrimaryHidesFallback(fallbackName: string)
    ensures GetLocalizedName(map["zh-CN" := "", "en" := fallbackName], "zh-CN", "en") == ""
  {
  }

  const ProvinceType := "province"
  const CityType := "city"
  const DistrictType := "district"
  const UnknownType := "unknown"

  /** The region contains the name of some province. */
  predicate NamesProvince(region: string, provinces: seq<string>) {
    exists p :: p in provinces && Contains(region, p)
  }

  /** determineRegionType: a region containing a province name is a province,
      checked first; else one ending in 市 is a city; else one ending in 区 or
      县 is a district; else its type is unknown. */
  method DetermineRegionType(region: string, provinces: seq<string>) returns (kind: string)
    ensures kind == ProvinceType <==> NamesProvince(region, provinces)
    ensures kind == CityType <==> !NamesProvince(region, provinces) && HasSuffix(region, "市")
    ensures kind == DistrictType <==>
              && !NamesProvince(region, provinces)
              && !HasSuffix(region, "市")
              && (HasSuffix(region, "区") || HasSuffix(region, "县"))
    ensures kind == UnknownType <==>
              && !NamesProvince(region, provinces)
              && !HasSuffix(region, "市") && !HasSuffix(region, "区") && !HasSuffix(region, "县")
  {
    for i := 0 to |provinces|
      invariant forall k :: 0 <= k < i ==> !Contains(region, provinces[k])
    {
      if Contains(region, provinces[i]) {
        return ProvinceType;
      }
    }
    if HasSuffix(region, "市") {
      return CityType;
    }
    if HasSuffix(region, "区") || HasSuffix(region, "县") {
      return DistrictType;
    }
    return UnknownType;
  }
}
