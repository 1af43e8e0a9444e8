/** GetRealIP: which address a request is attributed to. X-Real-IP wins when
    non-empty, then the first entry of X-Forwarded-For with surrounding white
    space removed, then the host part of the connection's remote address. */
module ClientIP {

  const RealIPHeader := "X-Real-IP"
  const ForwardedForHeader := "X-Forwarded-For"

  /** A Go map read: a missing key gives "". */
  function Header(headers: map<string, string>, key: string): string {
    if key in headers then headers[key] else ""
  }

  /** The characters unicode.IsSpace accepts, the white space strings.TrimSpace removes. */
  const Spaces: set<char> := {
    ' ', '\t', '\n', '\U{000B}', '\U{000C}', '\r', '\U{0085}', '\U{00A0}', '\U{1680}',
    '\U{2000}', '\U{2001}', '\U{2002}', '\U{2003}', '\U{2004}', '\U{2005}', '\U{2006}', '\U{2007}', '\U{2008}', '\U{2009}', '\U{200A}',
    '\U{2028}', '\U{2029}', '\U{202F}', '\U{205F}', '\U{3000}'
  }

  predicate IsSpace(c: char) {
    c in Spaces
  }

  function TrimLeft(s: string): (r: string)
    ensures |r| <= |s| && r == s[|s| - |r|..]
    ensures r == [] || !IsSpace(r[0])
    ensures forall i :: 0 <= i < |s| - |r| ==> IsSpace(s[i])
  {
    if s != [] && IsSpace(s[0]) then TrimLeft(s[1..]) else s
  }

  function TrimRight(s: string): (r: string)
    ensures |r| <= |s| && r == s[..|r|]
    ensures r == [] || !IsSpace(r[|r| - 1])
    ensures forall i :: |r| <= i < |s| ==> IsSpace(s[i])
  {
    if s != [] && IsSpace(s[|s| - 1]) then TrimRight(s[..|s| - 1]) else s
  }

  /** strings.TrimSpace: s without its leading and trailing white space. */
  function TrimSpace(s: string): (r: string)
    ensures r == [] || (!IsSpace(r[0]) && !IsSpace(r[|r| - 1]))
  {
    var l := TrimLeft(s);
    var r := TrimRight(l);
    assert r != [] ==> r[0] == l[0];
    r
  }

  /** TrimSpace(s) is the part of s between its leading and its trailing
      white space. */
  lemma TrimSpaceIsInfix(s: string)
    ensures var k := |s| - |TrimLeft(s)|;
            var r := TrimSpace(s);
            && k + |r| <= |s| && r == s[k..k + |r|]
            && (forall i :: 0 <= i < k ==> IsSpace(s[i]))
            && (forall i :: k + |r| <= i < |s| ==> IsSpace(s[i]))
  {
    var l := TrimLeft(s);
    var k := |s| - |l|;
    var r := TrimRight(l);
    assert r == s[k..k + |r|] by {
      assert l == s[k..] && r == l[..|r|];
    }
    forall i | k + |r| <= i < |s| ensures IsSpace(s[i]) {
      var j := i - k;
      assert |r| <= j < |l| && s[i] == l[j];
      assert IsSpace(l[j]);
    }
  }

  /** strings.Split(s, ",")[0]: s up to its first comma. */
  function FirstField(s: string): (f: string)
    ensures |f| <= |s| && f == s[..|f|]
    ensures ',' !in f
    ensures |f| == |s| || s[|f|] == ','
  {
    if s == [] || s[0] == ',' then [] else [s[0]] + FirstField(s[1..])
  }

  /** GetRealIP, with net.SplitHostPort's host result given as hostOf ("" when
      the address does not split). */
  function GetRealIP(headers: map<string, string>, remoteAddr: string, hostOf: string -> string): (ip: string)
    ensures Header(headers, RealIPHeader) != "" ==> ip == headers[RealIPHeader]
    ensures Header(headers, RealIPHeader) == "" && Header(headers, ForwardedForHeader) != "" ==>
              && ip == TrimSpace(FirstField(headers[ForwardedForHeader]))
              && ',' !in ip
              && (ip == [] || (!IsSpace(ip[0]) && !IsSpace(ip[|ip| - 1])))
    ensures Header(headers, RealIPHeader) == "" && Header(headers, ForwardedForHeader) == "" ==>
              ip == hostOf(remoteAddr)
  {
    var realIP := Header(headers, RealIPHeader);
    var forwarded := Header(headers, ForwardedForHeader);
    if realIP != "" then realIP
    else if forwarded != "" then
      var first := FirstField(forwarded);
      var trimmed := TrimSpace(first);
      assert ',' !in trimmed by {
        var k := |first| - |TrimLeft(first)|;
        TrimSpaceIsInfix(first);
        assert forall t :: 0 <= t < |trimmed| ==> trimmed[t] == first[k + t];
      }
      trimmed
    else hostOf(remoteAddr)
  }
}
