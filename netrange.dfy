/** Network arithmetic of the IP service: prefix masks, the first and last
    address of a network, and the number of addresses it holds. Addresses are
    big-endian byte strings of 4 (IPv4) or 16 (IPv6) bytes, as Go's net.IP
    holds them. */
module NetRange {
  import opened Wrappers

  type Byte = bv8
  type Bytes = seq<Byte>

  /** An IP network as Go's net.IPNet holds it: an address and a mask. */
  datatype IPNet = IPNet(ip: Bytes, mask: Bytes)

  /** The twelve bytes that mark an IPv4 address stored in the 16-byte form. */
  const V4InV6Prefix: Bytes := [0, 0, 0, 0, 0, 0, 0, 0, 0, 0, 0xff, 0xff]

  /** The largest uint64. */
  const MaxUint64: nat := 0xffff_ffff_ffff_ffff

  predicate IsAddress(ip: Bytes) {
    |ip| == 4 || |ip| == 16
  }

  /** A network whose address and mask have the same length, the shape
      calculateNetworkRange indexes without going out of bounds. */
  predicate WellFormed(n: IPNet) {
    IsAddress(n.ip) && |n.mask| == |n.ip|
  }

  /** net.IP.To4: the 4-byte form of an address, when it has one. */
  function To4(ip: Bytes): Option<Bytes> {
    if |ip| == 4 then Some(ip)
    else if |ip| == 16 && ip[..12] == V4InV6Prefix then Some(ip[12..])
    else None
  }

  function AndBytes(a: Bytes, m: Bytes): (r: Bytes)
    requires |a| == |m|
    ensures |r| == |a|
  {
    seq(|a|, i requires 0 <= i < |a| => a[i] & m[i])
  }

  predicate AllOnes(m: Bytes) {
    forall i :: 0 <= i < |m| ==> m[i] == 0xff
  }

  /** net.IP.Mask: a 16-byte mask whose first twelve bytes are all ones is
      cut to its last four bytes for a 4-byte address, an IPv4 address in the
      16-byte form is cut to 4 bytes for a 4-byte mask, and then address and
      mask must have the same length (else Go returns nil). */
  function MaskIP(ip: Bytes, mask: Bytes): (r: Option<Bytes>)
    ensures |ip| == |mask| ==> r == Some(AndBytes(ip, mask))
    ensures |ip| == 16 && ip[..12] == V4InV6Prefix && |mask| == 4 ==> r == Some(AndBytes(ip[12..], mask))
    ensures r.None? <==> (if |mask| == 16 && |ip| == 4 && AllOnes(mask[..12]) then 4 else |mask|)
                         != (if |mask| == 4 && |ip| == 16 && ip[..12] == V4InV6Prefix then 4 else |ip|)
  {
    var m := if |mask| == 16 && |ip| == 4 && AllOnes(mask[..12]) then mask[12..] else mask;
    var a := if |m| == 4 && |ip| == 16 && ip[..12] == V4InV6Prefix then ip[12..] else ip;
    if |a| == |m| then Some(AndBytes(a, m)) else None
  }

  /** The mask byte with k leading one bits (k clamped to 0..8). */
  function PrefixByte(k: int): Byte {
    if k <= 0 then 0x00
    else if k == 1 then 0x80
    else if k == 2 then 0xc0
    else if k == 3 then 0xe0
    else if k == 4 then 0xf0
    else if k == 5 then 0xf8
    else if k == 6 then 0xfc
    else if k == 7 then 0xfe
    else 0xff
  }

  /** net.CIDRMask(ones, 8 * len): a mask of len bytes whose first `ones`
      bits are set. */
  function PrefixMask(ones: nat, len: nat): (m: Bytes)
    ensures |m| == len
  {
    seq(len, i requires 0 <= i < len => PrefixByte(ones - 8 * i))
  }

  /** The number of leading one bits of a byte. */
  function ByteOnes(b: Byte): (k: nat)
    ensures k <= 8
    ensures k == 8 <==> b == 0xff
  {
    if b == 0xff then 8
    else if b >= 0xfe then 7
    else if b >= 0xfc then 6
    else if b >= 0xf8 then 5
    else if b >= 0xf0 then 4
    else if b >= 0xe0 then 3
    else if b >= 0xc0 then 2
    else if b >= 0x80 then 1
    else 0
  }

  /** The number of leading one bits of a mask. */
  function LeadingOnes(m: Bytes): (n: nat)
    ensures n <= 8 * |m|
  {
    if m == [] then 0
    else if m[0] == 0xff then 8 + LeadingOnes(m[1..])
    else ByteOnes(m[0])
  }

  /** net.IPMask.Size: (ones, bits) for a canonical prefix mask, where bits is
      the mask's length in bits; (0, 0) for any other mask. */
  function MaskSize(m: Bytes): (r: (nat, nat))
    ensures r.0 <= r.1
    ensures r.1 == 0 || r.1 == 8 * |m|
    ensures r.1 != 0 ==> m == PrefixMask(r.0, |m|)
  {
    var ones := LeadingOnes(m);
    if m == PrefixMask(ones, |m|) then (ones, 8 * |m|) else (0, 0)
  }

  lemma {:induction false} LeadingOnesOfPrefix(ones: nat, len: nat)
    requires ones <= 8 * len
    ensures LeadingOnes(PrefixMask(ones, len)) == ones
  {
    var m := PrefixMask(ones, len);
    if len == 0 {
    } else if ones >= 8 {
      assert m[0] == 0xff;
      assert m[1..] == PrefixMask(ones - 8, len - 1);
      LeadingOnesOfPrefix(ones - 8, len - 1);
    } else {
      assert m[0] == PrefixByte(ones);
    }
  }

  /** Size(CIDRMask(ones, bits)) == (ones, bits): reading the prefix length
      back from a prefix mask gives the length it was built from. */
  lemma MaskSizeOfPrefix(ones: nat, len: nat)
    requires 0 < len && ones <= 8 * len
    ensures MaskSize(PrefixMask(ones, len)) == (ones, 8 * len)
  {
    LeadingOnesOfPrefix(ones, len);
  }

  /** The first address of a network: its address with every host bit cleared. */
  function RangeStart(n: IPNet): (s: Bytes)
    requires WellFormed(n)
    ensures |s| == |n.ip|
  {
    AndBytes(n.ip, n.mask)
  }

  /** The last address of a network: its first address with every host bit set. */
  function RangeEnd(n: IPNet): (e: Bytes)
    requires WellFormed(n)
    ensures |e| == |n.ip|
  {
    var s := RangeStart(n);
    seq(|s|, i requires 0 <= i < |s| => s[i] | !n.mask[i])
  }

  /** x belongs to network n: it agrees with n's address on every mask bit. */
  predicate InNetwork(x: Bytes, n: IPNet)
    requires WellFormed(n)
  {
    |x| == |n.ip| && forall i :: 0 <= i < |x| ==> x[i] & n.mask[i] == n.ip[i] & n.mask[i]
  }

  /** calculateNetworkRange: the start is the address masked (Go's IP.Mask),
      the end a fresh buffer holding a copy of the start in which every byte
      is OR-ed with the inverted mask byte. */
  method CalculateNetworkRange(network: IPNet) returns (startIP: Bytes, endIP: Bytes)
    requires WellFormed(network)
    ensures startIP == RangeStart(network) && endIP == RangeEnd(network)
  {
    var masked := MaskIP(network.ip, network.mask);
    startIP := masked.value;
    var buf := new Byte[|network.ip|];
    forall k | 0 <= k < buf.Length {
      buf[k] := startIP[k];
    }
    var i := 0;
    while i < buf.Length
      invariant 0 <= i <= buf.Length
      invariant forall k :: 0 <= k < i ==> buf[k] == startIP[k] | !network.mask[k]
      invariant forall k :: i <= k < buf.Length ==> buf[k] == startIP[k]
    {
      buf[i] := buf[i] | !network.mask[i];
      i := i + 1;
    }
    endIP := buf[..];
  }

  /** The unsigned big-endian value of an address. */
  function Value(b: Bytes): nat {
    if b == [] then 0 else Value(b[..|b| - 1]) * 256 + b[|b| - 1] as nat
  }

  lemma {:induction false} ValueMonotone(a: Bytes, b: Bytes)
    requires |a| == |b|
    requires forall i :: 0 <= i < |a| ==> a[i] <= b[i]
    ensures Value(a) <= Value(b)
  {
    if a != [] {
      var n := |a| - 1;
      ValueMonotone(a[..n], b[..n]);
      assert a[n] as nat <= b[n] as nat;
    }
  }

  /** The start and end of a network belong to it (both keep every mask bit
      of the network's address), and every member of the network lies between
      them, so start <= end and the queried range is exactly bracketed. */
  lemma RangeBrackets(n: IPNet, x: Bytes)
    requires WellFormed(n) && InNetwork(x, n)
    ensures InNetwork(RangeStart(n), n) && InNetwork(RangeEnd(n), n)
    ensures Value(RangeStart(n)) <= Value(x) <= Value(RangeEnd(n))
  {
    var s, e := RangeStart(n), RangeEnd(n);
    forall i | 0 <= i < |x|
      ensures s[i] <= x[i] <= e[i]
      ensures s[i] & n.mask[i] == n.ip[i] & n.mask[i]
      ensures e[i] & n.mask[i] == n.ip[i] & n.mask[i]
    {
      var a, m, y := n.ip[i], n.mask[i], x[i];
      assert y & m == a & m;
      assert s[i] == a & m && e[i] == (a & m) | !m;
      assert (y & m) <= y;
      assert y <= (y & m) | !m;
    }
    ValueMonotone(s, x);
    ValueMonotone(x, e);
  }

  /** 2 to the power k. */
  function Pow2(k: nat): (r: nat)
    ensures r >= 1
  {
    if k == 0 then 1 else 2 * Pow2(k - 1)
  }

  lemma {:induction false} Pow2Monotone(a: nat, b: nat)
    requires a <= b
    ensures Pow2(a) <= Pow2(b)
  {
    if a < b {
      Pow2Monotone(a, b - 1);
    }
  }

  lemma {:induction false} Pow2Add(a: nat, b: nat)
    ensures Pow2(a + b) == Pow2(a) * Pow2(b)
  {
    if b > 0 {
      Pow2Add(a, b - 1);
    }
  }

  lemma Pow2Values()
    ensures Pow2(8) == 256 && Pow2(64) == MaxUint64 + 1
  {
    assert Pow2(2) == 4;
    Pow2Add(2, 2);
    Pow2Add(4, 4);
    Pow2Add(8, 8);
    Pow2Add(16, 16);
    Pow2Add(32, 32);
  }

  lemma Pow2Below64(k: nat)
    requires k < 64
    ensures Pow2(k) <= MaxUint64
  {
    Pow2Monotone(k, 63);
    Pow2Values();
  }

  /** The exponent calculateTotalIPs raises 2 to: 32 when the network's
      address has a 4-byte form, else 128, less the mask's prefix length. */
  function HostBitsAsWritten(n: IPNet): int {
    (if To4(n.ip).Some? then 32 else 128) - MaskSize(n.mask).0
  }

  /** calculateTotalIPs as written: uint64(math.Pow(2, e)). A negative e gives
      a float below 1, which the conversion truncates to 0. For e >= 64 the
      float does not fit a uint64 and Go leaves the result to the
      implementation; None stands for that value. */
  function TotalIPsAsWritten(n: IPNet): (r: Option<nat>)
    ensures r.Some? <==> HostBitsAsWritten(n) < 64
    ensures r.Some? ==> r.value <= MaxUint64
    ensures HostBitsAsWritten(n) < 0 ==> r == Some(0)
    ensures 0 <= HostBitsAsWritten(n) < 64 ==> r == Some(Pow2(HostBitsAsWritten(n)))
  {
    var e := HostBitsAsWritten(n);
    if e < 0 then Some(0)
    else if e < 64 then (Pow2Below64(e); Some(Pow2(e)))
    else None
  }

  /** The host bits of a well-formed network: its length in bits less its
      prefix length. */
  function HostBits(n: IPNet): nat
    requires WellFormed(n)
  {
    8 * |n.ip| - MaskSize(n.mask).0
  }

  /** The address count the service reports: 2^(bits - prefix), capped at the
      largest uint64 when it does not fit. */
  function TotalIPs(n: IPNet): (r: nat)
    requires WellFormed(n)
    ensures r <= MaxUint64
    ensures HostBits(n) < 64 ==> r == Pow2(HostBits(n))
    ensures HostBits(n) >= 64 ==> r == MaxUint64
  {
    var e := HostBits(n);
    if e < 64 then (Pow2Below64(e); Pow2(e)) else MaxUint64
  }

  /** Where the source's conversion is defined and the address is not an
      IPv4 address in the 16-byte form, the capped count equals the source's. */
  lemma TotalIPsAgrees(n: IPNet)
    requires WellFormed(n)
    requires To4(n.ip).Some? <==> |n.ip| == 4
    requires HostBitsAsWritten(n) < 64
    ensures TotalIPsAsWritten(n) == Some(TotalIPs(n))
  {
  }

  /** The network setDefaultNetwork builds: the queried address masked to /24
      when it has a 4-byte form, else to /64. */
  function DefaultNetwork(ip: Bytes): (n: IPNet)
    requires IsAddress(ip)
    ensures WellFormed(n)
  {
    if To4(ip).Some? then
      IPNet(MaskIP(ip, PrefixMask(24, 4)).value, PrefixMask(24, 4))
    else
      IPNet(MaskIP(ip, PrefixMask(64, 16)).value, PrefixMask(64, 16))
  }

  /** The default network of an address with a 4-byte form q is q masked to
      /24, with the /24 mask. */
  lemma DefaultNetworkV4(ip: Bytes)
    requires IsAddress(ip) && To4(ip).Some?
    ensures DefaultNetwork(ip) == IPNet(AndBytes(To4(ip).value, PrefixMask(24, 4)), PrefixMask(24, 4))
  {
  }

  /** The default network of any other address is the address masked to /64;
      the masked address has no 4-byte form. */
  lemma DefaultNetworkV6(ip: Bytes)
    requires IsAddress(ip) && To4(ip).None?
    ensures DefaultNetwork(ip) == IPNet(AndBytes(ip, PrefixMask(64, 16)), PrefixMask(64, 16))
    ensures To4(DefaultNetwork(ip).ip).None?
  {
    var n := DefaultNetwork(ip);
    assert PrefixMask(64, 16)[10] == 0;
    assert n.ip[10] == 0;
    assert n.ip[..12] != V4InV6Prefix by {
      assert n.ip[..12][10] != V4InV6Prefix[10];
    }
  }

  /** Masking an address keeps it inside the network it defines. */
  lemma MaskedMember(q: Bytes, mask: Bytes)
    requires IsAddress(q) && |mask| == |q|
    ensures InNetwork(q, IPNet(AndBytes(q, mask), mask))
  {
    var n := IPNet(AndBytes(q, mask), mask);
    forall i | 0 <= i < |q| ensures q[i] & mask[i] == n.ip[i] & mask[i] {
      var a, m := q[i], mask[i];
      assert n.ip[i] == a & m;
      assert (a & m) & m == a & m;
    }
  }

  /** The default network has prefix /24 (IPv4) or /64 (IPv6), contains the
      queried address (in its 4-byte form for IPv4), so that address lies
      between the range's start and end, and holds 256 addresses (IPv4) or,
      capped, the largest uint64 (IPv6: 2^64 does not fit). */
  lemma DefaultNetworkContainsQuery(ip: Bytes)
    requires IsAddress(ip)
    ensures var n := DefaultNetwork(ip);
            var q := if To4(ip).Some? then To4(ip).value else ip;
            && MaskSize(n.mask) == (if To4(ip).Some? then (24, 32) else (64, 128))
            && InNetwork(q, n)
            && Value(RangeStart(n)) <= Value(q) <= Value(RangeEnd(n))
            && TotalIPs(n) == (if To4(ip).Some? then 256 else MaxUint64)
  {
    var n := DefaultNetwork(ip);
    var q := if To4(ip).Some? then To4(ip).value else ip;
    if To4(ip).Some? {
      DefaultNetworkV4(ip);
      MaskSizeOfPrefix(24, 4);
      Pow2Values();
    } else {
      DefaultNetworkV6(ip);
      MaskSizeOfPrefix(64, 16);
    }
    MaskedMember(q, n.mask);
    RangeBrackets(n, q);
  }

  /** As written, every IPv6 default network (/64) asks for 2^64 addresses,
      a float the uint64 conversion cannot represent. */
  lemma DefaultIPv6CountAsWritten(ip: Bytes)
    requires IsAddress(ip) && To4(ip).None?
    ensures TotalIPsAsWritten(DefaultNetwork(ip)).None?
    ensures TotalIPs(DefaultNetwork(ip)) == MaxUint64
  {
    DefaultNetworkV6(ip);
    MaskSizeOfPrefix(64, 16);
  }

  /** As written, a network ::ffff:192.168.1.0 with a 16-byte /120 mask
      counts 2^(32 - 120), truncated to 0, though it holds 256 addresses. */
  lemma MappedNetworkCountAsWritten()
    ensures var n := IPNet(V4InV6Prefix + [192, 168, 1, 0], PrefixMask(120, 16));
            TotalIPsAsWritten(n) == Some(0) && TotalIPs(n) == 256
  {
    var n := IPNet(V4InV6Prefix + [192, 168, 1, 0], PrefixMask(120, 16));
    assert n.ip[..12] == V4InV6Prefix;
    MaskSizeOfPrefix(120, 16);
    Pow2Values();
  }

  /** 192.168.1.0/24 runs from 192.168.1.0 to 192.168.1.255 and holds 256 addresses. */
  lemma Slash24Example()
    ensures var n := IPNet([192, 168, 1, 0], PrefixMask(24, 4));
            RangeStart(n) == [192, 168, 1, 0] && RangeEnd(n) == [192, 168, 1, 255] && TotalIPs(n) == 256
  {
    var n := IPNet([192, 168, 1, 0], PrefixMask(24, 4));
    MaskSizeOfPrefix(24, 4);
    Pow2Values();
    assert n.mask == [0xff, 0xff, 0xff, 0];
  }
}
