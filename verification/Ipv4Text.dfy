/** Dotted quads: the strict parser and the page arithmetic of public/js/ip-panel.js, the
printer inside `_cidr4Range` of public/js/blocks.js, and the page enumeration of
src/utils/cidr.ts that the panel shows. */
module Ipv4Text {
  import opened Wrappers
  import opened JsText
  import opened Bits
  import opened Cidr

  predicate IsAddress(x: int) { 0 <= x < TWO32 }

  // ----- Printing

  /** The dotted quad of an address, by division. */
  function Octets(x: int): (o: seq<int>)
    requires IsAddress(x)
    ensures |o| == 4 && forall i :: 0 <= i < 4 ==> 0 <= o[i] < 256
  {
    [x / 0x100_0000, x / 0x1_0000 % 256, x / 0x100 % 256, x % 256]
  }

  function FromOctets(o: seq<int>): int
    requires |o| == 4
  {
    ((o[0] * 256 + o[1]) * 256 + o[2]) * 256 + o[3]
  }

  function DottedQuad(x: int): string
    requires IsAddress(x)
  {
    Join(Texts(Octets(x), 10), '.')
  }

  /** The printer `fmt` of the source, by shifts and masks. */
  function Fmt(x: int): string {
    var octet := (k: int) => And32(UShr32(x, k), 0xFF);
    Join([ShowOctet(octet(24)), ShowOctet(octet(16)), ShowOctet(octet(8)), ShowOctet(And32(x, 0xFF))], '.')
  }

  function ShowOctet(n: int): string { if n >= 0 then ToText(n, 10) else "-" + ToText(-n, 10) }

  lemma OctetByMask(y: int)
    requires IsAddress(y)
    ensures And32(y, 0xFF) == y % 256
  {
    hide BitAnd, Low, Shr, Pow2;
    var i := ToInt32(y);
    assert Pow2(8) == 256 by { Pow2Values(); }
    AndLowMask(i, 8);
    Int32LowBits(y, 8);
    QuotientRemainder(y, 8);
  }

  lemma ShiftByDivision(x: int, k: nat)
    requires IsAddress(x) && k < 32
    ensures UShr32(x, k) == x / Pow2(k) && IsAddress(UShr32(x, k))
  {
    hide Low, Shr, Pow2;
    QuotientRemainder(x, k);
  }

  lemma OctetAt(x: int, k: nat)
    requires IsAddress(x) && k < 32
    ensures And32(UShr32(x, k), 0xFF) == x / Pow2(k) % 256
  {
    hide And32, UShr32, Pow2;
    ShiftByDivision(x, k);
    OctetByMask(UShr32(x, k));
  }

  /** Shifting and masking prints the dotted quad. */
  lemma FmtIsDottedQuad(x: int)
    requires IsAddress(x)
    ensures Fmt(x) == DottedQuad(x)
  {
    hide And32, UShr32, Pow2, ToText, Join;
    Pow2Values();
    OctetAt(x, 24);
    OctetAt(x, 16);
    OctetAt(x, 8);
    OctetByMask(x);
    var o := Octets(x);
    assert x / 0x100_0000 % 256 == x / 0x100_0000;
    assert Texts(o, 10) == [ToText(o[0], 10), ToText(o[1], 10), ToText(o[2], 10), ToText(o[3], 10)];
  }

  lemma OctetsInverse(x: int)
    requires IsAddress(x)
    ensures FromOctets(Octets(x)) == x
  {
    var b, c := x / 0x100, x / 0x100 / 0x100;
    var d := c / 0x100;
    DivModUnique(x, 0x1_0000, c, b % 0x100 * 0x100 + x % 0x100);
    DivModUnique(x, 0x100_0000, d, c % 0x100 * 0x1_0000 + b % 0x100 * 0x100 + x % 0x100);
  }

  lemma OctetsUnique(o: seq<int>)
    requires |o| == 4 && forall i :: 0 <= i < 4 ==> 0 <= o[i] < 256
    ensures IsAddress(FromOctets(o)) && Octets(FromOctets(o)) == o
  {
  }

  // ----- Parsing

  predicate ValidPart(t: string) {
    var p := ParseInt(t, 10);
    p.Some? && 0 <= p.value <= 255 && ToText(p.value, 10) == t
  }

  lemma QuadParts(x: int)
    requires IsAddress(x)
    ensures Split(DottedQuad(x), '.') == Texts(Octets(x), 10)
    ensures forall i :: 0 <= i < 4 ==>
      ValidPart(Texts(Octets(x), 10)[i]) && ParseInt(Texts(Octets(x), 10)[i], 10) == Some(Octets(x)[i])
  {
    hide ToText, Join, Split, ParseInt;
    var o := Octets(x);
    var t := Texts(o, 10);
    forall i | 0 <= i < 4 ensures '.' !in t[i] && ParseInt(t[i], 10) == Some(o[i]) {
      assert t[i] == ToText(o[i], 10);
      ParsePrinted(o[i], 10);
    }
    SplitJoin(t, '.');
  }

  lemma PartsAreQuad(ip: string, parts: seq<string>, o: seq<int>)
    requires parts == Split(ip, '.') && |parts| == 4 && |o| == 4
    requires forall i :: 0 <= i < 4 ==> 0 <= o[i] < 256 && parts[i] == ToText(o[i], 10)
    ensures IsAddress(FromOctets(o)) && ip == DottedQuad(FromOctets(o))
  {
    hide ToText, Join, Split;
    JoinSplit(ip, '.');
    OctetsUnique(o);
    assert Texts(o, 10) == parts;
  }

  /** `_ipv4ToInt`: accepts exactly the printed quads, and returns the address printed. */
  method Ipv4ToInt(ip: string) returns (r: Option<int>)
    ensures r.Some? ==> IsAddress(r.value) && ip == DottedQuad(r.value)
    ensures r.None? ==> forall x :: IsAddress(x) ==> DottedQuad(x) != ip
  {
    hide ParseInt, ToText, Split, Join, Octets;
    var parts := Split(ip, '.');
    ghost var accepted := forall i :: 0 <= i < |parts| ==> ValidPart(parts[i]);
    assert forall x :: IsAddress(x) && DottedQuad(x) == ip ==> |parts| == 4 && accepted by {
      forall x | IsAddress(x) && DottedQuad(x) == ip ensures |parts| == 4 && accepted { QuadParts(x); }
    }
    if |parts| != 4 { return None; }
    var n, o := 0, [];
    for i := 0 to 4
      invariant |o| == i
      invariant forall j :: 0 <= j < i ==> 0 <= o[j] < 256 && parts[j] == ToText(o[j], 10)
      invariant n == if i == 0 then 0 else if i == 1 then o[0] else if i == 2 then o[0] * 256 + o[1]
                     else if i == 3 then (o[0] * 256 + o[1]) * 256 + o[2] else FromOctets(o)
    {
      var p := ParseInt(parts[i], 10);
      if p.None? || p.value < 0 || p.value > 255 || ToText(p.value, 10) != parts[i] {
        assert !ValidPart(parts[i]);
        return None;
      }
      n, o := n * 256 + p.value, o + [p.value];
    }
    PartsAreQuad(ip, parts, o);
    return Some(n);
  }

  /** Printing and strict parsing are mutually inverse: different addresses print differently. */
  lemma DottedQuadInjective(x: int, y: int)
    requires IsAddress(x) && IsAddress(y) && DottedQuad(x) == DottedQuad(y)
    ensures x == y
  {
    hide ToText, Join, Split, ParseInt, Octets;
    QuadParts(x);
    QuadParts(y);
    assert Octets(x) == Octets(y) by {
      forall i | 0 <= i < 4 ensures Octets(x)[i] == Octets(y)[i] {
        assert Texts(Octets(x), 10)[i] == Texts(Octets(y), 10)[i];
      }
    }
    OctetsInverse(x);
    OctetsInverse(y);
  }

  // ----- `_cidr4Range` on text

  function OrNaN(n: Option<int>): int { if n.Some? then n.value else 0 }

  /** The 32-bit number assembled from four parsed octets. */
  function Assemble4(p: seq<string>): int
    requires |p| == 4
  {
    UShr32(
      Or32(Or32(Or32(Shl32(OrNaN(ParseInt(p[0], 10)), 24), Shl32(OrNaN(ParseInt(p[1], 10)), 16)),
                Shl32(OrNaN(ParseInt(p[2], 10)), 8)),
           OrNaN(ParseInt(p[3], 10))),
      0)
  }

  function Cidr4Range(ip: string, prefix: Option<int>): Option<(string, string)> {
    var p := Split(ip, '.');
    if |p| != 4 then None
    else
      var (start, end) := Range4(Assemble4(p), prefix);
      Some((Fmt(start), Fmt(end)))
  }

  /** Or-ing one more shifted octet, below those already there. */
  lemma OrOctet(hi: int, o: int, k: nat)
    requires k <= 16 && 0 <= o < 256 && IsAddress(hi) && Low(hi, k + 8) == 0
    ensures UShr32(Or32(ToInt32(hi), Shl32(o, k)), 0) == hi + ShiftLeft(o, k)
    ensures Or32(ToInt32(hi), Shl32(o, k)) == ToInt32(hi + ShiftLeft(o, k))
    ensures IsAddress(hi + ShiftLeft(o, k)) && Low(hi + ShiftLeft(o, k), k) == 0
  {
    hide BitOr, Low, Shr, Pow2, ShiftLeft;
    var i, y := ToInt32(hi), ShiftLeft(o, k);
    ShiftedOctet(o, k);
    assert ToInt32(o) == o && ToInt32(y) == y;
    Unsigned(hi, hi);
    Int32LowBits(hi, k + 8);
    OrDisjoint(i, y, k + 8);
    SumInRange(hi, y, k + 8);
    LowOfLow(hi, k, k + 8);
    LowSum(hi, y, k);
    Unsigned(i + y, hi + y);
    Unsigned(hi + y, hi + y);
  }

  lemma ShiftedOctet(o: int, k: nat)
    requires 0 <= o < 256 && k <= 16
    ensures 0 <= ShiftLeft(o, k) < Pow2(k + 8) <= 0x100_0000
    ensures Low(ShiftLeft(o, k), k) == 0
  {
    hide Low;
    ShiftBound(o, k);
    LowShifted(o, k, k);
    Pow2Values();
    Pow2Monotone(k + 8, 24);
  }

  lemma {:induction false} ShiftBound(o: int, k: nat)
    requires 0 <= o < 256
    ensures 0 <= ShiftLeft(o, k) < Pow2(k + 8)
  {
    if k == 0 { Pow2Values(); } else { ShiftBound(o, k - 1); }
  }

  /** A multiple of 2^h plus less than 2^h stays within 32 bits. */
  lemma SumInRange(hi: int, y: int, h: nat)
    requires h <= 32 && IsAddress(hi) && Low(hi, h) == 0 && 0 <= y < Pow2(h)
    ensures IsAddress(hi + y)
  {
    hide Low, Pow2;
    Block4InRange(hi, h);
  }

  /** On a dotted quad the assembled number is the address. */
  lemma Assemble4Value(x: int, parts: seq<string>)
    requires IsAddress(x) && parts == Split(DottedQuad(x), '.')
    ensures |parts| == 4 && Assemble4(parts) == x
  {
    hide Or32, Low, Shr, Pow2, ShiftLeft, Split, Join, ParseInt, ToText, ToInt32, UShr32, Shl32, Texts;
    var o := Octets(x);
    QuadParts(x);
    TopOctet(o[0]);
    var a := o[0] * 0x100_0000;
    OrOctet(a, o[1], 16);
    OrOctet(a + ShiftLeft(o[1], 16), o[2], 8);
    OrOctet(a + ShiftLeft(o[1], 16) + ShiftLeft(o[2], 8), o[3], 0);
    ShiftValues(o[1], o[2], o[3]);
    OctetsInverse(x);
  }

  lemma ShiftValues(b: int, c: int, d: int)
    requires 0 <= d < 256
    ensures ShiftLeft(b, 16) == b * 0x1_0000 && ShiftLeft(c, 8) == c * 0x100
    ensures Shl32(d, 0) == d == ShiftLeft(d, 0)
  {
    ShiftIsProduct(b, 16);
    ShiftIsProduct(c, 8);
    Pow2Values();
  }

  lemma {:induction false} ShiftIsProduct(x: int, k: nat)
    ensures ShiftLeft(x, k) == Pow2(k) * x
  {
    if k != 0 {
      ShiftIsProduct(x, k - 1);
      assert 2 * (Pow2(k - 1) * x) == Pow2(k) * x;
    }
  }

  lemma TopOctet(a: int)
    requires 0 <= a < 256
    ensures Shl32(a, 24) == ToInt32(a * 0x100_0000)
    ensures IsAddress(a * 0x100_0000) && Low(a * 0x100_0000, 24) == 0
  {
    hide Low;
    ShiftIsProduct(a, 24);
    Pow2Values();
    LowShifted(a, 24, 24);
  }

  /** For every address text and every prefix, the range shown is the block of the
      effective prefix, printed as dotted quads. */
  lemma Cidr4RangeText(x: int, prefix: Option<int>)
    requires IsAddress(x)
    ensures
      var h := 32 - EffectivePrefix4(prefix);
      && IsAddress(BlockStart(x, h)) && IsAddress(BlockEnd(x, h))
      && Cidr4Range(DottedQuad(x), prefix) == Some((DottedQuad(BlockStart(x, h)), DottedQuad(BlockEnd(x, h))))
  {
    hide Assemble4, Range4, Fmt, Split, DottedQuad, Low, Pow2;
    Assemble4Value(x, Split(DottedQuad(x), '.'));
    Range4IsBlock(x, prefix);
    FmtIsDottedQuad(Range4(x, prefix).0);
    FmtIsDottedQuad(Range4(x, prefix).1);
  }

  // ----- Pages of addresses

  function IndexOf(s: string, c: char): (i: int)
    ensures -1 <= i < |s|
    ensures i >= 0 ==> s[i] == c && c !in s[..i]
    ensures i < 0 ==> c !in s
  {
    if s == [] then -1
    else if s[0] == c then 0
    else
      var k := IndexOf(s[1..], c);
      assert k >= 0 ==> s[..k + 1] == [s[0]] + s[1..][..k];
      if k < 0 then -1 else k + 1
  }

  /** The page of an address `offset` places into the subnet. */
  function PageOf(offset: int, pageSize: int): int
    requires pageSize >= 1
  {
    if offset < 0 then 1 else offset / pageSize + 1
  }

  /** `_ipv4PageForIp`: page 1 unless both texts are dotted quads. */
  method Ipv4PageForIp(cidr: string, ip: string, pageSize: int) returns (page: int)
    requires pageSize >= 1
    ensures forall n, x ::
      && IsAddress(n) && IsAddress(x) && '/' in cidr
      && DottedQuad(n) == cidr[..IndexOf(cidr, '/')] && DottedQuad(x) == ip
      ==> page == PageOf(x - n, pageSize)
    ensures '/' !in cidr || (forall x :: IsAddress(x) ==> DottedQuad(x) != ip) ==> page == 1
    ensures '/' in cidr && (forall n :: IsAddress(n) ==> DottedQuad(n) != cidr[..IndexOf(cidr, '/')]) ==> page == 1
  {
    hide DottedQuad, IndexOf;
    var slash := IndexOf(cidr, '/');
    if slash < 0 { return 1; }
    var net := Ipv4ToInt(cidr[..slash]);
    var addr := Ipv4ToInt(ip);
    if net.None? || addr.None? { return 1; }
    forall n, x | IsAddress(n) && IsAddress(x) && DottedQuad(n) == cidr[..slash] && DottedQuad(x) == ip
      ensures n == net.value && x == addr.value
    {
      DottedQuadInjective(n, net.value);
      DottedQuadInjective(x, addr.value);
    }
    var offset := addr.value - net.value;
    if offset < 0 { return 1; }
    return offset / pageSize + 1;
  }

  function Min(a: int, b: int): int { if a < b then a else b }
  function Max(a: int, b: int): int { if a < b then b else a }

  /** Page count shown by the panel; `Math.ceil` on a quotient of positive integers. */
  function TotalPages(total: int, pageSize: int): int
    requires pageSize >= 1
  {
    Max(1, (total + pageSize - 1) / pageSize)
  }

  /** The addresses that `enumerateSubnetIps` lists on a page of a subnet with h host bits. For
      prefixes 31 and 32 the Netmask library leaves `broadcast` undefined and it throws. */
  function PageAddresses(base: int, h: nat, page: int, pageSize: int): Option<seq<int>>
    requires page >= 1 && pageSize >= 1
  {
    if h < 2 then None
    else
      var start := (page - 1) * pageSize;
      var end := Min(start + pageSize, Pow2(h));
      Some(if start >= end then [] else seq(end - start, i => base + start + i))
  }

  predicate Lists(page: Option<seq<int>>, x: int) { page.Some? && x in page.value }

  lemma DivBounds(offset: int, total: int, pageSize: int)
    requires pageSize >= 1 && 0 <= offset < total
    ensures 0 <= offset / pageSize && offset / pageSize + 1 <= (total + pageSize - 1) / pageSize
  {
    var q, r := offset / pageSize, offset % pageSize;
    var t := (total + pageSize - 1) / pageSize;
    assert offset == pageSize * q + r;
    assert total + pageSize - 1 == pageSize * t + (total + pageSize - 1) % pageSize;
    assert pageSize * (q + 1) < pageSize * (t + 1) by {
      assert pageSize * (q + 1) == pageSize * q + pageSize;
      assert pageSize * (t + 1) == pageSize * t + pageSize;
    }
    assert q >= t ==> pageSize * (q + 1) >= pageSize * (t + 1);
    assert q < 0 ==> pageSize * q <= -pageSize;
  }

  lemma PageWindow(offset: int, pageSize: int, page: int)
    requires pageSize >= 1 && offset >= 0 && page >= 1
    ensures (page - 1) * pageSize <= offset < (page - 1) * pageSize + pageSize <==> page == offset / pageSize + 1
  {
    if (page - 1) * pageSize <= offset < (page - 1) * pageSize + pageSize {
      DivModUnique(offset, pageSize, page - 1, offset - (page - 1) * pageSize);
    }
    assert offset == pageSize * (offset / pageSize) + offset % pageSize;
  }

  /** The page count is exact: each page up to it lists something, the pages after it nothing. */
  lemma PagesCounted(n: int, h: nat, pageSize: int, page: int)
    requires pageSize >= 1 && page >= 1 && h >= 2
    ensures
      var a := PageAddresses(n, h, page, pageSize);
      a.Some? && (a.value != [] <==> page <= TotalPages(Pow2(h), pageSize))
  {
    hide Pow2;
    var total, start := Pow2(h), (page - 1) * pageSize;
    var t := (total + pageSize - 1) / pageSize;
    assert total + pageSize - 1 == pageSize * t + (total + pageSize - 1) % pageSize;
    if page <= t {
      assert pageSize * page <= pageSize * t;
      assert start == pageSize * page - pageSize;
    } else {
      assert pageSize * t <= pageSize * (page - 1);
    }
    assert t < 1 ==> pageSize * t <= 0;
  }

  /** For every address of an aligned subnet the computed page is within the page count; a page
      lists the address if and only if it is that one and the prefix is at most 30. */
  lemma PageHoldsAddress(n: int, h: nat, x: int, pageSize: int, page: int)
    requires Low(n, h) == 0 && InBlock(x, n, h) && pageSize >= 1 && page >= 1
    ensures 1 <= PageOf(x - n, pageSize) <= TotalPages(Pow2(h), pageSize)
    ensures Lists(PageAddresses(n, h, page, pageSize), x) <==> h >= 2 && page == PageOf(x - n, pageSize)
  {
    hide Low, Pow2, Shr;
    BlockIsInterval(x, n, h);
    var offset, start := x - n, (page - 1) * pageSize;
    DivBounds(offset, Pow2(h), pageSize);
    PageWindow(offset, pageSize, page);
    var a := PageAddresses(n, h, page, pageSize);
    if h >= 2 && start <= offset < start + pageSize { assert a.value[offset - start] == x; }
  }
}
