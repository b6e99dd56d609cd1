/** IPv6 text: `_expandIPv6`, `_compressIPv6` and `_cidr6Range` in public/js/blocks.js.

The text forms are those of section 2.2 of RFC 4291; the choice of the run written as
`::` is that of sections 4.2.2 and 4.2.3 of RFC 5952. */
module Ipv6Text {
  import opened Wrappers
  import opened JsText
  import opened Bits
  import opened Cidr

  // ----- Reading

  /** The position of the first `::`, or the length. */
  function FindDouble(s: string): (i: nat)
    ensures i <= |s|
    ensures i < |s| ==> i + 1 < |s| && s[i] == ':' == s[i + 1]
    ensures forall j :: 0 <= j < i && j + 1 < |s| ==> !(s[j] == ':' == s[j + 1])
  {
    if |s| < 2 then |s|
    else if s[0] == ':' == s[1] then 0
    else 1 + FindDouble(s[1..])
  }

  /** `ip.split("::")` */
  function SplitDouble(s: string): (halves: seq<string>)
    ensures |halves| >= 1
    decreases |s|
  {
    var i := FindDouble(s);
    if i == |s| then [s] else [s[..i]] + SplitDouble(s[i + 2..])
  }

  function Groups(half: string): seq<string> {
    if half == "" then [] else Split(half, ':')
  }

  function ReadGroup(g: string): Option<int> {
    ParseInt(if g == "" then "0" else g, 16)
  }

  function ReadGroups(gs: seq<string>): (v: seq<Option<int>>)
    ensures |v| == |gs|
  {
    seq(|gs|, i requires 0 <= i < |gs| => ReadGroup(gs[i]))
  }

  function Zeros(n: int): seq<string> {
    if n <= 0 then [] else seq(n, i => "0")
  }

  /** `_expandIPv6`: the eight group values, `None` inside for NaN. */
  function Expand(ip: string): (r: Option<seq<Option<int>>>)
    ensures r.Some? ==> |r.value| == 8
  {
    var halves := SplitDouble(ip);
    var left := Groups(halves[0]);
    var gs := if |halves| > 1 then
                var right := Groups(halves[1]);
                left + Zeros(8 - |left| - |right|) + right
              else left;
    if |gs| != 8 then None else Some(ReadGroups(gs))
  }

  // ----- Well-formed text

  predicate HexGroup(g: string) { g != [] && AllDigits(g, 16) }

  predicate HexGroups(gs: seq<string>) {
    forall i :: 0 <= i < |gs| ==> HexGroup(gs[i])
  }

  function Values(gs: seq<string>): (v: seq<Option<int>>)
    ensures |v| == |gs|
  {
    seq(|gs|, i requires 0 <= i < |gs| => Some(Value(gs[i], 16)))
  }

  predicate NoDouble(s: string) {
    forall j :: 0 <= j && j + 1 < |s| ==> !(s[j] == ':' == s[j + 1])
  }

  /** Joined groups neither start nor end with a colon and hold no `::`. */
  lemma {:induction false} JoinShape(gs: seq<string>)
    requires HexGroups(gs) && gs != []
    ensures
      var s := Join(gs, ':');
      s != [] && s[0] != ':' && s[|s| - 1] != ':' && NoDouble(s)
  {
    assert HexGroup(gs[0]);
    if |gs| == 1 {
      assert NoDouble(gs[0]);
    } else {
      JoinShape(gs[1..]);
      ConsShape(gs[0], Join(gs[1..], ':'));
    }
  }

  lemma ConsShape(g: string, t: string)
    requires HexGroup(g) && t != [] && t[0] != ':' && NoDouble(t)
    ensures
      var s := g + [':'] + t;
      s[0] != ':' && s[|s| - 1] == t[|t| - 1] && NoDouble(s)
  {
    var s := g + [':'] + t;
    assert DigitValue(g[0]) < 16;
    forall j | 0 <= j && j + 1 < |s| ensures !(s[j] == ':' == s[j + 1]) {
      if j < |g| {
        assert s[j] == g[j] && DigitValue(g[j]) < 16;
      } else {
        assert s[j + 1] == t[j - |g|];
        if j > |g| { assert s[j] == t[j - |g| - 1]; }
      }
    }
  }

  lemma NoDoubleWhole(s: string)
    requires NoDouble(s)
    ensures SplitDouble(s) == [s]
  {
  }

  /** Splitting a text with one `::` between halves that do not touch it. */
  lemma SplitAtDouble(left: string, right: string)
    requires NoDouble(left) && NoDouble(right)
    requires left != [] ==> left[|left| - 1] != ':'
    ensures SplitDouble(left + "::" + right) == [left, right]
  {
    var s := left + "::" + right;
    assert forall j :: 0 <= j < |left| ==> s[j] == left[j];
    assert s[|left|] == ':' == s[|left| + 1];
    assert FindDouble(s) == |left|;
    assert s[..|left|] == left && s[|left| + 2..] == right;
    NoDoubleWhole(right);
  }

  lemma GroupsOfJoin(gs: seq<string>)
    requires HexGroups(gs)
    ensures Groups(Join(gs, ':')) == gs
  {
    hide Join, Split;
    if gs == [] {
      assert Join([], ':') == "" by { JoinNil(); }
    } else {
      JoinShape(gs);
      forall i | 0 <= i < |gs| ensures ':' !in gs[i] { assert HexGroup(gs[i]); }
      SplitJoin(gs, ':');
    }
  }

  lemma JoinNil()
    ensures Join([], ':') == ""
  {
  }

  lemma JoinedHalf(gs: seq<string>)
    requires HexGroups(gs)
    ensures
      var s := Join(gs, ':');
      NoDouble(s) && (s != [] ==> s[0] != ':' && s[|s| - 1] != ':') && Groups(s) == gs
  {
    hide Join;
    GroupsOfJoin(gs);
    if gs == [] { JoinNil(); } else { JoinShape(gs); }
  }

  lemma ReadHex(gs: seq<string>)
    requires HexGroups(gs)
    ensures ReadGroups(gs) == Values(gs)
  {
    hide ParseInt, Value;
    forall i | 0 <= i < |gs| ensures ReadGroup(gs[i]) == Some(Value(gs[i], 16)) {
      assert HexGroup(gs[i]);
      ParseDigits(gs[i], 16);
    }
  }

  /** Eight groups without `::` are read as their values. */
  lemma ExpandFull(gs: seq<string>)
    requires HexGroups(gs) && |gs| == 8
    ensures Expand(Join(gs, ':')) == Some(Values(gs))
  {
    hide SplitDouble, Join, Groups, ReadGroups, Values;
    JoinedHalf(gs);
    NoDoubleWhole(Join(gs, ':'));
    ReadHex(gs);
  }

  /** A `::` stands for the zero groups missing to eight, wherever it is. */
  lemma ExpandCompressed(left: seq<string>, right: seq<string>)
    requires HexGroups(left) && HexGroups(right) && |left| + |right| <= 8
    ensures Expand(Join(left, ':') + "::" + Join(right, ':'))
         == Some(Values(left) + seq(8 - |left| - |right|, i => Some(0)) + Values(right))
  {
    hide SplitDouble, Join, Groups, ReadGroups, Values, NoDouble;
    JoinedHalf(left);
    JoinedHalf(right);
    SplitAtDouble(Join(left, ':'), Join(right, ':'));
    FilledGroups(left, 8 - |left| - |right|, right);
  }

  lemma FilledGroups(left: seq<string>, n: nat, right: seq<string>)
    requires HexGroups(left) && HexGroups(right)
    ensures ReadGroups(left + Zeros(n) + right) == Values(left) + seq(n, i => Some(0)) + Values(right)
  {
    hide Value, ReadGroups;
    var gs := left + Zeros(n) + right;
    assert HexGroups(gs) by {
      forall i | 0 <= i < |gs| ensures HexGroup(gs[i]) {
        if |left| <= i < |left| + n { assert gs[i] == "0"; }
      }
    }
    ReadHex(gs);
    assert Value("0", 16) == 0 by { ValueToText(0, 16); }
  }

  // ----- Groups of a number

  function GroupsOf(n: int, k: nat): (gs: seq<int>)
    ensures |gs| == k
    ensures forall i :: 0 <= i < k ==> 0 <= gs[i] < 0x1_0000
    decreases k
  {
    Pow2Values();
    if k == 0 then [] else GroupsOf(Shr(n, 16), k - 1) + [Low(n, 16)]
  }

  /** `bits = (bits << 16) | group` over the groups. */
  function Assemble(gs: seq<int>): int {
    if gs == [] then 0 else BitOr(ShiftLeft(Assemble(gs[..|gs| - 1]), 16), gs[|gs| - 1])
  }

  lemma {:induction false} LowSplit(x: int, a: nat, b: nat)
    ensures Low(x, a + b) == ShiftLeft(Low(Shr(x, a), b), a) + Low(x, a)
    decreases a
  {
    if a != 0 { LowSplit(x / 2, a - 1, b); }
  }

  /** Reassembling the groups of n gives back n, cut to 16k bits. */
  lemma {:induction false} AssembleGroupsOf(n: int, k: nat)
    ensures Assemble(GroupsOf(n, k)) == Low(n, 16 * k)
    decreases k
  {
    hide Low, Shr, ShiftLeft, BitOr, Pow2;
    var gs := GroupsOf(n, k);
    if k == 0 {
      assert Low(n, 0) == 0 by { LowNone(n); }
    } else {
      assert gs[..k - 1] == GroupsOf(Shr(n, 16), k - 1);
      AssembleGroupsOf(Shr(n, 16), k - 1);
      var hi := Low(Shr(n, 16), 16 * (k - 1));
      LowShifted(hi, 16, 16);
      OrDisjoint(ShiftLeft(hi, 16), Low(n, 16), 16);
      LowSplit(n, 16, 16 * (k - 1));
    }
  }

  lemma {:induction false} ShrOfShifted(x: int, y: int, k: nat)
    requires 0 <= y < Pow2(k)
    ensures Shr(ShiftLeft(x, k) + y, k) == x && Low(ShiftLeft(x, k) + y, k) == y
    decreases k
  {
    if k != 0 { ShrOfShifted(x, y / 2, k - 1); }
  }

  /** Every list of 16-bit groups is the list of groups of the number it assembles to. */
  lemma {:induction false} GroupsOfAssemble(gs: seq<int>)
    requires forall i :: 0 <= i < |gs| ==> 0 <= gs[i] < 0x1_0000
    ensures GroupsOf(Assemble(gs), |gs|) == gs
  {
    hide Low, Shr, ShiftLeft, BitOr, Pow2;
    if gs != [] {
      var n := |gs| - 1;
      var hi := Assemble(gs[..n]);
      GroupsOfAssemble(gs[..n]);
      assert Pow2(16) == 0x1_0000 by { Pow2Values(); }
      LowShifted(hi, 16, 16);
      OrDisjoint(ShiftLeft(hi, 16), gs[n], 16);
      ShrOfShifted(hi, gs[n], 16);
      assert gs == gs[..n] + [gs[n]];
    }
  }

  // ----- Writing

  predicate IsRun(gs: seq<int>, start: int, len: int) {
    0 <= start && 0 <= len && start + len <= |gs| && forall i :: start <= i < start + len ==> gs[i] == 0
  }

  /** No run of zero groups that ends by `to` beats (start, len): the longest wins, and among
      equally long ones the leftmost. */
  ghost predicate Unbeaten(gs: seq<int>, to: int, start: int, len: int) {
    forall s, l :: 0 < l && s + l <= to && IsRun(gs, s, l) ==> l < len || (l == len && start <= s)
  }

  ghost predicate BestRun(gs: seq<int>, start: int, len: int) {
    (len > 0 ==> IsRun(gs, start, len)) && 0 <= len && Unbeaten(gs, |gs|, start, len)
  }

  function HexTexts(gs: seq<int>): (t: seq<string>)
    requires forall i :: 0 <= i < |gs| ==> 0 <= gs[i]
    ensures |t| == |gs| && HexGroups(t)
    ensures forall i :: 0 <= i < |gs| ==> t[i] == ToText(gs[i], 16)
  {
    Texts(gs, 16)
  }

  predicate SixteenBit(gs: seq<int>) {
    forall i :: 0 <= i < |gs| ==> 0 <= gs[i] < 0x1_0000
  }

  /** The text with the given run written as `::`, when it is at least two groups long. */
  function Render(gs: seq<int>, start: int, len: int): string
    requires SixteenBit(gs) && (len >= 2 ==> IsRun(gs, start, len))
  {
    if len < 2 then Join(HexTexts(gs), ':')
    else Join(HexTexts(gs[..start]), ':') + "::" + Join(HexTexts(gs[start + len..]), ':')
  }

  /** `s` is the text of the groups under sections 4.2.2 and 4.2.3 of RFC 5952. */
  ghost predicate Canonical(gs: seq<int>, s: string)
    requires SixteenBit(gs)
  {
    exists start, len :: BestRun(gs, start, len) && s == Render(gs, start, len)
  }

  method SplitIntoGroups(n: int) returns (gs: seq<int>)
    ensures gs == GroupsOf(n, 8)
  {
    hide BitAnd, Low, Shr, Pow2;
    gs := [];
    var rem := n;
    for i := 0 to 8
      invariant GroupsOf(n, 8) == GroupsOf(rem, 8 - i) + gs
    {
      assert Pow2(16) - 1 == 0xFFFF by { Pow2Values(); }
      AndLowMask(rem, 16);
      gs := [BitAnd(rem, 0xFFFF)] + gs;
      rem := Shr(rem, 16);
    }
  }

  method LongestZeroRun(gs: seq<int>) returns (bestStart: int, bestLen: int)
    ensures BestRun(gs, bestStart, bestLen)
  {
    bestStart, bestLen := -1, 0;
    var curStart, curLen := -1, 0;
    for j := 0 to |gs|
      invariant bestLen > 0 ==> IsRun(gs, bestStart, bestLen) && bestStart + bestLen <= j
      invariant 0 <= curLen <= bestLen && Unbeaten(gs, j, bestStart, bestLen)
      invariant curStart == if curLen == 0 then -1 else j - curLen
      invariant curLen > 0 ==> IsRun(gs, curStart, curLen)
      invariant j - curLen > 0 ==> gs[j - curLen - 1] != 0
      invariant curLen <= j
    {
      ghost var best := (bestStart, bestLen);
      if gs[j] == 0 {
        if curStart == -1 { curStart, curLen := j, 1; } else { curLen := curLen + 1; }
        if curLen > bestLen { bestStart, bestLen := curStart, curLen; }
      } else {
        curStart, curLen := -1, 0;
      }
      forall s, l | 0 < l && s + l <= j + 1 && IsRun(gs, s, l)
        ensures l < bestLen || (l == bestLen && bestStart <= s)
      {
        if s + l <= j {
          assert l < best.1 || (l == best.1 && best.0 <= s);
        } else {
          assert gs[j] == 0;
          assert j - curLen >= 0 ==> gs[j - curLen] != 0;
        }
      }
    }
  }

  /** `_compressIPv6` */
  method CompressIPv6(n: int) returns (s: string)
    ensures Canonical(GroupsOf(n, 8), s)
  {
    hide Join, ToText, GroupsOf;
    var gs := SplitIntoGroups(n);
    assert SixteenBit(gs);
    var bestStart, bestLen := LongestZeroRun(gs);
    if bestLen < 2 {
      s := Join(HexTexts(gs), ':');
    } else {
      s := Join(HexTexts(gs[..bestStart]), ':') + "::" + Join(HexTexts(gs[bestStart + bestLen..]), ':');
    }
    assert s == Render(gs, bestStart, bestLen);
  }

  // ----- Round trip

  function Known(gs: seq<int>): (v: seq<Option<int>>)
    ensures |v| == |gs|
  {
    seq(|gs|, i requires 0 <= i < |gs| => Some(gs[i]))
  }

  lemma ValuesOfTexts(gs: seq<int>)
    requires SixteenBit(gs)
    ensures Values(HexTexts(gs)) == Known(gs)
  {
    hide Value, ToText;
    forall i | 0 <= i < |gs| ensures Value(HexTexts(gs)[i], 16) == gs[i] { ValueToText(gs[i], 16); }
  }

  /** Whichever zero run is compressed, reading the text gives back the groups. */
  lemma RenderReadsBack(gs: seq<int>, start: int, len: int)
    requires SixteenBit(gs) && |gs| == 8 && (len >= 2 ==> IsRun(gs, start, len))
    ensures Expand(Render(gs, start, len)) == Some(Known(gs))
  {
    hide Expand, Join, Values, ToText;
    if len < 2 {
      ExpandFull(HexTexts(gs));
      ValuesOfTexts(gs);
    } else {
      var left, right := gs[..start], gs[start + len..];
      ExpandCompressed(HexTexts(left), HexTexts(right));
      ValuesOfTexts(left);
      ValuesOfTexts(right);
      assert Known(left) + seq(len, i => Some(0)) + Known(right) == Known(gs);
    }
  }

  /** For every number, the text printed for it is read back as exactly its eight groups,
      which assemble to the number again (cut to 128 bits). */
  lemma RoundTrip(n: int, s: string)
    requires Canonical(GroupsOf(n, 8), s)
    ensures Expand(s) == Some(Known(GroupsOf(n, 8)))
    ensures Assemble(GroupsOf(n, 8)) == Low(n, V6_BITS)
  {
    hide Expand, GroupsOf, Assemble, Low, Render;
    var gs := GroupsOf(n, 8);
    assert SixteenBit(gs);
    var start, len :| BestRun(gs, start, len) && s == Render(gs, start, len);
    RenderReadsBack(gs, start, len);
    AssembleGroupsOf(n, 8);
  }

  /** The canonical text is unique. */
  lemma CanonicalUnique(gs: seq<int>, s: string, s': string)
    requires SixteenBit(gs) && Canonical(gs, s) && Canonical(gs, s')
    ensures s == s'
  {
    hide Join, HexTexts;
    var a, l :| BestRun(gs, a, l) && s == Render(gs, a, l);
    var a', l' :| BestRun(gs, a', l') && s' == Render(gs, a', l');
    if l > 0 { assert IsRun(gs, a, l); }
    if l' > 0 { assert IsRun(gs, a', l'); }
  }

  /** Distinct addresses have distinct canonical texts. */
  lemma CanonicalInjective(n: int, n': int, s: string)
    requires Canonical(GroupsOf(n, 8), s) && Canonical(GroupsOf(n', 8), s)
    ensures Low(n, V6_BITS) == Low(n', V6_BITS)
  {
    hide Expand, GroupsOf, Assemble, Low, Canonical;
    RoundTrip(n, s);
    RoundTrip(n', s);
    var gs, gs' := GroupsOf(n, 8), GroupsOf(n', 8);
    assert gs == gs' by {
      forall i | 0 <= i < 8 ensures gs[i] == gs'[i] { assert Known(gs)[i] == Known(gs')[i]; }
    }
  }

  /** Every group is written in at most four digits and without a leading zero. */
  lemma GroupsAreShort(gs: seq<int>, i: nat)
    requires SixteenBit(gs) && i < |gs|
    ensures |HexTexts(gs)[i]| <= 4
    ensures |HexTexts(gs)[i]| > 1 ==> HexTexts(gs)[i][0] != '0'
  {
    hide ToText;
    ToTextShort(gs[i]);
    ToTextHead(gs[i], 16);
  }

  // ----- `_cidr6Range`

  datatype Range6Result = Null | Throws | Range(start: string, end: string)

  predicate AllKnown(v: seq<Option<int>>) { forall i :: 0 <= i < |v| ==> v[i].Some? }

  function Numbers(v: seq<Option<int>>): (gs: seq<int>)
    requires AllKnown(v)
    ensures |gs| == |v|
  {
    seq(|v|, i requires 0 <= i < |v| => v[i].value)
  }

  /** The loop that assembles `bits`. */
  method AssembleBits(gs: seq<int>) returns (bits: int)
    ensures bits == Assemble(gs)
  {
    hide BitOr, ShiftLeft;
    bits := 0;
    for i := 0 to |gs|
      invariant bits == Assemble(gs[..i])
    {
      assert gs[..i + 1][..i] == gs[..i];
      bits := BitOr(ShiftLeft(bits, 16), gs[i]);
    }
    assert gs[..|gs|] == gs;
  }

  /** `_cidr6Range`; converting NaN to a BigInt throws. Both bounds are printed canonically. */
  method Cidr6Range(ip: string, prefix: Option<int>) returns (r: Range6Result)
    ensures r.Null? <==> Expand(ip).None?
    ensures r.Throws? <==> Expand(ip).Some? && (prefix.None? || !AllKnown(Expand(ip).value))
    ensures r.Range? ==>
      var (start, end) := Range6(Assemble(Numbers(Expand(ip).value)), prefix.value, V6_BITS);
      Canonical(GroupsOf(start, 8), r.start) && Canonical(GroupsOf(end, 8), r.end)
  {
    hide Expand, Assemble, Range6, GroupsOf, Canonical;
    var groups := Expand(ip);
    if groups.None? { return Null; }
    if prefix.None? || exists i :: 0 <= i < 8 && groups.value[i].None? { return Throws; }
    var bits := AssembleBits(Numbers(groups.value));
    var (start, end) := Range6(bits, prefix.value, V6_BITS);
    var s := CompressIPv6(start);
    var e := CompressIPv6(end);
    return Range(s, e);
  }

  /** The text is the canonical one of the low 128 bits. */
  ghost predicate Prints(s: string, x: int) { Canonical(GroupsOf(x, 8), s) }

  predicate ReadsAs(s: string, x: int) { Expand(s) == Some(Known(GroupsOf(x, 8))) }

  /** The two texts that bound the range of an address are read back as the groups of
      the first and the last address of its block. */
  lemma Cidr6RangeText(n: int, prefix: int, start: string, end: string)
    requires 0 <= n < Pow2(V6_BITS)
    ensures
      var h := V6_BITS - EffectivePrefix6(prefix, V6_BITS);
      && (Prints(start, Range6(n, prefix, V6_BITS).0) ==> ReadsAs(start, BlockStart(n, h)))
      && (Prints(end, Range6(n, prefix, V6_BITS).1) ==> ReadsAs(end, BlockEnd(n, h)))
  {
    hide Expand, GroupsOf, Canonical, Low, Pow2, Range6, Known;
    var a, b := Range6(n, prefix, V6_BITS).0, Range6(n, prefix, V6_BITS).1;
    Range6IsBlock(n, prefix, V6_BITS);
    if Prints(start, a) { RoundTrip(a, start); }
    if Prints(end, b) { RoundTrip(b, end); }
    SameGroups(b, BlockEnd(n, V6_BITS - EffectivePrefix6(prefix, V6_BITS)));
  }

  /** Only the low 128 bits are printed. */
  lemma SameGroups(x: int, y: int)
    requires Low(x, V6_BITS) == y
    ensures GroupsOf(x, 8) == GroupsOf(y, 8)
  {
    hide GroupsOf, Low, Assemble;
    AssembleGroupsOf(x, 8);
    GroupsOfAssemble(GroupsOf(x, 8));
  }
}
