/** The string primitives that the address code relies on: `split`, `join`,
`toString(radix)` and `parseInt(text, radix)` for radix 10 and 16. */
module JsText {
  import opened Wrappers

  // ----- split and join on one character

  function Split(s: string, sep: char): (parts: seq<string>)
    ensures |parts| >= 1
  {
    if s == [] then [""]
    else
      var rest := Split(s[1..], sep);
      if s[0] == sep then [""] + rest else [[s[0]] + rest[0]] + rest[1..]
  }

  function Join(parts: seq<string>, sep: char): string {
    if parts == [] then ""
    else if |parts| == 1 then parts[0]
    else parts[0] + [sep] + Join(parts[1..], sep)
  }

  /** Splitting off the first separator after a part that does not hold it. */
  lemma {:induction false} SplitFirst(p: string, s: string, sep: char)
    requires sep !in p
    ensures Split(p + [sep] + s, sep) == [p] + Split(s, sep)
    ensures Split(p, sep) == [p]
  {
    if p == [] {
      assert p + [sep] + s == [sep] + s;
      assert ([sep] + s)[1..] == s;
    } else {
      var t := p + [sep] + s;
      assert t[0] == p[0] && t[1..] == p[1..] + [sep] + s;
      SplitFirst(p[1..], s, sep);
      assert [p[0]] + p[1..] == p;
    }
  }

  /** Splitting undoes joining when no part holds the separator. */
  lemma {:induction false} SplitJoin(parts: seq<string>, sep: char)
    requires |parts| >= 1
    requires forall i :: 0 <= i < |parts| ==> sep !in parts[i]
    ensures Split(Join(parts, sep), sep) == parts
  {
    if |parts| == 1 {
      SplitFirst(parts[0], "", sep);
    } else {
      SplitJoin(parts[1..], sep);
      SplitFirst(parts[0], Join(parts[1..], sep), sep);
    }
  }

  /** Joining always undoes splitting. */
  lemma {:induction false} JoinSplit(s: string, sep: char)
    ensures Join(Split(s, sep), sep) == s
  {
    if s != [] {
      JoinSplit(s[1..], sep);
      var rest := Split(s[1..], sep);
      if s[0] == sep {
        assert ([""] + rest)[1..] == rest;
      } else if |rest| > 1 {
        assert ([[s[0]] + rest[0]] + rest[1..])[1..] == rest[1..];
        assert [s[0]] + rest[0] + [sep] + Join(rest[1..], sep) == [s[0]] + (rest[0] + [sep] + Join(rest[1..], sep));
      }
      assert s == [s[0]] + s[1..];
    }
  }

  // ----- Digits

  predicate IsRadix(radix: int) { radix == 10 || radix == 16 }

  function DigitChar(d: int): (c: char)
    requires 0 <= d < 16
    ensures DigitValue(c) == d && c !in "xX+-.:"
  {
    if d < 10 then '0' + d as char else 'a' + (d - 10) as char
  }

  /** The value of a digit in either case; 99 for any other character. */
  function DigitValue(c: char): (d: int)
    ensures 0 <= d
  {
    if '0' <= c <= '9' then (c - '0') as int
    else if 'a' <= c <= 'f' then (c - 'a') as int + 10
    else if 'A' <= c <= 'F' then (c - 'A') as int + 10
    else 99
  }

  predicate AllDigits(s: string, radix: int) {
    forall i :: 0 <= i < |s| ==> DigitValue(s[i]) < radix
  }

  /** The number a digit string denotes. */
  function Value(s: string, radix: int): (n: int)
    requires IsRadix(radix)
    ensures n >= 0
  {
    if s == [] then 0 else Value(s[..|s| - 1], radix) * radix + DigitValue(s[|s| - 1])
  }

  /** `n.toString(radix)` for a natural number. */
  function ToText(n: int, radix: int): (s: string)
    requires n >= 0 && IsRadix(radix)
    ensures s != [] && AllDigits(s, radix)
    decreases n
  {
    if n < radix then [DigitChar(n)] else ToText(n / radix, radix) + [DigitChar(n % radix)]
  }

  function Texts(ns: seq<int>, radix: int): (t: seq<string>)
    requires IsRadix(radix) && forall i :: 0 <= i < |ns| ==> 0 <= ns[i]
    ensures |t| == |ns| && forall i :: 0 <= i < |ns| ==> t[i] == ToText(ns[i], radix)
  {
    seq(|ns|, i requires 0 <= i < |ns| => ToText(ns[i], radix))
  }

  /** Printing is read back by `Value`. */
  lemma {:induction false} ValueToText(n: int, radix: int)
    requires n >= 0 && IsRadix(radix)
    ensures Value(ToText(n, radix), radix) == n
    decreases n
  {
    var s := ToText(n, radix);
    if n < radix {
      assert s[..0] == [];
    } else {
      ValueToText(n / radix, radix);
      assert s[..|s| - 1] == ToText(n / radix, radix);
    }
  }

  /** Printed numbers carry no leading zero. */
  lemma {:induction false} ToTextHead(n: int, radix: int)
    requires n >= 0 && IsRadix(radix)
    ensures |ToText(n, radix)| > 1 ==> ToText(n, radix)[0] != '0'
    ensures n > 0 ==> ToText(n, radix)[0] != '0'
    decreases n
  {
    if n >= radix { ToTextHead(n / radix, radix); }
  }

  /** Four hexadecimal digits are enough for 16 bits. */
  lemma ToTextShort(n: int)
    requires 0 <= n < 0x1_0000
    ensures |ToText(n, 16)| <= 4
  {
    if n >= 16 {
      var n1 := n / 16;
      if n1 >= 16 {
        var n2 := n1 / 16;
        assert |ToText(n2, 16)| <= 2 by { if n2 >= 16 { assert n2 / 16 < 16; } }
      }
    }
  }

  // ----- parseInt

  predicate IsSpace(c: char) { c in " \t\n\r\U{000B}\U{000C}\U{00A0}" }

  function DropSpaces(s: string): string {
    if s != [] && IsSpace(s[0]) then DropSpaces(s[1..]) else s
  }

  function DigitPrefix(s: string, radix: int): (n: nat)
    ensures n <= |s|
    ensures AllDigits(s[..n], radix)
    ensures n < |s| ==> DigitValue(s[n]) >= radix
  {
    if s != [] && DigitValue(s[0]) < radix then
      var k := DigitPrefix(s[1..], radix);
      assert forall i :: 0 < i < k + 1 ==> s[i] == s[1..][i - 1];
      k + 1
    else 0
  }

  /** `parseInt(s, radix)`; `None` is NaN. */
  function ParseInt(s: string, radix: int): Option<int>
    requires IsRadix(radix)
  {
    var t := DropSpaces(s);
    var negative := t != [] && t[0] == '-';
    var u := if t != [] && (t[0] == '-' || t[0] == '+') then t[1..] else t;
    var v := if radix == 16 && |u| >= 2 && u[0] == '0' && (u[1] == 'x' || u[1] == 'X') then u[2..] else u;
    var n := DigitPrefix(v, radix);
    if n == 0 then None
    else Some(if negative then -Value(v[..n], radix) else Value(v[..n], radix))
  }

  /** A nonempty string of digits is parsed to the number it denotes. */
  lemma ParseDigits(s: string, radix: int)
    requires IsRadix(radix) && s != [] && AllDigits(s, radix)
    ensures ParseInt(s, radix) == Some(Value(s, radix))
  {
    hide Value, DigitPrefix;
    assert DigitValue(s[0]) < radix;
    assert |s| >= 2 ==> DigitValue(s[1]) < radix;
    assert DropSpaces(s) == s;
    assert DigitPrefix(s, radix) == |s|;
    assert s[..|s|] == s;
  }

  /** Parsing undoes printing. */
  lemma ParsePrinted(n: int, radix: int)
    requires n >= 0 && IsRadix(radix)
    ensures ParseInt(ToText(n, radix), radix) == Some(n)
  {
    ParseDigits(ToText(n, radix), radix);
    ValueToText(n, radix);
  }
}
