/** Identifiers of 128 bits as two 64-bit words, and their text of 32 hexadecimal digits in five
    groups. Section 4 of RFC 9562 gives the text, section 5.4 the bits of version 4. */
module Uuid {
  import opened Results
  import opened Bits
  import opened Powers
  import opened Decimal

  /** m_data: the words with the first and the last 16 digits. */
  datatype Uuid = Uuid(hi: Word, lo: Word)

  const NIL: Uuid := Uuid(0, 0)

  predicate IsValid(u: Uuid) { u.hi != 0 || u.lo != 0 }

  /** Exactly the nil identifier is not valid. */
  lemma ValidIff(u: Uuid)
    ensures IsValid(u) <==> u != Uuid(0, 0)
  {
  }

  /** The masks of `generate`, applied to two random words. */
  function Generate(r0: Word, r1: Word): Uuid {
    Uuid(Or(And(r0, 0xFFFF_FFFF_FFFF_0FFF), 0x4000),
         Or(And(r1, 0x3FFF_FFFF_FFFF_FFFF), 0x8000_0000_0000_0000))
  }

  /** They replace bits 12 to 15 of the first word by 0100 and the top two bits of the second by 10. */
  lemma MasksAreSums(r0: Word, r1: Word)
    ensures Generate(r0, r1).hi == (r0 / 0x1_0000) * 0x1_0000 + 0x4000 + r0 % 0x1000
    ensures Generate(r0, r1).lo == 0x8000_0000_0000_0000 + r1 % 0x4000_0000_0000_0000
  {
    hide And;
    hide Or;
    FirstParts(r0);
    FirstMask(r0 / 0x1_0000, r0 % 0x1_0000 / 0x1000, r0 % 0x1000);
    SecondMask(r1 / 0x4000_0000_0000_0000, r1 % 0x4000_0000_0000_0000);
  }

  lemma FirstParts(r: Word)
    ensures r / 0x1_0000 < 0x1_0000_0000_0000 && r % 0x1_0000 / 0x1000 < 16
    ensures r == (r / 0x1_0000 * 16 + r % 0x1_0000 / 0x1000) * 0x1000 + r % 0x1000
  {
    var low := r % 0x1_0000;
    assert r % 0x1000 == low % 0x1000;
  }

  lemma FirstMask(q: nat, v: nat, m: nat)
    requires q < 0x1_0000_0000_0000 && v < 16 && m < 0x1000
    ensures Or(And((q * 16 + v) * 0x1000 + m, 0xFFFF_FFFF_FFFF_0FFF), 0x4000) == q * 0x1_0000 + 0x4000 + m
  {
    Widths();
    hide Bitwise;
    hide Pow2;
    var ones := 0xFFFF_FFFF_FFFF;
    BitwiseSplit(Conjunct, q * 16 + v, ones * 16, m, 0xFFF, 52, 12);
    BitwiseSplit(Conjunct, q, ones, v, 0, 48, 4);
    AndOnes(q, 48);
    AndZeros(v, 4);
    AndOnes(m, 12);
    BitwiseSplit(Disjunct, q * 16, 4, m, 0, 52, 12);
    BitwiseSplit(Disjunct, q, 0, 0, 4, 48, 4);
    OrZeros(q, 48);
    OrZeros(4, 4);
    OrZeros(m, 12);
  }

  lemma SecondMask(v: nat, m: nat)
    requires v < 4 && m < 0x4000_0000_0000_0000
    ensures Or(And(v * 0x4000_0000_0000_0000 + m, 0x3FFF_FFFF_FFFF_FFFF), 0x8000_0000_0000_0000)
         == 0x8000_0000_0000_0000 + m
  {
    Widths();
    hide Bitwise;
    hide Pow2;
    BitwiseSplit(Conjunct, v, 0, m, 0x3FFF_FFFF_FFFF_FFFF, 2, 62);
    AndZeros(v, 2);
    AndOnes(m, 62);
    BitwiseSplit(Disjunct, 0, 2, m, 0, 2, 62);
    OrZeros(2, 2);
    OrZeros(m, 62);
  }

  // ---- Digits ----

  function Digit(v: int): char
    requires 0 <= v < 16
  {
    (if v < 10 then '0' as int + v else 'a' as int + (v - 10)) as char
  }

  predicate IsHex(c: char) { '0' <= c <= '9' || 'a' <= c <= 'f' || 'A' <= c <= 'F' }

  function Lower(c: char): char { if 'A' <= c <= 'F' then (c as int - 'A' as int + 'a' as int) as char else c }

  function Value(c: char): (v: int)
    requires IsHex(c)
    ensures 0 <= v < 16 && Digit(v) == Lower(c)
  {
    if '0' <= c <= '9' then c as int - '0' as int
    else if 'a' <= c <= 'f' then c as int - 'a' as int + 10
    else c as int - 'A' as int + 10
  }

  /** The hexadecimal digits and their lower case. */
  lemma HexCharacters(c: char)
    ensures IsHex(c) <==> c in "0123456789abcdefABCDEF"
    ensures Lower(c) == match c
      case 'A' => 'a' case 'B' => 'b' case 'C' => 'c' case 'D' => 'd' case 'E' => 'e' case 'F' => 'f' case _ => c
  {
  }

  lemma DigitIsHex(v: int)
    requires 0 <= v < 16
    ensures IsHex(Digit(v)) && Value(Digit(v)) == v
  {
  }

  /** The width lowest digits of v, most significant first: what a zero-padded "x" format prints
      for a value that fits. */
  function Hex(v: nat, width: nat): (s: string)
    ensures |s| == width && AllHex(s)
  {
    if width == 0 then "" else
      DigitIsHex(v % 16);
      Hex(v / 16, width - 1) + [Digit(v % 16)]
  }

  predicate AllHex(s: string) { forall i | 0 <= i < |s| :: IsHex(s[i]) }

  /** What `stoull` reads in base 16. */
  function Parse(s: string): nat
    requires AllHex(s)
  {
    if s == "" then 0 else Parse(s[..|s| - 1]) * 16 + Value(s[|s| - 1])
  }

  // ---- Text ----

  function Dash(a: string, b: string): string { a + "-" + b }

  /** The five shifted and masked fields, printed with their widths. */
  function ToString(u: Uuid): string {
    Dash(Hex(u.hi / 0x1_0000_0000 % 0x1_0000_0000, 8),
    Dash(Hex(u.hi / 0x1_0000 % 0x1_0000, 4),
    Dash(Hex(u.hi % 0x1_0000, 4),
    Dash(Hex(u.lo / 0x1_0000_0000_0000 % 0x1_0000, 4),
         Hex(u.lo % 0x1_0000_0000_0000, 12)))))
  }

  function Stripped(s: string): string {
    if s == "" then "" else (if s[0] == '-' then "" else [s[0]]) + Stripped(s[1..])
  }

  function Lowered(s: string): (r: string)
    ensures |r| == |s| && forall i | 0 <= i < |s| :: r[i] == Lower(s[i])
  {
    seq(|s|, i requires 0 <= i < |s| => Lower(s[i]))
  }

  /** The canonical text for 32 digits: hyphens after 8, 12, 16 and 20. */
  function Grouped(d: string): string
    requires |d| == 32
  {
    Dash(d[..8], Dash(d[8..12], Dash(d[12..16], Dash(d[16..20], d[20..]))))
  }

  /** Text in which only digits and hyphens occur, or whose length is wrong anyway. */
  predicate Readable(s: string) { |Stripped(s)| != 32 || AllHex(Stripped(s)) }

  function FromString(s: string): Uuid
    requires Readable(s)
  {
    var hex := Stripped(s);
    if |hex| != 32 then NIL
    else
      ParseFits(hex[..16]);
      ParseFits(hex[16..]);
      Uuid(Parse(hex[..16]), Parse(hex[16..]))
  }

  function Pow16(n: nat): (r: nat)
    ensures r >= 1
  {
    if n == 0 then 1 else 16 * Pow16(n - 1)
  }

  lemma {:induction false} ParseBound(d: string)
    requires AllHex(d)
    ensures Parse(d) < Pow16(|d|)
  {
    if d != "" {
      ParseBound(d[..|d| - 1]);
    }
  }

  lemma PowSixteen()
    ensures Pow16(16) == 0x1_0000_0000_0000_0000
  {
    assert Pow16(4) == 0x1_0000;
    assert Pow16(8) == 16 * (16 * (16 * (16 * Pow16(4))));
    assert Pow16(12) == 16 * (16 * (16 * (16 * Pow16(8))));
    assert Pow16(16) == 16 * (16 * (16 * (16 * Pow16(12))));
  }

  lemma {:induction false} PowGrows(m: nat, n: nat)
    requires m <= n
    ensures Pow16(m) <= Pow16(n)
  {
    if m < n {
      PowGrows(m, n - 1);
    }
  }

  /** 16 digits fit a word. */
  lemma ParseFits(d: string)
    requires AllHex(d) && |d| <= 16
    ensures Parse(d) < 0x1_0000_0000_0000_0000
  {
    ParseBound(d);
    PowGrows(|d|, 16);
    PowSixteen();
  }

  lemma {:induction false} StrippedAppend(s: string, t: string)
    ensures Stripped(s + t) == Stripped(s) + Stripped(t)
  {
    if s == "" {
      assert s + t == t;
    } else {
      assert (s + t)[1..] == s[1..] + t;
      StrippedAppend(s[1..], t);
    }
  }

  lemma {:induction false} NothingToStrip(s: string)
    requires forall i | 0 <= i < |s| :: s[i] != '-'
    ensures Stripped(s) == s
  {
    if s != "" {
      NothingToStrip(s[1..]);
    }
  }

  // ---- Any text at all ----

  function DigitsOf(s: string): (d: string)
    ensures |d| <= |s| && AllHex(d)
  {
    if s == "" || !IsHex(s[0]) then "" else [s[0]] + DigitsOf(s[1..])
  }

  /** The digits that `stoull` reads in base 16: after blanks, a plus sign and "0x", if a digit
      follows that, and up to the first character that is no digit. */
  function Numeral(s: string): (d: string)
    ensures |d| <= |s| && AllHex(d)
  {
    var t := SkipBlanks(s);
    var u := if t != "" && t[0] == '+' then t[1..] else t;
    DigitsOf(if |u| > 2 && u[0] == '0' && (u[1] == 'x' || u[1] == 'X') && IsHex(u[2]) then u[2..] else u)
  }

  /** `from_string` on any text; None where `stoull` finds no digit and throws. */
  function TryFromString(s: string): Option<Uuid> {
    var hex := Stripped(s);
    if |hex| != 32 then Some(NIL)
    else
      var a, b := Numeral(hex[..16]), Numeral(hex[16..]);
      if a == "" || b == "" then None
      else
        ParseFits(a);
        ParseFits(b);
        Some(Uuid(Parse(a), Parse(b)))
  }

  lemma {:induction false} DigitsOfDigits(s: string)
    requires AllHex(s)
    ensures DigitsOf(s) == s
  {
    if s != "" {
      DigitsOfDigits(s[1..]);
    }
  }

  /** `stoull` throws exactly where no digit follows the blanks and the sign. */
  lemma NoNumeralIff(s: string)
    ensures Numeral(s) == "" <==>
      var t := SkipBlanks(s);
      t == "" || !(IsHex(t[0]) || (t[0] == '+' && |t| > 1 && IsHex(t[1])))
  {
  }

  /** Any text: `from_string` throws exactly if there are 32 characters besides hyphens and one half
      of them has no digit where a number must begin. */
  lemma ThrowsIff(s: string)
    ensures TryFromString(s) == None <==>
      |Stripped(s)| == 32 && (NoNumber(Stripped(s)[..16]) || NoNumber(Stripped(s)[16..]))
  {
    var hex := Stripped(s);
    if |hex| == 32 {
      NoNumeralIff(hex[..16]);
      NoNumeralIff(hex[16..]);
    }
  }

  predicate NoNumber(s: string) {
    var t := SkipBlanks(s);
    t == "" || !(IsHex(t[0]) || (t[0] == '+' && |t| > 1 && IsHex(t[1])))
  }

  /** A sign or a prefix is skipped, and what follows the digits is not looked at. */
  lemma NumeralReads(d: string, rest: string)
    requires AllHex(d) && d != ""
    requires rest == "" || !(IsHex(rest[0]) || rest[0] == 'x' || rest[0] == 'X')
    ensures Numeral(d + rest) == d && Numeral("+" + d + rest) == d && Numeral("0x" + d + rest) == d && Numeral("0X" + d + rest) == d
  {
    hide DigitsOf;
    DigitsThenOther(d, rest);
    var s, plus, prefixed, upper := d + rest, "+" + d + rest, "0x" + d + rest, "0X" + d + rest;
    assert plus[1..] == s && prefixed[2..] == s && upper[2..] == s && s[0] == d[0];
    assert |s| > 1 ==> s[1] == if |d| > 1 then d[1] else rest[0];
    assert SkipBlanks(s) == s && SkipBlanks(plus) == plus && SkipBlanks(prefixed) == prefixed && SkipBlanks(upper) == upper;
  }

  lemma {:induction false} DigitsThenOther(d: string, rest: string)
    requires AllHex(d) && (rest == "" || !IsHex(rest[0]))
    ensures DigitsOf(d + rest) == d
  {
    if d == "" {
      assert d + rest == rest;
    } else {
      assert (d + rest)[1..] == d[1..] + rest;
      DigitsThenOther(d[1..], rest);
    }
  }

  /** Where only digits and hyphens occur, nothing throws and all digits are read. */
  lemma ReadableIsRead(s: string)
    requires Readable(s)
    ensures TryFromString(s) == Some(FromString(s))
  {
    var hex := Stripped(s);
    if |hex| == 32 {
      DigitsOfDigits(hex[..16]);
      DigitsOfDigits(hex[16..]);
    }
  }

  /** The method as written: the hyphens are erased from a copy, then each half is read. */
  method ReadUuid(str: string) returns (u: Option<Uuid>)
    ensures u == TryFromString(str)
    ensures Readable(str) ==> u == Some(FromString(str))
  {
    if Readable(str) {
      ReadableIsRead(str);
    }
    hide Readable;
    hide Numeral;
    var hex := "";
    for i := 0 to |str|
      invariant hex == Stripped(str[..i])
    {
      assert str[..i + 1] == str[..i] + [str[i]];
      StrippedAppend(str[..i], [str[i]]);
      if str[i] != '-' {
        hex := hex + [str[i]];
      }
    }
    assert str[..|str|] == str;
    if |hex| != 32 {
      return Some(NIL);
    }
    var a, b := Numeral(hex[..16]), Numeral(hex[16..]);
    if a == "" || b == "" {
      return None;
    }
    ParseFits(a);
    ParseFits(b);
    return Some(Uuid(Parse(a), Parse(b)));
  }

  // ---- Reading back what was printed ----

  /** v without its n lowest digits. */
  function Shr(v: nat, n: nat): nat { if n == 0 then v else Shr(v / 16, n - 1) }

  lemma {:induction false} ParseHex(v: nat, width: nat)
    requires v < Pow16(width)
    ensures Parse(Hex(v, width)) == v
  {
    if width > 0 {
      ParseHex(v / 16, width - 1);
      DigitIsHex(v % 16);
      var s := Hex(v, width);
      assert s[..width - 1] == Hex(v / 16, width - 1);
    }
  }

  lemma {:induction false} HexSplit(v: nat, a: nat, b: nat)
    ensures Hex(v, a + b) == Hex(Shr(v, b), a) + Hex(v, b)
  {
    if b > 0 {
      HexSplit(v / 16, a, b - 1);
    }
  }

  lemma ShrFour(v: nat)
    ensures Shr(v, 4) == v / 0x1_0000
  {
    assert Shr(v, 4) == Shr(v / 16, 3) == Shr(v / 16 / 16, 2) == Shr(v / 16 / 16 / 16, 1) == v / 16 / 16 / 16 / 16;
  }

  lemma {:induction false} ShrAdd(v: nat, n: nat, m: nat)
    ensures Shr(v, n + m) == Shr(Shr(v, n), m)
  {
    if n > 0 {
      ShrAdd(v / 16, n - 1, m);
    }
  }

  lemma ShrTwelve(v: nat)
    ensures Shr(v, 8) == v / 0x1_0000_0000 && Shr(v, 12) == v / 0x1_0000_0000_0000
  {
    ShrAdd(v, 4, 4);
    ShrFour(v);
    ShrFour(v / 0x1_0000);
    ShrAdd(v, 8, 4);
    ShrFour(v / 0x1_0000_0000);
  }

  lemma OneDigit(q: nat, p: nat, v: nat)
    ensures (q * (16 * p) + v) / 16 == q * p + v / 16 && (q * (16 * p) + v) % 16 == v % 16
  {
    var h := q * p;
    assert q * (16 * p) == 16 * h;
  }

  /** Higher digits do not show in the lower ones. */
  lemma {:induction false} HexIgnoresHigh(v: nat, q: nat, width: nat)
    ensures Hex(q * Pow16(width) + v, width) == Hex(v, width)
  {
    if width > 0 {
      OneDigit(q, Pow16(width - 1), v);
      HexIgnoresHigh(v / 16, q, width - 1);
    }
  }

  lemma Masks()
    ensures Pow16(4) == 0x1_0000 && Pow16(8) == 0x1_0000_0000 && Pow16(12) == 0x1_0000_0000_0000
  {
    assert Pow16(8) == 16 * (16 * (16 * (16 * Pow16(4))));
    assert Pow16(12) == 16 * (16 * (16 * (16 * Pow16(8))));
  }

  lemma MaskedFour(v: nat)
    ensures Hex(v % 0x1_0000, 4) == Hex(v, 4)
  {
    Masks();
    HexIgnoresHigh(v % 0x1_0000, v / 0x1_0000, 4);
  }

  lemma MaskedEight(v: nat)
    ensures Hex(v % 0x1_0000_0000, 8) == Hex(v, 8)
  {
    Masks();
    HexIgnoresHigh(v % 0x1_0000_0000, v / 0x1_0000_0000, 8);
  }

  lemma MaskedTwelve(v: nat)
    ensures Hex(v % 0x1_0000_0000_0000, 12) == Hex(v, 12)
  {
    Masks();
    HexIgnoresHigh(v % 0x1_0000_0000_0000, v / 0x1_0000_0000_0000, 12);
  }

  lemma HighDigits(v: nat)
    ensures Hex(v, 16) == (Hex(v / 0x1_0000_0000, 8) + Hex(v / 0x1_0000, 4)) + Hex(v, 4)
  {
    var w := v / 0x1_0000;
    HexSplit(v, 12, 4);
    ShrFour(v);
    HexSplit(w, 8, 4);
    ShrFour(w);
    assert w / 0x1_0000 == v / 0x1_0000_0000;
  }

  lemma LowDigits(v: nat)
    ensures Hex(v, 16) == Hex(v / 0x1_0000_0000_0000, 4) + Hex(v, 12)
  {
    HexSplit(v, 4, 12);
    ShrTwelve(v);
  }

  /** The printed groups are the 32 digits of the two words. */
  lemma TextIsGroupedDigits(u: Uuid)
    ensures ToString(u) == Grouped(Hex(u.hi, 16) + Hex(u.lo, 16))
  {
    HighDigits(u.hi);
    LowDigits(u.lo);
    MaskedEight(u.hi / 0x1_0000_0000);
    MaskedFour(u.hi / 0x1_0000);
    MaskedFour(u.hi);
    MaskedFour(u.lo / 0x1_0000_0000_0000);
    MaskedTwelve(u.lo);
    GroupedParts(Hex(u.hi / 0x1_0000_0000, 8), Hex(u.hi / 0x1_0000, 4), Hex(u.hi, 4),
                 Hex(u.lo / 0x1_0000_0000_0000, 4), Hex(u.lo, 12), Hex(u.hi, 16) + Hex(u.lo, 16));
  }

  lemma GroupedParts(a: string, b: string, c: string, d: string, e: string, all: string)
    requires |a| == 8 && |b| == 4 && |c| == 4 && |d| == 4 && |e| == 12
    requires all == ((a + b) + c) + (d + e)
    ensures Grouped(all) == Dash(a, Dash(b, Dash(c, Dash(d, e))))
  {
    assert all[..8] == a && all[8..12] == b && all[12..16] == c && all[16..20] == d && all[20..] == e;
  }

  lemma Strip(a: string, b: string)
    requires AllHex(a)
    ensures Stripped(Dash(a, b)) == a + Stripped(b)
  {
    NothingToStrip(a);
    StrippedAppend(a, "-");
    StrippedAppend(a + "-", b);
    assert Stripped("-") == "";
  }

  lemma StrippedGrouped(d: string)
    requires |d| == 32 && AllHex(d)
    ensures Stripped(Grouped(d)) == d
  {
    var e, f := d[16..20], d[20..];
    NothingToStrip(f);
    Strip(e, f);
    Strip(d[12..16], Dash(e, f));
    Strip(d[8..12], Dash(d[12..16], Dash(e, f)));
    Strip(d[..8], Dash(d[8..12], Dash(d[12..16], Dash(e, f))));
    FiveParts(d);
  }

  lemma FiveParts(d: string)
    requires |d| == 32
    ensures d[..8] + (d[8..12] + (d[12..16] + (d[16..20] + d[20..]))) == d
  {
  }

  // ---- Main results ----

  /** Printing and reading back gives the same identifier, for all 128-bit values. */
  lemma RoundTrip(u: Uuid)
    ensures Readable(ToString(u)) && FromString(ToString(u)) == u
  {
    var d := Hex(u.hi, 16) + Hex(u.lo, 16);
    TextIsGroupedDigits(u);
    StrippedGrouped(d);
    assert d[..16] == Hex(u.hi, 16) && d[16..] == Hex(u.lo, 16);
    PowSixteen();
    ParseHex(u.hi, 16);
    ParseHex(u.lo, 16);
  }

  /** Two identifiers with the same text are the same. */
  lemma TextIsInjective(u: Uuid, v: Uuid)
    requires ToString(u) == ToString(v)
    ensures u == v
  {
    RoundTrip(u);
    RoundTrip(v);
  }

  /** Each character is the hexadecimal digit of its place. */
  lemma {:induction false} HexAt(v: nat, width: nat, k: nat)
    requires k < width
    ensures Hex(v, width)[width - 1 - k] == "0123456789abcdef"[v / Pow16(k) % 16]
  {
    if k == 0 {
      DigitText(v % 16);
    } else {
      HexAt(v / 16, width - 1, k - 1);
      DivideTwice(v, 16, Pow16(k - 1));
    }
  }

  lemma DigitText(d: int)
    requires 0 <= d < 16
    ensures Digit(d) == "0123456789abcdef"[d]
  {
  }

  /** The text: hyphens in the four places, and otherwise the 32 digits of the 128 bits, the most
      significant first. */
  lemma CanonicalText(u: Uuid)
    ensures var t, d := ToString(u), Stripped(ToString(u));
      && |t| == 36 && t[8] == t[13] == t[18] == t[23] == '-'
      && |d| == 32 && t == d[..8] + "-" + d[8..12] + "-" + d[12..16] + "-" + d[16..20] + "-" + d[20..]
      && (forall k: nat | k < 16 :: d[15 - k] == "0123456789abcdef"[u.hi / Pow16(k) % 16])
      && (forall k: nat | k < 16 :: d[31 - k] == "0123456789abcdef"[u.lo / Pow16(k) % 16])
  {
    hide ToString;
    hide Grouped;
    hide Stripped;
    hide Hex;
    hide Pow16;
    var d := Hex(u.hi, 16) + Hex(u.lo, 16);
    TextIsGroupedDigits(u);
    StrippedGrouped(d);
    GroupedIsJoined(d);
    forall k: nat | k < 16
      ensures d[15 - k] == "0123456789abcdef"[u.hi / Pow16(k) % 16]
      ensures d[31 - k] == "0123456789abcdef"[u.lo / Pow16(k) % 16]
    {
      HexAt(u.hi, 16, k);
      HexAt(u.lo, 16, k);
      assert d[15 - k] == Hex(u.hi, 16)[15 - k] && d[31 - k] == Hex(u.lo, 16)[15 - k];
    }
  }

  lemma GroupedIsJoined(d: string)
    requires |d| == 32
    ensures var t := Grouped(d);
      && |t| == 36 && t[8] == t[13] == t[18] == t[23] == '-'
      && t == d[..8] + "-" + d[8..12] + "-" + d[12..16] + "-" + d[16..20] + "-" + d[20..]
  {
  }

  /** Digits that were read print back in lower case. */
  lemma {:induction false} HexParse(d: string)
    requires AllHex(d)
    ensures Hex(Parse(d), |d|) == Lowered(d)
  {
    if d != "" {
      var n := |d| - 1;
      var p, x := Parse(d[..n]), Value(d[n]);
      HexParse(d[..n]);
      assert (p * 16 + x) / 16 == p && (p * 16 + x) % 16 == x;
      assert Lowered(d) == Lowered(d[..n]) + [Lower(d[n])];
    }
  }

  /** 32 digits in any case with hyphens anywhere print back as the canonical lower-case text. */
  lemma PrintsCanonical(s: string)
    requires |Stripped(s)| == 32 && AllHex(Stripped(s))
    ensures ToString(FromString(s)) == Grouped(Lowered(Stripped(s)))
  {
    var d := Stripped(s);
    HexParse(d[..16]);
    HexParse(d[16..]);
    assert Lowered(d) == Lowered(d[..16]) + Lowered(d[16..]);
    TextIsGroupedDigits(FromString(s));
  }

  /** Text with another number of digits reads as the nil identifier, whose own text has 32. */
  lemma WrongLengthIsNil(s: string)
    requires Readable(s)
    ensures FromString(s) == NIL <==> |Stripped(s)| != 32 || Stripped(s) == seq(32, _ => '0')
  {
    var d := Stripped(s);
    if |d| == 32 {
      if FromString(s) == NIL {
        ZeroDigits(d[..16]);
        ZeroDigits(d[16..]);
        assert d == d[..16] + d[16..];
      }
      if d == seq(32, _ => '0') {
        OnlyZeros(d[..16]);
        OnlyZeros(d[16..]);
      }
    }
  }

  lemma {:induction false} ZeroDigits(d: string)
    requires AllHex(d) && Parse(d) == 0
    ensures forall i | 0 <= i < |d| :: d[i] == '0'
  {
    if d != "" {
      ZeroDigits(d[..|d| - 1]);
    }
  }

  lemma {:induction false} OnlyZeros(d: string)
    requires forall i | 0 <= i < |d| :: d[i] == '0'
    ensures AllHex(d) && Parse(d) == 0
  {
    if d != "" {
      OnlyZeros(d[..|d| - 1]);
    }
  }

  lemma FirstOfFour(v: nat)
    ensures Hex(v, 4)[0] == Digit(v / 0x1000 % 16)
  {
    HexSplit(v, 1, 3);
    assert Shr(v, 3) == Shr(v / 16, 2) == Shr(v / 16 / 16, 1) == v / 16 / 16 / 16;
  }

  lemma VersionBits(q: nat, m: nat)
    requires m < 0x1000
    ensures var hi := q * 0x1_0000 + 0x4000 + m;
      hi / 0x1_0000 == q && hi % 0x1_0000 == 0x4000 + m && hi % 0x1000 == m
  {
    var hi := q * 0x1_0000 + 0x4000 + m;
    assert hi == (q * 16 + 4) * 0x1000 + m;
  }

  lemma VersionDigit(m: nat)
    requires m < 0x1000
    ensures (0x4000 + m) / 0x1000 % 16 == 4
  {
  }

  lemma VariantBits(m: nat)
    requires m < 0x4000_0000_0000_0000
    ensures var lo := 0x8000_0000_0000_0000 + m;
      lo / 0x4000_0000_0000_0000 == 2 && lo % 0x4000_0000_0000_0000 == m
  {
  }

  lemma VariantDigit(lo: Word)
    requires lo / 0x4000_0000_0000_0000 == 2
    ensures Digit(lo / 0x1_0000_0000_0000 % 0x1_0000 / 0x1000 % 16) in "89ab"
  {
    assert 8 <= lo / 0x1_0000_0000_0000 % 0x1_0000 / 0x1000 <= 11;
  }

  /** Two single characters of the text. */
  lemma TextAt(u: Uuid)
    ensures var t := ToString(u);
      && |t| == 36
      && t[14] == Hex(u.hi % 0x1_0000, 4)[0]
      && t[19] == Hex(u.lo / 0x1_0000_0000_0000 % 0x1_0000, 4)[0]
  {
  }

  /** Whatever the random words, the identifier is of version 4 and variant 10, as its text shows;
      it is not the nil one, and the other 122 bits are the random ones. */
  lemma GenerateIsVersion4(r0: Word, r1: Word)
    ensures var u := Generate(r0, r1);
      && IsValid(u)
      && u.hi / 0x1_0000 == r0 / 0x1_0000 && u.hi % 0x1000 == r0 % 0x1000
      && u.lo % 0x4000_0000_0000_0000 == r1 % 0x4000_0000_0000_0000
    ensures var t := ToString(Generate(r0, r1)); |t| == 36 && t[14] == '4' && t[19] in "89ab"
  {
    var u := Generate(r0, r1);
    MasksAreSums(r0, r1);
    hide Generate;
    hide Hex;
    VersionBits(r0 / 0x1_0000, r0 % 0x1000);
    VersionDigit(r0 % 0x1000);
    VariantBits(r1 % 0x4000_0000_0000_0000);
    FirstOfFour(u.hi % 0x1_0000);
    FirstOfFour(u.lo / 0x1_0000_0000_0000 % 0x1_0000);
    VariantDigit(u.lo);
    TextAt(u);
  }
}
