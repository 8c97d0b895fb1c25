/** Decimal text of numbers. */
module Decimal {
  import opened Results
  import opened Powers

  predicate IsDigit(c: char) { '0' <= c <= '9' }

  predicate AllDigits(s: string) { forall i | 0 <= i < |s| :: IsDigit(s[i]) }

  function DigitChar(d: int): (c: char)
    requires 0 <= d < 10
    ensures IsDigit(c) && DigitValue(c) == d
  {
    ('0' as int + d) as char
  }

  function DigitValue(c: char): int
    requires IsDigit(c)
  {
    c as int - '0' as int
  }

  /** n in decimal, padded with zeros to at least `width` characters. */
  function Padded(n: nat, width: nat): (s: string)
    ensures AllDigits(s) && |s| >= width
    decreases width, n
  {
    if width == 0 && n == 0 then ""
    else Padded(n / 10, if width == 0 then 0 else width - 1) + [DigitChar(n % 10)]
  }

  function Pow10(k: nat): (r: nat)
    ensures r >= 1
  {
    if k == 0 then 1 else 10 * Pow10(k - 1)
  }

  lemma {:induction false} PaddedWidth(n: nat, width: nat)
    requires n < Pow10(width)
    ensures |Padded(n, width)| == width
  {
    if width > 0 {
      PaddedWidth(n / 10, width - 1);
    }
  }

  /** Each character is the decimal digit of its place. */
  lemma {:induction false} PaddedAt(n: nat, width: nat, k: nat)
    requires k < |Padded(n, width)|
    ensures Padded(n, width)[|Padded(n, width)| - 1 - k] as int == '0' as int + n / Pow10(k) % 10
    decreases k
  {
    if k > 0 {
      PaddedAt(n / 10, if width == 0 then 0 else width - 1, k - 1);
      DivideTwice(n, 10, Pow10(k - 1));
    }
  }

  /** Without padding there is no leading zero. */
  lemma {:induction false} NoLeadingZero(n: nat)
    requires n > 0
    ensures Padded(n, 0) != "" && Padded(n, 0)[0] != '0'
  {
    if n >= 10 {
      NoLeadingZero(n / 10);
    }
  }

  function Fold(acc: nat, s: string): nat
    requires AllDigits(s)
    decreases |s|
  {
    if s == "" then acc else Fold(acc * 10 + DigitValue(s[0]), s[1..])
  }

  lemma {:induction false} FoldAppend(acc: nat, s: string, c: char)
    requires AllDigits(s) && IsDigit(c)
    ensures AllDigits(s + [c]) && Fold(acc, s + [c]) == Fold(acc, s) * 10 + DigitValue(c)
    decreases |s|
  {
    if s == "" {
      assert s + [c] == [c];
    } else {
      assert (s + [c])[1..] == s[1..] + [c];
      FoldAppend(acc * 10 + DigitValue(s[0]), s[1..], c);
    }
  }

  /** Reading the digits gives the number, with or without leading zeros. */
  lemma {:induction false} FoldPadded(n: nat, width: nat)
    ensures Fold(0, Padded(n, width)) == n
    decreases width, n
  {
    if width > 0 || n > 0 {
      var w := if width == 0 then 0 else width - 1;
      FoldPadded(n / 10, w);
      FoldAppend(0, Padded(n / 10, w), DigitChar(n % 10));
    }
  }

  // ---- Integers ----

  /** The blanks of the "C" locale. */
  predicate IsBlank(c: char) { c == ' ' || '\t' <= c <= '\r' }

  /** What the library's number readers skip first. */
  function SkipBlanks(s: string): (r: string)
    ensures |r| <= |s|
  {
    if s != "" && IsBlank(s[0]) then SkipBlanks(s[1..]) else s
  }

  /** Exactly space, tab, newline, vertical tab, form feed and carriage return are skipped. */
  lemma BlanksAreSkipped(c: char, s: string)
    ensures SkipBlanks([c] + s) ==
      if c == ' ' || c as int in {9, 10, 11, 12, 13} then SkipBlanks(s) else [c] + s
  {
    assert ([c] + s)[1..] == s;
  }

  /** `std::to_string`: no padding, and a minus sign for negative numbers. */
  function IntText(n: int): string { if n < 0 then "-" + Padded(-n, 1) else Padded(n, 1) }

  function ParseInt(s: string): Option<int> {
    if s != "" && s[0] == '-' then
      (if |s| > 1 && AllDigits(s[1..]) then Some(-(Fold(0, s[1..]) as int)) else None)
    else if s != "" && AllDigits(s) then Some(Fold(0, s)) else None
  }

  /** The text of an integer: a minus sign exactly for a negative one, then the digits of its size,
      the first of which is zero only for zero. */
  lemma IntTextShape(n: int)
    ensures var t := IntText(n);
      var size: nat := if n < 0 then -n else n;
      var digits := if n < 0 then t[1..] else t;
      && t != "" && (t[0] == '-' <==> n < 0)
      && digits != "" && (digits[0] == '0' <==> n == 0)
      && forall k: nat | k < |digits| :: digits[|digits| - 1 - k] as int == '0' as int + size / Pow10(k) % 10
  {
    var size: nat := if n < 0 then -n else n;
    forall k: nat | k < |Padded(size, 1)|
      ensures Padded(size, 1)[|Padded(size, 1)| - 1 - k] as int == '0' as int + size / Pow10(k) % 10
    {
      PaddedAt(size, 1, k);
    }
    if size > 0 {
      NoLeadingZero(size);
      assert Padded(size, 1) == Padded(size, 0);
    } else {
      assert Padded(0, 1) == "" + [DigitChar(0)];
    }
    if n < 0 {
      assert IntText(n)[1..] == Padded(size, 1);
    }
  }

  /** Numbers are digits, after a minus sign or not, and nothing else is one. */
  lemma NumbersIff(s: string)
    ensures ParseInt(s).Some? <==>
      var digits := if s != "" && s[0] == '-' then s[1..] else s;
      digits != "" && forall i | 0 <= i < |digits| :: '0' <= digits[i] <= '9'
  {
  }

  lemma IntRoundTrip(n: int)
    ensures ParseInt(IntText(n)) == Some(n)
  {
    FoldPadded(if n < 0 then -n else n, 1);
    if n < 0 {
      assert IntText(n)[1..] == Padded(-n, 1);
    } else {
      assert IsDigit(IntText(n)[0]);
    }
  }
}
