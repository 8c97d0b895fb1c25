/** Timestamps as text: `format_iso8601` and `parse_iso8601`. A time point is a number of
    nanoseconds since the epoch. */
module TimeUtils {
  import opened Results
  import opened Calendar
  import opened Decimal

  // ---- Formatting ----

  function DateOf(tp: nat): Date { DateFromDays(tp / 1_000_000_000 / 86400) }

  function SecondOfDay(tp: nat): (s: nat)
    ensures s < 86400
  {
    tp / 1_000_000_000 % 86400
  }

  function Millis(tp: nat): (ms: nat)
    ensures ms < 1000
  {
    tp / 1_000_000 % 1000
  }

  function Field(n: nat, width: nat, mark: char, rest: string): string { Padded(n, width) + [mark] + rest }

  /** Date and time up to the seconds, and what follows. */
  function Stamp(y: nat, m: nat, d: nat, h: nat, mi: nat, sec: nat, tail: string): string {
    Field(y, 4, '-', Field(m, 2, '-', Field(d, 2, 'T',
    Field(h, 2, ':', Field(mi, 2, ':', Padded(sec, 2) + tail)))))
  }

  function Text(y: nat, m: nat, d: nat, h: nat, mi: nat, sec: nat, ms: nat): string {
    Stamp(y, m, d, h, mi, sec, "." + Padded(ms, 3) + "Z")
  }

  function Format(tp: nat): string {
    var d, s := DateOf(tp), SecondOfDay(tp);
    DaysRoundTrip(tp / 1_000_000_000 / 86400);
    Text(d.year, d.month, d.day, s / 3600, s % 3600 / 60, s % 60, Millis(tp))
  }

  // ---- Parsing ----

  /** At most `width` digits from the front: how many, their value, and the rest. */
  function Scan(s: string, width: nat, acc: nat): (nat, string) {
    if width == 0 || s == "" || !IsDigit(s[0]) then (acc, s)
    else Scan(s[1..], width - 1, acc * 10 + DigitValue(s[0]))
  }

  /** One conversion of `get_time`: a number within its range. */
  function Number(s: string, width: nat, lo: int, hi: int): Option<(nat, string)> {
    var (v, rest) := Scan(s, width, 0);
    if rest == s || !(lo <= v <= hi) then None else Some((v, rest))
  }

  function Literal(s: string, c: char): Option<string> { if s != "" && s[0] == c then Some(s[1..]) else None }

  /** A number followed, unless it is the last field, by a literal character. */
  function Item(s: string, width: nat, lo: int, hi: int, mark: Option<char>): Option<(nat, string)> {
    match Number(s, width, lo, hi)
    case None => None
    case Some((v, rest)) =>
      if mark.None? then Some((v, rest))
      else match Literal(rest, mark.value)
        case None => None
        case Some(after) => Some((v, after))
  }

  datatype Broken = Broken(date: Date, hour: nat, minute: nat, second: nat)

  /** A number of at most `width` digits, within a range, and the literal that follows it. */
  datatype Conversion = Conversion(width: nat, lo: int, hi: int, mark: Option<char>)

  /** "%Y-%m-%dT%H:%M:%S" */
  function DateTime(): seq<Conversion> {
    [Conversion(4, 0, 9999, Some('-')), Conversion(2, 1, 12, Some('-')), Conversion(2, 1, 31, Some('T')),
     Conversion(2, 0, 23, Some(':')), Conversion(2, 0, 59, Some(':')), Conversion(2, 0, 60, None)]
  }

  /** The numbers read, one for each conversion. */
  function Fields(s: string, format: seq<Conversion>): (r: Option<seq<nat>>)
    ensures r.Some? ==> |r.value| == |format|
    decreases |format|
  {
    if format == [] then Some([])
    else
      match Item(s, format[0].width, format[0].lo, format[0].hi, format[0].mark)
      case None => None
      case Some((n, rest)) =>
        match Fields(rest, format[1..])
        case None => None
        case Some(ns) => Some([n] + ns)
  }

  /** `get_time`; None where it fails. */
  function GetTime(s: string): Option<Broken> {
    match Fields(s, DateTime())
    case None => None
    case Some(n) => Some(Broken(Date(n[0], n[1], n[2]), n[3], n[4], n[5]))
  }

  function TimeGm(b: Broken): int { DaysFromDate(b.date) * 86400 + b.hour * 3600 + b.minute * 60 + b.second }

  /** The text after the first dot. */
  function AfterDot(s: string): Option<string> {
    if s == "" then None else if s[0] == '.' then Some(s[1..]) else AfterDot(s[1..])
  }

  /** `stoi`: blanks are skipped, a sign is read, then digits up to the first other character; None
      where it throws as there is no digit. */
  function Stoi(s: string): Option<int> {
    var t := SkipBlanks(s);
    var signed := t != "" && (t[0] == '+' || t[0] == '-');
    var u := if signed then t[1..] else t;
    var (v, rest) := Scan(u, |u|, 0);
    if rest == u then None else Some(if signed && t[0] == '-' then -(v as int) else v)
  }

  /** What it makes of the first three characters after the dot. */
  function Fraction(s: string): Option<int> { Stoi(if |s| <= 3 then s else s[..3]) }

  function Parse(s: string): Option<int> {
    match GetTime(s)
    case None => None
    case Some(b) =>
      var tp := TimeGm(b) * 1_000_000_000;
      match AfterDot(s)
      case None => Some(tp)
      case Some(f) =>
        match Fraction(f)
        case None => None
        case Some(ms) => Some(tp + ms * 1_000_000)
  }

  /** The parser as written: the time point first, then the search for the dot. */
  method ParseIso8601(sv: string) returns (r: Option<int>)
    ensures r == Parse(sv)
  {
    var tm := GetTime(sv);
    if tm.None? {
      return None;
    }
    var tp := TimeGm(tm.value) * 1_000_000_000;
    var dot := 0;
    while dot < |sv| && sv[dot] != '.'
      invariant dot <= |sv|
      invariant AfterDot(sv) == AfterDot(sv[dot..])
    {
      dot := dot + 1;
    }
    if dot < |sv| {
      assert sv[dot..][1..] == sv[dot + 1..];
      var ms := Fraction(sv[dot + 1..]);
      if ms.None? {
        return None;
      }
      tp := tp + ms.value * 1_000_000;
    }
    return Some(tp);
  }

  // ---- Reading back what was formatted ----

  lemma {:induction false} ScanPrefix(a: string, b: string, k: nat, acc: nat)
    requires AllDigits(a)
    ensures Scan(a + b, |a| + k, acc) == Scan(b, k, Fold(acc, a))
  {
    if a == "" {
      assert a + b == b;
    } else {
      assert (a + b)[1..] == a[1..] + b;
      ScanPrefix(a[1..], b, k, acc * 10 + DigitValue(a[0]));
    }
  }

  lemma ScanPadded(n: nat, width: nat, rest: string)
    requires n < Pow10(width)
    ensures Scan(Padded(n, width) + rest, width, 0) == (n, rest)
  {
    PaddedWidth(n, width);
    FoldPadded(n, width);
    ScanPrefix(Padded(n, width), rest, 0, 0);
  }

  /** A formatted field is read back by the conversion of the same width. */
  lemma FieldRead(n: nat, width: nat, mark: char, rest: string, lo: int, hi: int)
    requires width >= 1 && n < Pow10(width)
    ensures Item(Field(n, width, mark, rest), width, lo, hi, Some(mark)) == if lo <= n <= hi then Some((n, rest)) else None
  {
    var tail := [mark] + rest;
    ScanPadded(n, width, tail);
    PaddedWidth(n, width);
    assert Field(n, width, mark, rest) == Padded(n, width) + tail;
    assert |Field(n, width, mark, rest)| == width + |tail|;
    assert tail[1..] == rest;
  }

  lemma {:induction false} NoDotIn(a: string, mark: char, rest: string)
    requires AllDigits(a) && mark != '.'
    ensures AfterDot(a + [mark] + rest) == AfterDot(rest)
  {
    var s := a + [mark] + rest;
    if a == "" {
      assert s[1..] == rest;
    } else {
      assert s[1..] == a[1..] + [mark] + rest;
      NoDotIn(a[1..], mark, rest);
    }
  }

  lemma Powers()
    ensures Pow10(2) == 100 && Pow10(4) == 10000
  {
    assert Pow10(2) == 100;
  }

  /** Reading one formatted field and then the others: it must be in range, and they must be read. */
  lemma FieldsRead(f: seq<Conversion>, k: nat, mark: char, n: nat, rest: string)
    requires k < |f| && f[k].width >= 1 && n < Pow10(f[k].width) && f[k].mark == Some(mark)
    ensures Fields(Field(n, f[k].width, mark, rest), f[k..]) ==
      match Fields(rest, f[k + 1..])
      case None => None
      case Some(ns) => if f[k].lo <= n <= f[k].hi then Some([n] + ns) else None
  {
    FieldRead(n, f[k].width, mark, rest, f[k].lo, f[k].hi);
    assert f[k..][1..] == f[k + 1..];
    hide Item;
    hide Field;
  }

  /** The last conversion reads two digits, whatever follows. */
  lemma SecondsRead(sec: nat, tail: string)
    requires sec < 100
    ensures Fields(Padded(sec, 2) + tail, DateTime()[5..]) == if sec <= 60 then Some([sec]) else None
  {
    Powers();
    ScanPadded(sec, 2, tail);
    PaddedWidth(sec, 2);
    assert Item(Padded(sec, 2) + tail, 2, 0, 60, None) == if sec <= 60 then Some((sec, tail)) else None;
    var f := DateTime()[5..];
    assert f[0] == DateTime()[5] && f[1..] == [];
    assert Fields(tail, f[1..]) == Some([]);
    assert [sec] + [] == [sec];
  }

  predicate InRange(m: nat, d: nat, h: nat, mi: nat, sec: nat) {
    1 <= m <= 12 && 1 <= d <= 31 && h <= 23 && mi <= 59 && sec <= 60
  }

  lemma FieldsOfStamp(f: seq<Conversion>, y: nat, m: nat, d: nat, h: nat, mi: nat, sec: nat, tail: string)
    requires f == DateTime()
    requires y <= 9999 && m < 100 && d < 100 && h < 100 && mi < 100 && sec < 100
    ensures Fields(Stamp(y, m, d, h, mi, sec, tail), f[0..]) ==
      if InRange(m, d, h, mi, sec) then Some([y] + ([m] + ([d] + ([h] + ([mi] + [sec]))))) else None
  {
    hide Field;
    hide Fields;
    hide Padded;
    Powers();
    var s5 := Padded(sec, 2) + tail;
    var s4 := Field(mi, 2, ':', s5);
    var s3 := Field(h, 2, ':', s4);
    var s2 := Field(d, 2, 'T', s3);
    var s1 := Field(m, 2, '-', s2);
    SecondsRead(sec, tail);
    FieldsRead(f, 4, ':', mi, s5);
    FieldsRead(f, 3, ':', h, s4);
    FieldsRead(f, 2, 'T', d, s3);
    FieldsRead(f, 1, '-', m, s2);
    FieldsRead(f, 0, '-', y, s1);
  }

  /** `get_time` refuses exactly what is out of range. A day that its month does not have passes. */
  lemma GetTimeReads(y: nat, m: nat, d: nat, h: nat, mi: nat, sec: nat, tail: string)
    requires y <= 9999 && m < 100 && d < 100 && h < 100 && mi < 100 && sec < 100
    ensures GetTime(Stamp(y, m, d, h, mi, sec, tail)) ==
      if 1 <= m <= 12 && 1 <= d <= 31 && h <= 23 && mi <= 59 && sec <= 60
      then Some(Broken(Date(y, m, d), h, mi, sec)) else None
  {
    hide Fields;
    hide Stamp;
    var f := DateTime();
    FieldsOfStamp(f, y, m, d, h, mi, sec, tail);
    assert f[0..] == f;
    assert [y] + ([m] + ([d] + ([h] + ([mi] + [sec])))) == [y, m, d, h, mi, sec];
  }

  /** The first dot is looked for after the seconds. */
  lemma DotReads(y: nat, m: nat, d: nat, h: nat, mi: nat, sec: nat, tail: string)
    ensures AfterDot(Stamp(y, m, d, h, mi, sec, tail)) == AfterDot(tail)
  {
    var s5 := Padded(sec, 2) + tail;
    var s4 := Field(mi, 2, ':', s5);
    var s3 := Field(h, 2, ':', s4);
    var s2 := Field(d, 2, 'T', s3);
    NoDotIn(Padded(y, 4), '-', Field(m, 2, '-', s2));
    NoDotIn(Padded(m, 2), '-', s2);
    NoDotIn(Padded(d, 2), 'T', s3);
    NoDotIn(Padded(h, 2), ':', s4);
    NoDotIn(Padded(mi, 2), ':', s5);
    NoDotBefore(Padded(sec, 2), tail);
  }

  lemma {:induction false} NoDotBefore(a: string, tail: string)
    requires AllDigits(a)
    ensures AfterDot(a + tail) == AfterDot(tail)
  {
    if a == "" {
      assert a + tail == tail;
    } else {
      assert (a + tail)[1..] == a[1..] + tail;
      NoDotBefore(a[1..], tail);
    }
  }

  lemma ScanAll(ds: string, more: string)
    requires AllDigits(ds) && (more == "" || !IsDigit(more[0]))
    ensures Scan(ds + more, |ds + more|, 0) == (Fold(0, ds), more)
  {
    ScanPrefix(ds, more, |more|, 0);
  }

  /** `stoi` on digits, with or without a sign, and what follows them. */
  lemma StoiReads(ds: string, more: string)
    requires AllDigits(ds) && ds != "" && (more == "" || !IsDigit(more[0]))
    ensures Stoi(ds + more) == Some(Fold(0, ds))
    ensures Stoi("-" + (ds + more)) == Some(-(Fold(0, ds) as int)) && Stoi("+" + (ds + more)) == Some(Fold(0, ds))
  {
    hide Scan;
    hide Fold;
    var s := ds + more;
    ScanAll(ds, more);
    assert s[0] == ds[0] && |more| < |s|;
    NothingToSkip(s, "");
    NothingToSkip("-", s);
    NothingToSkip("+", s);
  }

  lemma NothingToSkip(a: string, b: string)
    requires a != "" && !IsBlank(a[0])
    ensures SkipBlanks(a + b) == a + b && (a + b)[0] == a[0] && (|a| == 1 ==> (a + b)[1..] == b) && a + "" == a
  {
  }

  /** `stoi` on one to three digits and what follows them. */
  lemma FractionRead(ds: string, rest: string)
    requires AllDigits(ds) && 1 <= |ds| <= 3 && (|ds| == 3 || rest == "" || !('0' <= rest[0] <= '9'))
    ensures Fraction(ds + rest) == Some(Fold(0, ds))
  {
    hide Stoi;
    var more := rest[..if |rest| <= 3 - |ds| then |rest| else 3 - |ds|];
    FirstThree(ds, rest, more);
    StoiReads(ds, more);
  }

  /** A sign is one of the three characters, and a fraction without a digit makes `stoi` throw. */
  lemma SignedFraction(ds: string, rest: string)
    requires AllDigits(ds) && 1 <= |ds| <= 2 && (|ds| == 2 || rest == "" || !('0' <= rest[0] <= '9'))
    ensures Fraction("-" + ds + rest) == Some(-(Fold(0, ds) as int)) && Fraction("+" + ds + rest) == Some(Fold(0, ds))
  {
    hide Stoi;
    var more := rest[..if |rest| <= 2 - |ds| then |rest| else 2 - |ds|];
    FirstThree("-" + ds, rest, more);
    FirstThree("+" + ds, rest, more);
    assert "-" + ds + more == "-" + (ds + more) && "+" + ds + more == "+" + (ds + more);
    StoiReads(ds, more);
  }

  lemma FirstThree(s: string, rest: string, more: string)
    requires 1 <= |s| <= 3 && more == rest[..if |rest| <= 3 - |s| then |rest| else 3 - |s|]
    ensures s + more == if |s + rest| <= 3 then s + rest else (s + rest)[..3]
  {
  }

  lemma NoFraction(s: string)
    requires s == "" || !('0' <= s[0] <= '9' || s[0] == '+' || s[0] == '-' || IsBlank(s[0]))
    ensures Fraction(s) == None
  {
    var three := if |s| <= 3 then s else s[..3];
    assert SkipBlanks(three) == three;
  }

  /** The text of a date and time, with or without a fraction. Without a dot the time is that of the
      seconds. With one, up to three digits after it are a number of milliseconds, so that ".5" is
      five of them. */
  lemma ParseStamp(y: nat, m: nat, d: nat, h: nat, mi: nat, sec: nat, tail: string, ds: string, rest: string)
    requires y <= 9999 && 1 <= m <= 12 && 1 <= d <= 31 && h <= 23 && mi <= 59 && sec <= 60
    ensures (forall i | 0 <= i < |tail| :: tail[i] != '.') ==>
      Parse(Stamp(y, m, d, h, mi, sec, tail)) == Some(TimeGm(Broken(Date(y, m, d), h, mi, sec)) * 1_000_000_000)
    ensures AllDigits(ds) && 1 <= |ds| <= 3 && (|ds| == 3 || rest == "" || !('0' <= rest[0] <= '9')) ==>
      Parse(Stamp(y, m, d, h, mi, sec, "." + ds + rest))
        == Some(TimeGm(Broken(Date(y, m, d), h, mi, sec)) * 1_000_000_000 + Fold(0, ds) * 1_000_000)
  {
    hide Stamp;
    hide GetTime;
    hide Fraction;
    hide TimeGm;
    if forall i | 0 <= i < |tail| :: tail[i] != '.' {
      GetTimeReads(y, m, d, h, mi, sec, tail);
      DotReads(y, m, d, h, mi, sec, tail);
      NoDotAtAll(tail);
    }
    if AllDigits(ds) && 1 <= |ds| <= 3 && (|ds| == 3 || rest == "" || !('0' <= rest[0] <= '9')) {
      var dotted := "." + ds + rest;
      assert dotted[1..] == ds + rest;
      GetTimeReads(y, m, d, h, mi, sec, dotted);
      DotReads(y, m, d, h, mi, sec, dotted);
      FractionRead(ds, rest);
    }
  }

  lemma {:induction false} NoDotAtAll(s: string)
    requires forall i | 0 <= i < |s| :: s[i] != '.'
    ensures AfterDot(s) == None
  {
    if s != "" {
      NoDotAtAll(s[1..]);
    }
  }

  lemma ParseText(y: nat, m: nat, d: nat, h: nat, mi: nat, sec: nat, ms: nat)
    requires y <= 9999 && 1 <= m <= 12 && 1 <= d <= 31 && h <= 23 && mi <= 59 && sec <= 59 && ms < 1000
    ensures Parse(Text(y, m, d, h, mi, sec, ms))
         == Some(TimeGm(Broken(Date(y, m, d), h, mi, sec)) * 1_000_000_000 + ms * 1_000_000)
  {
    hide Stamp;
    hide Parse;
    hide TimeGm;
    assert Pow10(3) == 1000;
    PaddedWidth(ms, 3);
    FoldPadded(ms, 3);
    ParseStamp(y, m, d, h, mi, sec, "", Padded(ms, 3), "Z");
  }

  /** The broken-down time that `gmtime` gives, and that `timegm` counts back. */
  function BrokenDown(tp: nat): Broken {
    var s := SecondOfDay(tp);
    Broken(DateOf(tp), s / 3600, s % 3600 / 60, s % 60)
  }

  lemma SecondsOfDay(s: nat)
    requires s < 86400
    ensures s / 3600 * 3600 + s % 3600 / 60 * 60 + s % 60 == s && s / 3600 <= 23 && s % 3600 / 60 <= 59
  {
    assert s % 3600 % 60 == s % 60;
  }

  lemma TimeGmInverts(tp: nat)
    ensures TimeGm(BrokenDown(tp)) == tp / 1_000_000_000
  {
    DaysRoundTrip(tp / 1_000_000_000 / 86400);
    SecondsOfDay(SecondOfDay(tp));
  }

  lemma SplitMillis(tp: nat)
    ensures tp / 1_000_000_000 * 1_000_000_000 + Millis(tp) * 1_000_000
         == tp / 1_000_000 * 1_000_000
  {
    assert tp / 1_000_000_000 == tp / 1_000_000 / 1000;
  }

  lemma BrokenDownInRange(tp: nat)
    ensures var b := BrokenDown(tp);
      && Valid(b.date) && b.date.day <= 31 && b.hour <= 23 && b.minute <= 59 && b.second <= 59
      && Format(tp) == Text(b.date.year, b.date.month, b.date.day, b.hour, b.minute, b.second, Millis(tp))
  {
    DaysRoundTrip(tp / 1_000_000_000 / 86400);
    SecondsOfDay(SecondOfDay(tp));
  }

  /** The counted-back seconds and the printed milliseconds make up the truncated time. */
  lemma TimeOfParts(tp: nat)
    ensures TimeGm(BrokenDown(tp)) * 1_000_000_000 + Millis(tp) * 1_000_000
         == tp / 1_000_000 * 1_000_000
  {
    TimeGmInverts(tp);
    SplitMillis(tp);
  }

  lemma ParseBroken(b: Broken, ms: nat, text: string)
    requires Valid(b.date) && b.date.year <= 9999 && b.hour <= 23 && b.minute <= 59 && b.second <= 59 && ms < 1000
    requires text == Text(b.date.year, b.date.month, b.date.day, b.hour, b.minute, b.second, ms)
    ensures Parse(text) == Some(TimeGm(b) * 1_000_000_000 + ms * 1_000_000)
  {
    hide Parse;
    hide Text;
    hide TimeGm;
    ParseText(b.date.year, b.date.month, b.date.day, b.hour, b.minute, b.second, ms);
  }

  /** Every time point from the epoch to the end of the year 9999 is read back from its text,
      truncated to milliseconds. */
  lemma TimestampRoundTrip(tp: nat)
    requires DateOf(tp).year <= 9999
    ensures Parse(Format(tp)) == Some(tp / 1_000_000 * 1_000_000)
  {
    hide Parse;
    hide Format;
    hide Text;
    hide TimeGm;
    var text, b, ms := Format(tp), BrokenDown(tp), Millis(tp);
    var t := TimeGm(b) * 1_000_000_000 + ms * 1_000_000;
    assert t == tp / 1_000_000 * 1_000_000 by {
      TimeOfParts(tp);
    }
    assert Parse(text) == Some(t) by {
      BrokenDownInRange(tp);
      ParseBroken(b, ms, text);
    }
  }

  // ---- Time points ----

  /** From the epoch up to the end of the year 9999. */
  type TimePoint = t: int | 0 <= t < 253_402_300_800_000_000_000

  /** They are the times whose year has four digits. */
  lemma TimePointYears(tp: nat)
    ensures tp < 253_402_300_800_000_000_000 <==> DateOf(tp).year <= 9999
  {
    DaysRoundTrip(tp / 1_000_000_000 / 86400);
    DaysUntil10000(tp);
    hide DaysFromDate;
    hide DaysBeforeYear;
    hide Valid;
    DaysBeforeYearIff(DateOf(tp), 10000);
  }

  lemma DaysUntil10000(tp: nat)
    ensures DaysBeforeYear(10000) == 2_932_897
    ensures tp / 1_000_000_000 / 86400 < 2_932_897 <==> tp < 253_402_300_800_000_000_000
  {
    YearFormula(10000);
    hide DaysBeforeYear;
    WholeDays(tp / 1_000_000_000);
  }

  lemma WholeDays(seconds: nat)
    ensures seconds / 86400 < 2_932_897 <==> seconds < 253_402_300_800
  {
  }

  /** Whole milliseconds. */
  function Truncated(tp: TimePoint): (t: TimePoint)
    ensures t <= tp && t % 1_000_000 == 0
  {
    tp / 1_000_000 * 1_000_000
  }

  lemma TimePointRoundTrip(tp: TimePoint)
    ensures Parse(Format(tp)) == Some(Truncated(tp))
  {
    TimePointYears(tp);
    TimestampRoundTrip(tp);
  }

  /** The text says nothing about what is cut off. */
  lemma TruncatedText(tp: TimePoint)
    ensures Format(Truncated(tp)) == Format(tp)
  {
    var ms := tp / 1_000_000;
    assert Truncated(tp) / 1_000_000 == ms;
    assert tp / 1_000_000_000 == ms / 1000 && Truncated(tp) / 1_000_000_000 == ms / 1000;
  }

  /** Text that the column of a stored time can hold. */
  predicate IsTime(s: string) { Parse(s).Some? && 0 <= Parse(s).value < 253_402_300_800_000_000_000 }

  /** Reading a time from its column. */
  function FromText(s: string): TimePoint
    requires IsTime(s)
  {
    Parse(s).value
  }

  /** Two times have the same text exactly if they fall into the same millisecond. */
  lemma SameTextIff(a: TimePoint, b: TimePoint)
    ensures Format(a) == Format(b) <==> Truncated(a) == Truncated(b)
  {
    TimePointRoundTrip(a);
    TimePointRoundTrip(b);
    TruncatedText(a);
    TruncatedText(b);
  }

  // ---- What the text looks like ----

  lemma StampAt(y: string, m: string, d: string, h: string, mi: string, sec: string, ms: string, t: string)
    requires |y| == 4 && |m| == |d| == |h| == |mi| == |sec| == 2 && |ms| == 3
    requires t == y + ['-'] + (m + ['-'] + (d + ['T'] + (h + [':'] + (mi + [':'] + (sec + ("." + ms + "Z"))))))
    ensures |t| == 24 && [t[4], t[7], t[10], t[13], t[16], t[19], t[23]] == "--T::.Z"
    ensures t[..4] == y && t[5..7] == m && t[8..10] == d && t[11..13] == h && t[14..16] == mi && t[17..19] == sec
    ensures t[20..23] == ms
  {
  }

  lemma Hours(day: nat, x: nat)
    requires x < 86400
    ensures (day * 86400 + x) / 3600 % 24 == x / 3600
  {
    assert (day * 86400 + x) / 3600 == day * 24 + x / 3600;
  }

  lemma Minutes(day: nat, x: nat)
    requires x < 86400
    ensures (day * 86400 + x) / 60 % 60 == x % 3600 / 60
  {
    var h, r := x / 3600, x % 3600;
    assert (day * 86400 + x) / 60 == (day * 24 + h) * 60 + r / 60;
  }

  lemma Seconds(day: nat, x: nat)
    ensures (day * 86400 + x) % 60 == x % 60
  {
  }

  lemma HoursAndMinutes(seconds: nat)
    ensures seconds % 86400 / 3600 == seconds / 3600 % 24
    ensures seconds % 86400 % 3600 / 60 == seconds / 60 % 60
    ensures seconds % 86400 % 60 == seconds % 60
  {
    var day, x := seconds / 86400, seconds % 86400;
    Hours(day, x);
    Minutes(day, x);
    Seconds(day, x);
  }

  /** The text of a time point: 24 characters, with the date of its day and its hour, minute, second
      and millisecond in decimal. */
  lemma FormatShape(tp: TimePoint)
    ensures var t, d := Format(tp), DateFromDays(tp / 1_000_000_000 / 86400);
      && |t| == 24 && [t[4], t[7], t[10], t[13], t[16], t[19], t[23]] == "--T::.Z"
      && d.year >= 0 && d.month >= 0 && d.day >= 0
      && t[..4] == Padded(d.year, 4) && t[5..7] == Padded(d.month, 2) && t[8..10] == Padded(d.day, 2)
      && t[11..13] == Padded(tp / 1_000_000_000 / 3600 % 24, 2)
      && t[14..16] == Padded(tp / 1_000_000_000 / 60 % 60, 2)
      && t[17..19] == Padded(tp / 1_000_000_000 % 60, 2)
      && t[20..23] == Padded(tp / 1_000_000 % 1000, 3)
  {
    hide Padded;
    hide DateFromDays;
    hide Parse;
    TimePointYears(tp);
    BrokenDownInRange(tp);
    HoursAndMinutes(tp / 1_000_000_000);
    var b := BrokenDown(tp);
    Powers();
    assert Pow10(3) == 1000;
    PaddedWidth(b.date.year, 4);
    PaddedWidth(b.date.month, 2);
    PaddedWidth(b.date.day, 2);
    PaddedWidth(b.hour, 2);
    PaddedWidth(b.minute, 2);
    PaddedWidth(b.second, 2);
    PaddedWidth(Millis(tp), 3);
    StampAt(Padded(b.date.year, 4), Padded(b.date.month, 2), Padded(b.date.day, 2), Padded(b.hour, 2),
            Padded(b.minute, 2), Padded(b.second, 2), Padded(Millis(tp), 3), Format(tp));
  }
}
