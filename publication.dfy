/**
 * Publications as the filter and the search page see them, and the pieces of
 * JavaScript's number and date behaviour they rely on: `String(x)` of a
 * number, `parseInt`, `split('-')`, and the local-time `Date` constructor
 * `new Date(y, m, d)`, which counts months and days past their range into
 * the next ones and reads a year from 0 to 99 as 1900 to 1999. A
 * publication's date is given already parsed, as a calendar date.
 */
module Publications {
  import opened Wrappers
  import opened Text

  /** `número`: missing, `null`, a string, or an integer. */
  datatype Numero = NoNumero | NullNumero | NumText(text: string) | NumInt(n: int)

  /** The stored `date` string: empty or missing, not a date `Date` can parse, or a calendar date. */
  datatype PubDate = NoDate | InvalidDate | ValidDate(year: int, month: int, day: int)

  datatype Publication = Publication(id: string, revista: Option<string>, numero: Numero, date: PubDate)

  // ---------------------------------------------------------------------------
  // Numbers as strings

  /** `String(n)` for an integer. */
  function IntToString(n: int): (s: string)
    ensures |s| >= 1
  {
    if n < 0 then "-" + NatToDecimal(-n) else NatToDecimal(n)
  }

  /** `String(pub.número)`. */
  function NumeroString(n: Numero): string {
    match n
    case NoNumero => "undefined"
    case NullNumero => "null"
    case NumText(t) => t
    case NumInt(i) => IntToString(i)
  }

  /** The longest prefix made of decimal digits. */
  function DigitPrefix(s: string): (p: string)
    ensures p <= s && AllDigits(p)
    ensures |p| < |s| ==> !IsDigit(s[|p|])
  {
    if s != [] && IsDigit(s[0]) then [s[0]] + DigitPrefix(s[1..]) else []
  }

  function HexPrefix(s: string): (p: string)
    ensures p <= s && forall i :: 0 <= i < |p| ==> IsHexDigit(p[i])
  {
    if s != [] && IsHexDigit(s[0]) then [s[0]] + HexPrefix(s[1..]) else []
  }

  function HexValue(s: string): nat
    requires forall i :: 0 <= i < |s| ==> IsHexDigit(s[i])
  {
    if s == [] then 0 else HexValue(s[..|s| - 1]) * 16 + HexDigitValue(s[|s| - 1])
  }

  /** The magnitude part of `parseInt` with no radix: `0x` introduces hexadecimal, otherwise decimal digits. */
  function ParseMagnitude(s: string): Option<nat> {
    if |s| >= 2 && s[0] == '0' && (s[1] == 'x' || s[1] == 'X') then
      var h := HexPrefix(s[2..]);
      if h == [] then None else Some(HexValue(h))
    else
      var d := DigitPrefix(s);
      if d == [] then None else Some(DecimalValue(d))
  }

  /**
   * `parseInt(s)`: leading white space skipped, an optional sign, then the
   * longest numeral prefix; `None` stands for `NaN`.
   */
  function ParseInt(s: string): Option<int> {
    ParseSigned(TrimStart(s))
  }

  /** An optional sign and the magnitude after it, once the leading white space is gone. */
  function ParseSigned(t: string): Option<int> {
    if t != [] && t[0] == '-' then
      match ParseMagnitude(t[1..])
      case None => None
      case Some(v) => var negative: int := 0 - v; Some(negative)
    else if t != [] && t[0] == '+' then
      match ParseMagnitude(t[1..])
      case None => None
      case Some(v) => Some(v)
    else
      match ParseMagnitude(t)
      case None => None
      case Some(v) => Some(v)
  }

  /** `parseInt` reads back every numeral `String` writes for an integer. */
  lemma ParseIntOfIntToString(n: int)
    ensures ParseInt(IntToString(n)) == Some(n)
  {
    var s := IntToString(n);
    if n < 0 {
      var d := NatToDecimal(-n);
      assert s[1..] == d;
      DecimalRoundTrip(-n);
      ParseIntOfNegative(s, -n);
    } else {
      DecimalRoundTrip(n);
      ParseIntOfDigits(s);
    }
  }

  /** A minus sign followed by digits reads as the negated value of the digits. */
  lemma ParseIntOfNegative(t: string, v: nat)
    requires |t| >= 2 && t[0] == '-' && AllDigits(t[1..]) && DecimalValue(t[1..]) == v
    ensures ParseInt(t) == Some(-(v as int))
  {
    assert TrimStart(t) == t by { assert !IsJsWhitespace(t[0]); }
    assert ParseSigned(t) == Some(-(v as int)) by {
      MagnitudeOfDigits(t[1..]);
    }
  }

  /** The magnitude parser reads a non-empty digit string as its value. */
  lemma MagnitudeOfDigits(s: string)
    requires s != [] && AllDigits(s)
    ensures ParseMagnitude(s) == Some(DecimalValue(s))
  {
    assert IsDigit(s[0]);
    DigitPrefixOfDigits(s);
    if |s| >= 2 {
      assert IsDigit(s[1]);
    }
  }

  lemma {:induction false} DigitPrefixOfDigits(s: string)
    requires AllDigits(s)
    ensures DigitPrefix(s) == s
  {
    if s != [] {
      DigitPrefixOfDigits(s[1..]);
    }
  }

  /** `String(m).padStart(2, '0')` of a month number. */
  function MonthString(m: int): string {
    PadStart(IntToString(m), 2, '0')
  }

  /** A month from 1 to 12 is written with two digits, and `parseInt` reads it back. */
  lemma MonthStringParses(m: int)
    requires 1 <= m <= 12
    ensures |MonthString(m)| == 2 && AllDigits(MonthString(m))
    ensures DecimalValue(MonthString(m)) == m
    ensures ParseInt(MonthString(m)) == Some(m)
  {
    MonthStringDigits(m);
    ParseIntOfDigits(MonthString(m));
  }

  lemma MonthStringDigits(m: int)
    requires 1 <= m <= 12
    ensures |MonthString(m)| == 2 && AllDigits(MonthString(m))
    ensures DecimalValue(MonthString(m)) == m
  {
    var dec := NatToDecimal(m);
    DecimalLength(m, 1);
    DecimalLength(m, 2);
    DecimalRoundTrip(m);
    if |dec| == 1 {
      LeadingZerosValue(1, dec);
    }
  }

  /** `parseInt` of a non-empty string of decimal digits is its decimal value. */
  lemma ParseIntOfDigits(s: string)
    requires s != [] && AllDigits(s)
    ensures ParseInt(s) == Some(DecimalValue(s))
  {
    assert IsDigit(s[0]);
    assert TrimStart(s) == s by { assert !IsJsWhitespace(s[0]); }
    assert ParseSigned(s) == Some(DecimalValue(s) as int) by {
      assert s[0] != '-' && s[0] != '+';
      MagnitudeOfDigits(s);
    }
  }

  /** `s.split(sep)`. */
  function Split(s: string, sep: char): (parts: seq<string>)
    ensures |parts| >= 1
    ensures forall i :: 0 <= i < |parts| ==> sep !in parts[i]
  {
    if s == [] then [""]
    else
      var rest := Split(s[1..], sep);
      if s[0] == sep then [""] + rest else [[s[0]] + rest[0]] + rest[1..]
  }

  /** Splitting and joining back with the separator gives the string back. */
  lemma {:induction false} SplitJoin(s: string, sep: char)
    ensures Join(Split(s, sep), [sep]) == s
  {
    if s != [] {
      SplitJoin(s[1..], sep);
      var rest := Split(s[1..], sep);
      if s[0] != sep {
        JoinHead(rest, [sep], s[0]);
      } else {
        assert Split(s, sep) == [""] + rest;
        JoinCons("", rest, [sep]);
      }
    }
  }

  /** Joining parts free of the separator and splitting again gives the parts back. */
  lemma {:induction false} JoinSplit(parts: seq<string>, sep: char)
    requires |parts| >= 1
    requires forall i :: 0 <= i < |parts| ==> sep !in parts[i]
    ensures Split(Join(parts, [sep]), sep) == parts
  {
    if |parts| == 1 {
      SplitWithoutSeparator(parts[0], sep);
    } else {
      JoinSplit(parts[1..], sep);
      SplitAtSeparator(parts[0], sep, Join(parts[1..], [sep]));
      assert parts == [parts[0]] + parts[1..];
    }
  }

  lemma {:induction false} SplitWithoutSeparator(p: string, sep: char)
    requires sep !in p
    ensures Split(p, sep) == [p]
  {
    if p != [] {
      SplitWithoutSeparator(p[1..], sep);
      assert [p[0]] + p[1..] == p;
    }
  }

  lemma {:induction false} SplitAtSeparator(p: string, sep: char, rest: string)
    requires sep !in p
    ensures Split(p + [sep] + rest, sep) == [p] + Split(rest, sep)
  {
    var s := p + [sep] + rest;
    if p == [] {
      assert s[1..] == rest;
    } else {
      SplitAtSeparator(p[1..], sep, rest);
      assert s[1..] == p[1..] + [sep] + rest;
      assert [p[0]] + p[1..] == p;
    }
  }

  lemma JoinHead(parts: seq<string>, sep: string, c: char)
    requires |parts| >= 1
    ensures Join([[c] + parts[0]] + parts[1..], sep) == [c] + Join(parts, sep)
  {
    if |parts| > 1 {
      JoinCons([c] + parts[0], parts[1..], sep);
      JoinCons(parts[0], parts[1..], sep);
      assert parts == [parts[0]] + parts[1..];
    }
  }

  lemma JoinCons(p: string, parts: seq<string>, sep: string)
    requires |parts| >= 1
    ensures Join([p] + parts, sep) == p + sep + Join(parts, sep)
  {
    assert ([p] + parts)[1..] == parts;
  }

  // ---------------------------------------------------------------------------
  // Calendar

  predicate IsLeapYear(y: int) {
    y % 4 == 0 && (y % 100 != 0 || y % 400 == 0)
  }

  /** Days of month `m` (1 to 12) of year `y`, proleptic Gregorian. */
  function DaysInMonth(y: int, m: int): (n: int)
    requires 1 <= m <= 12
    ensures 28 <= n <= 31
  {
    if m == 2 then (if IsLeapYear(y) then 29 else 28)
    else if m == 4 || m == 6 || m == 9 || m == 11 then 30
    else 31
  }

  predicate IsCalendarDate(y: int, m: int, d: int) {
    1 <= m <= 12 && 1 <= d <= DaysInMonth(y, m)
  }

  /** Valid dates are calendar dates. */
  predicate WellFormed(p: Publication) {
    p.date.ValidDate? ==> IsCalendarDate(p.date.year, p.date.month, p.date.day)
  }

  /** The year the `Date` constructor uses for a year argument: 0 to 99 mean 1900 to 1999. */
  function ConstructorYear(y: int): int {
    if 0 <= y <= 99 then 1900 + y else y
  }

  /** Months since year 0: the month `new Date(y, m0, 1)` lands in, for any (overflowing) zero-based `m0`. */
  function MonthIndex(y: int, m0: int): int {
    ConstructorYear(y) * 12 + m0
  }

  /** Days of the month with index `k` (months counted from January of year 0). */
  function DaysInMonthIndex(k: int): (n: int)
    ensures 28 <= n <= 31
  {
    DaysInMonth(k / 12, k % 12 + 1)
  }

  /**
   * The (month index, day) that `new Date(year, month0, d)` lands on, for the
   * month index `k` its year and month give and a day from 1 to 31: a day
   * past the month's end runs into the next month.
   */
  function DayAt(k: int, d: int): (r: (int, int))
    requires 1 <= d <= 31
    ensures r.0 == k || r.0 == k + 1
    ensures 1 <= r.1 <= DaysInMonthIndex(r.0)
  {
    if d <= DaysInMonthIndex(k) then (k, d) else (k + 1, d - DaysInMonthIndex(k))
  }

  /** The month index of a year and a month from 1 to 12 gives them back. */
  lemma MonthIndexParts(y: int, m: int)
    requires 1 <= m <= 12
    ensures (y * 12 + m - 1) / 12 == y && (y * 12 + m - 1) % 12 == m - 1
    ensures DaysInMonthIndex(y * 12 + m - 1) == DaysInMonth(y, m)
  {
  }

  /** A calendar date lands on itself, unless its year is one the constructor moves to the 1900s. */
  lemma DayAtKeepsDate(y: int, m: int, d: int)
    requires IsCalendarDate(y, m, d) && !(0 <= y <= 99)
    ensures DayAt(MonthIndex(y, m - 1), d) == (y * 12 + m - 1, d)
  {
    MonthIndexParts(y, m);
  }

  /** Year 0 is a leap year but 1900 is not: February 29 of year 0 lands on March 1, 1900. */
  lemma LeapDayOfYearZeroMoves()
    ensures IsCalendarDate(0, 2, 29)
    ensures DayAt(MonthIndex(0, 1), 29) == (1900 * 12 + 2, 1)
  {
    MonthIndexParts(1900, 2);
  }
}
