/**
 * The complete calendar-date extended format of ISO 8601 (section 4.1.2.2),
 * the `full-date` of section 5.6 of RFC 3339: exactly `YYYY-MM-DD`, ASCII
 * digits, zero-padded.  `Format` is what `date.isoformat()` prints, and
 * what `strftime("%Y-%m-%d")` prints for years 1000 to 9999; `Parse` is a
 * strict version of `strptime(s, "%Y-%m-%d")`.
 */
module IsoDate {
  import opened Wrappers
  import opened CivilDate

  predicate IsDigit(c: char) {
    '0' <= c <= '9'
  }

  function DigitValue(c: char): (v: int)
    requires IsDigit(c)
    ensures 0 <= v <= 9
  {
    c as int - '0' as int
  }

  function DigitChar(v: int): (c: char)
    requires 0 <= v <= 9
    ensures IsDigit(c) && DigitValue(c) == v
  {
    (v + '0' as int) as char
  }

  function Pad2(n: int): (s: string)
    requires 0 <= n <= 99
  {
    [DigitChar(n / 10), DigitChar(n % 10)]
  }

  function Pad4(n: int): (s: string)
    requires 0 <= n <= 9999
  {
    Pad2(n / 100) + Pad2(n % 100)
  }

  function Format(d: Date): (s: string)
    requires Valid(d)
    ensures |s| == 10 && s[4] == '-' && s[7] == '-'
  {
    Pad4(d.year) + "-" + Pad2(d.month) + "-" + Pad2(d.day)
  }

  /** Ten characters, dashes at positions 4 and 7, ASCII digits elsewhere. */
  predicate WellShaped(s: string) {
    && |s| == 10
    && s[4] == '-' && s[7] == '-'
    && IsDigit(s[0]) && IsDigit(s[1]) && IsDigit(s[2]) && IsDigit(s[3])
    && IsDigit(s[5]) && IsDigit(s[6])
    && IsDigit(s[8]) && IsDigit(s[9])
  }

  function Number2(a: char, b: char): int
    requires IsDigit(a) && IsDigit(b)
  {
    10 * DigitValue(a) + DigitValue(b)
  }

  function Number4(a: char, b: char, c: char, d: char): int
    requires IsDigit(a) && IsDigit(b) && IsDigit(c) && IsDigit(d)
  {
    1000 * DigitValue(a) + 100 * DigitValue(b) + 10 * DigitValue(c) + DigitValue(d)
  }

  /**
   * The date written by `s`, or None when `s` is not ten characters of
   * `YYYY-MM-DD` or names no calendar date (year 0000, month 13, February 30).
   */
  function Parse(s: string): (r: Option<Date>)
    ensures r.Some? ==> Valid(r.value)
  {
    if !WellShaped(s) then None
    else
      var d := Date(Number4(s[0], s[1], s[2], s[3]), Number2(s[5], s[6]), Number2(s[8], s[9]));
      if Valid(d) then Some(d) else None
  }

  lemma Pad2Value(n: int)
    requires 0 <= n <= 99
    ensures Number2(Pad2(n)[0], Pad2(n)[1]) == n
  {
  }

  lemma Pad4Value(n: int)
    requires 0 <= n <= 9999
    ensures Number4(Pad4(n)[0], Pad4(n)[1], Pad4(n)[2], Pad4(n)[3]) == n
  {
    Pad2Value(n / 100);
    Pad2Value(n % 100);
  }

  /** Formatting a date and parsing it back gives the date. */
  lemma ParseFormat(d: Date)
    requires Valid(d)
    ensures Parse(Format(d)) == Some(d)
  {
    var s := Format(d);
    Pad4Value(d.year);
    Pad2Value(d.month);
    Pad2Value(d.day);
    assert s[0..4] == Pad4(d.year) && s[5..7] == Pad2(d.month) && s[8..10] == Pad2(d.day);
  }

  lemma Digits2(a: char, b: char)
    requires IsDigit(a) && IsDigit(b)
    ensures Pad2(Number2(a, b)) == [a, b]
  {
    var n := Number2(a, b);
    assert n / 10 == DigitValue(a) && n % 10 == DigitValue(b);
  }

  lemma Digits4(a: char, b: char, c: char, d: char)
    requires IsDigit(a) && IsDigit(b) && IsDigit(c) && IsDigit(d)
    ensures Pad4(Number4(a, b, c, d)) == [a, b, c, d]
  {
    var n := Number4(a, b, c, d);
    assert n == 100 * Number2(a, b) + Number2(c, d);
    assert n / 100 == Number2(a, b) && n % 100 == Number2(c, d);
    Digits2(a, b);
    Digits2(c, d);
  }

  /** A string the parser accepts is exactly how its date is formatted. */
  lemma FormatParse(s: string)
    requires Parse(s).Some?
    ensures Format(Parse(s).value) == s
  {
    Digits4(s[0], s[1], s[2], s[3]);
    Digits2(s[5], s[6]);
    Digits2(s[8], s[9]);
    assert s == s[0..4] + "-" + s[5..7] + "-" + s[8..10];
  }

  /** The parser accepts exactly the formatted valid dates. */
  lemma ParseIffFormatted(s: string, d: Date)
    ensures Parse(s) == Some(d) <==> Valid(d) && Format(d) == s
  {
    if Parse(s) == Some(d) {
      FormatParse(s);
    }
    if Valid(d) && Format(d) == s {
      ParseFormat(d);
    }
  }

  /** Formatting is injective on valid dates. */
  lemma FormatInjective(a: Date, b: Date)
    requires Valid(a) && Valid(b) && Format(a) == Format(b)
    ensures a == b
  {
    ParseFormat(a);
    ParseFormat(b);
  }

  /** Strings that are well shaped but name no date are refused. */
  lemma ParseRejectsImpossibleDates()
    ensures Parse("2024-13-01") == None
    ensures Parse("2024-00-10") == None
    ensures Parse("2024-02-30") == None
    ensures Parse("2023-02-29") == None
    ensures Parse("0000-01-01") == None
    ensures Parse("2024-3-15") == None
    ensures Parse("2024/03/15") == None
    ensures Parse("") == None
    ensures Parse("2024-02-29") == Some(Date(2024, 2, 29))
  {
  }
}
