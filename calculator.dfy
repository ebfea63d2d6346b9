/**
 * The request validation of the unique-visitor calculator
 * (`azure_function_unique_visitor_calculator/calculator.py`): the two field
 * getters, the ordered chain of checks on the requested date range, and the
 * list of every day in the range, latest first.
 *
 * "Now" is a parameter: a UTC day number and the microseconds elapsed in that
 * day.  A requested date stands for its midnight, UTC.  The source compares a
 * naive `datetime` with an aware one at line 84, which Python refuses; this
 * model checks what the comments at lines 83 and 96 describe, and
 * `DateListAsWritten` records what the code as written does.
 */
module Calculator {
  import opened Wrappers
  import opened CivilDate
  import opened IsoDate

  /** Why a request is answered with status 400. */
  datatype RangeError =
    | MissingFromDate
    | MissingToDate
    | EmptyDate
    | InvalidFormat
    | Inverted
    | InFuture
    | SpanTooLong
    | StartTooOld
    | DateOverflow      // `start_date += timedelta(days=1)` past 9999-12-31
    | OffsetMismatch    // naive and aware datetimes compared (code as written)

  /** The body of the 400 response: `str(e)` of the exception raised. */
  function Message(e: RangeError): string {
    match e
    case MissingFromDate => "Request body should contain 'from_date'"
    case MissingToDate => "Request body should contain 'to_date'"
    case EmptyDate => "Error: from_date and to_date cannot be empty"
    case InvalidFormat =>
      "Error: from_date or to_date has an invalid date format. Please enter the date in the format of YYYY-MM-DD."
    case Inverted => "Error: to_date cannot be less than from_date"
    case InFuture => "Error: to_date cannot be later than today."
    case SpanTooLong => "Error: The difference between the from_date and to_date should not be more than 90 days."
    case StartTooOld => "Error: from_date should not more than 90 days old."
    case DateOverflow => "date value out of range"
    case OffsetMismatch => "can't compare offset-naive and offset-aware datetimes"
  }

  const MicrosPerDay := 86_400_000_000

  /** The longest span, and the greatest age of the start, in days. */
  const MaxSpanDays := 90

  /** The current instant: a UTC day number and the microseconds elapsed in it. */
  datatype Instant = Instant(day: int, micros: int)

  predicate ValidInstant(now: Instant) {
    1 <= now.day <= MaxOrdinal && 0 <= now.micros < MicrosPerDay
  }

  /** Microseconds from 0001-01-01T00:00Z to `now`. */
  function Timeline(now: Instant): int {
    (now.day - 1) * MicrosPerDay + now.micros
  }

  /** Microseconds from 0001-01-01T00:00Z to midnight, UTC, of `d`. */
  function Midnight(d: Date): int
    requires Valid(d)
  {
    (Ordinal(d) - 1) * MicrosPerDay
  }

  /** The request body: a JSON object whose values are strings. */
  type RequestBody = map<string, string>

  /** `_get_from_date`: the "from_date" value, refused when absent or empty. */
  function GetFromDate(body: RequestBody): (r: Result<string, RangeError>)
    ensures r.Ok? <==> "from_date" in body && body["from_date"] != ""
    ensures r.Ok? ==> r.value == body["from_date"]
    ensures r.Err? ==> r.error == MissingFromDate
  {
    if "from_date" in body && body["from_date"] != "" then Ok(body["from_date"])
    else Err(MissingFromDate)
  }

  /** `_get_to_date`: the "to_date" value, refused when absent or empty. */
  function GetToDate(body: RequestBody): (r: Result<string, RangeError>)
    ensures r.Ok? <==> "to_date" in body && body["to_date"] != ""
    ensures r.Ok? ==> r.value == body["to_date"]
    ensures r.Err? ==> r.error == MissingToDate
  {
    if "to_date" in body && body["to_date"] != "" then Ok(body["to_date"])
    else Err(MissingToDate)
  }

  /**
   * The checks of `_get_date_list` (lines 64 to 98) in their order; the first
   * that fails decides the error.  On success, the two dates.
   */
  function CheckRange(fromDate: string, toDate: string, now: Instant): Result<(Date, Date), RangeError> {
    if fromDate == "" || toDate == "" then Err(EmptyDate)
    else if Parse(fromDate).None? || Parse(toDate).None? then Err(InvalidFormat)
    else
      var s := Parse(fromDate).value;
      var e := Parse(toDate).value;
      if Ordinal(e) < Ordinal(s) then Err(Inverted)
      else if Midnight(e) > Timeline(now) then Err(InFuture)
      else if Ordinal(e) - Ordinal(s) > MaxSpanDays then Err(SpanTooLong)
      else if Timeline(now) - Midnight(s) > MaxSpanDays * MicrosPerDay then Err(StartTooOld)
      else Ok((s, e))
  }

  /** The `YYYY-MM-DD` text of the day with number `n`. */
  function DayName(n: int): string
    requires 1 <= n <= MaxOrdinal
  {
    FromOrdinalCorrect(n);
    Format(FromOrdinal(n))
  }

  /** The `count` days that end with day number `last`, latest first, as `YYYY-MM-DD`. */
  function DaysDown(last: int, count: nat): seq<string>
    requires 1 <= last - count + 1 && last <= MaxOrdinal
  {
    seq(count, i requires 0 <= i < count => DayName(last - i))
  }

  /** The days from `e` down to `s`, as `YYYY-MM-DD`. */
  function Descending(s: Date, e: Date): seq<string>
    requires Valid(s) && Valid(e) && Ordinal(s) <= Ordinal(e)
  {
    DaysDown(Ordinal(e), Ordinal(e) - Ordinal(s) + 1)
  }

  /**
   * What `_get_date_list` returns: the first failing check's error, the
   * overflow of stepping past 9999-12-31, or every day of the range, latest first.
   */
  function DateList(fromDate: string, toDate: string, now: Instant): Result<seq<string>, RangeError> {
    match CheckRange(fromDate, toDate, now)
    case Err(e) => Err(e)
    case Ok((s, e)) =>
      if e == MaxDate then Err(DateOverflow) else Ok(Descending(s, e))
  }

  lemma DayNameParses(n: int)
    requires 1 <= n <= MaxOrdinal
    ensures Parse(DayName(n)).Some? && Ordinal(Parse(DayName(n)).value) == n
  {
    FromOrdinalCorrect(n);
    ParseFormat(FromOrdinal(n));
  }

  lemma DayNameOfDate(d: Date)
    requires Valid(d)
    ensures 1 <= Ordinal(d) <= MaxOrdinal && DayName(Ordinal(d)) == Format(d)
  {
    FromOrdinalOfOrdinal(d);
  }

  /** Entry i of the list ending with day `last` names day `day`, i days before it. */
  lemma DaysDownAt(last: int, count: nat, i: int, day: int)
    requires 1 <= last - count + 1 && last <= MaxOrdinal && 0 <= i < count && day == last - i
    ensures |DaysDown(last, count)| == count && DaysDown(last, count)[i] == DayName(day)
  {
  }

  /** A slice of a descending list is the descending list of the days it covers. */
  lemma DaysDownSlice(last: int, count: nat, lo: int, hi: int, sliceLast: int, sliceCount: nat)
    requires 1 <= last - count + 1 && last <= MaxOrdinal && 0 <= lo <= hi <= count
    requires sliceLast == last - lo && sliceCount == hi - lo
    ensures DaysDown(last, count)[lo..hi] == DaysDown(sliceLast, sliceCount)
  {
    var slice := DaysDown(last, count)[lo..hi];
    forall k | 0 <= k < sliceCount
      ensures slice[k] == DaysDown(sliceLast, sliceCount)[k]
    {
      DaysDownAt(last, count, lo + k, sliceLast - k);
      DaysDownAt(sliceLast, sliceCount, k, sliceLast - k);
    }
  }

  /** Entry i of the descending list is the text of day `day`, i days before `e`. */
  lemma DescendingEntry(s: Date, e: Date, i: int, day: int)
    requires Valid(s) && Valid(e) && Ordinal(s) <= Ordinal(e) && 0 <= i <= Ordinal(e) - Ordinal(s)
    requires day == Ordinal(e) - i
    ensures Descending(s, e)[i] == DayName(day)
  {
    DaysDownAt(Ordinal(e), Ordinal(e) - Ordinal(s) + 1, i, day);
  }

  /** Entry i of the descending list reads back as the day i days before `e`. */
  lemma DescendingAt(s: Date, e: Date, i: int)
    requires Valid(s) && Valid(e) && Ordinal(s) <= Ordinal(e) && 0 <= i <= Ordinal(e) - Ordinal(s)
    ensures Parse(Descending(s, e)[i]).Some? && Ordinal(Parse(Descending(s, e)[i]).value) == Ordinal(e) - i
  {
    var day := Ordinal(e) - i;
    DescendingEntry(s, e, i, day);
    DayNameParses(day);
  }

  /** The descending list starts with `e` and ends with `s`. */
  lemma DescendingEnds(s: Date, e: Date)
    requires Valid(s) && Valid(e) && Ordinal(s) <= Ordinal(e)
    ensures var days := Descending(s, e);
            && |days| == Ordinal(e) - Ordinal(s) + 1
            && days[0] == Format(e)
            && days[|days| - 1] == Format(s)
  {
    DescendingEntry(s, e, 0, Ordinal(e));
    DescendingEntry(s, e, Ordinal(e) - Ordinal(s), Ordinal(s));
    DayNameOfDate(e);
    DayNameOfDate(s);
  }

  /** Every entry of the descending list names the day its position says. */
  lemma DescendingParses(s: Date, e: Date)
    requires Valid(s) && Valid(e) && Ordinal(s) <= Ordinal(e)
    ensures var days := Descending(s, e);
            forall i :: 0 <= i < |days| ==> Parse(days[i]).Some? && Ordinal(Parse(days[i]).value) == Ordinal(e) - i
  {
    var days := Descending(s, e);
    forall i | 0 <= i < |days|
      ensures Parse(days[i]).Some? && Ordinal(Parse(days[i]).value) == Ordinal(e) - i
    {
      DescendingAt(s, e, i);
    }
  }

  /**
   * The descending list from `e` down to `s` has one entry per day, starts
   * with `e`, ends with `s`, and steps back one day per entry.
   */
  lemma DescendingFacts(s: Date, e: Date)
    requires Valid(s) && Valid(e) && Ordinal(s) <= Ordinal(e)
    ensures var days := Descending(s, e);
            && |days| == Ordinal(e) - Ordinal(s) + 1
            && days[0] == Format(e)
            && days[|days| - 1] == Format(s)
            && (forall i :: 0 <= i < |days| ==>
                  Parse(days[i]).Some? && Ordinal(Parse(days[i]).value) == Ordinal(e) - i)
  {
    DescendingEnds(s, e);
    DescendingParses(s, e);
  }

  /** The `count` days from day number `first` on, earliest first, as `YYYY-MM-DD`. */
  function DaysUp(first: int, count: nat): seq<string>
    requires 1 <= first && first + count - 1 <= MaxOrdinal
  {
    seq(count, k requires 0 <= k < count => DayName(first + k))
  }

  /** One more day at the end of an ascending list is the next day's text. */
  lemma DaysUpAppend(first: int, count: nat, next: int)
    requires 1 <= first && next == first + count && next <= MaxOrdinal
    ensures DaysUp(first, count + 1) == DaysUp(first, count) + [DayName(next)]
  {
    var longer := DaysUp(first, count + 1);
    var shorter := DaysUp(first, count) + [DayName(next)];
    forall k | 0 <= k < count + 1 ensures longer[k] == shorter[k] {
      if k < count {
        assert shorter[k] == DaysUp(first, count)[k];
      }
    }
  }

  /** The ascending list of days `first` to `last`, reversed, is the descending list down to `first`. */
  lemma ReversedAscending(first: int, last: int, count: nat, days: seq<string>)
    requires 1 <= first && last <= MaxOrdinal && last == first + count - 1
    requires |days| == count
    requires forall k :: 0 <= k < count ==> days[k] == DaysUp(first, count)[count - 1 - k]
    ensures days == DaysDown(last, count)
  {
    forall k | 0 <= k < count ensures days[k] == DaysDown(last, count)[k] {
      var j := count - 1 - k;
      assert days[k] == DaysUp(first, count)[j] == DayName(first + j);
      assert first + j == last - k;
      DaysDownAt(last, count, k, last - k);
    }
  }

  /** `_get_date_list` (lines 58 to 109). */
  method GetDateList(fromDate: string, toDate: string, now: Instant) returns (r: Result<seq<string>, RangeError>)
    ensures r == DateList(fromDate, toDate, now)
  {
    if fromDate == "" || toDate == "" {
      return Err(EmptyDate);
    }
    var parsedStart := Parse(fromDate);
    var parsedEnd := Parse(toDate);
    if parsedStart.None? || parsedEnd.None? {
      return Err(InvalidFormat);
    }
    var startDate := parsedStart.value;
    var endDate := parsedEnd.value;
    if Ordinal(endDate) < Ordinal(startDate) {
      return Err(Inverted);
    }
    if Midnight(endDate) > Timeline(now) {
      return Err(InFuture);
    }
    var daysDiff := Ordinal(endDate) - Ordinal(startDate);
    if daysDiff > MaxSpanDays {
      return Err(SpanTooLong);
    }
    if Timeline(now) - Midnight(startDate) > MaxSpanDays * MicrosPerDay {
      return Err(StartTooOld);
    }
    r := ListDays(startDate, endDate);
  }

  /**
   * The loop of lines 100 to 105: every day from `startDate` to `endDate`
   * appended in turn, then the list reversed in place.  Stepping past
   * 9999-12-31 overflows.
   */
  method ListDays(startDate: Date, endDate: Date) returns (r: Result<seq<string>, RangeError>)
    requires Valid(startDate) && Valid(endDate) && Ordinal(startDate) <= Ordinal(endDate)
    ensures r == if endDate == MaxDate then Err(DateOverflow) else Ok(Descending(startDate, endDate))
  {
    MaxDateIsLast(endDate);
    var current := startDate;
    var dateList: seq<string> := [];
    while Ordinal(current) <= Ordinal(endDate)
      invariant Valid(current)
      invariant Ordinal(startDate) <= Ordinal(current) <= Ordinal(endDate) + 1
      invariant |dateList| == Ordinal(current) - Ordinal(startDate)
      invariant dateList == DaysUp(Ordinal(startDate), |dateList|)
      decreases Ordinal(endDate) - Ordinal(current)
    {
      DayNameOfDate(current);
      DaysUpAppend(Ordinal(startDate), |dateList|, Ordinal(current));
      dateList := dateList + [Format(current)];
      if current == MaxDate {
        return Err(DateOverflow);
      }
      current := NextDay(current);
    }
    if endDate == MaxDate {
      MaxDateIsLast(current);
      assert false;
    }
    dateList := Reverse(dateList);
    ReversedAscending(Ordinal(startDate), Ordinal(endDate), Ordinal(endDate) - Ordinal(startDate) + 1, dateList);
    r := Ok(dateList);
  }

  /** `list.reverse()`: swaps the two ends inwards. */
  method Reverse(list: seq<string>) returns (reversed: seq<string>)
    ensures |reversed| == |list|
    ensures forall k :: 0 <= k < |list| ==> reversed[k] == list[|list| - 1 - k]
  {
    var n := |list|;
    reversed := list;
    for i := 0 to n / 2
      invariant |reversed| == n
      invariant forall k :: 0 <= k < i ==> reversed[k] == list[n - 1 - k] && reversed[n - 1 - k] == list[k]
      invariant forall k :: i <= k < n - i ==> reversed[k] == list[k]
    {
      var tmp := reversed[i];
      reversed := reversed[i := reversed[n - 1 - i]][n - 1 - i := tmp];
    }
    forall k | 0 <= k < n ensures reversed[k] == list[n - 1 - k] {
      if n / 2 <= k < n - n / 2 {
        assert k == n - 1 - k;
      } else if k >= n - n / 2 {
        assert reversed[n - 1 - (n - 1 - k)] == list[n - 1 - k];
      }
    }
  }

  /**
   * What `process` answers for a request body (lines 21 to 27): a missing
   * "from_date" is reported before a missing "to_date", and only then are
   * the dates checked.
   */
  function RequestDateList(body: RequestBody, now: Instant): Result<seq<string>, RangeError> {
    match GetFromDate(body)
    case Err(e) => Err(e)
    case Ok(fromDate) =>
      match GetToDate(body)
      case Err(e) => Err(e)
      case Ok(toDate) => DateList(fromDate, toDate, now)
  }

  /** The validation half of `process` (lines 21 to 27). */
  method ValidateRequest(body: RequestBody, now: Instant) returns (r: Result<seq<string>, RangeError>)
    ensures r == RequestDateList(body, now)
  {
    var fromDate := GetFromDate(body);
    if fromDate.Err? {
      return Err(fromDate.error);
    }
    var toDate := GetToDate(body);
    if toDate.Err? {
      return Err(toDate.error);
    }
    r := GetDateList(fromDate.value, toDate.value, now);
  }

  // ---------------------------------------------------------------------------
  // The two comparisons with "now", read on calendar days
  // ---------------------------------------------------------------------------

  /** A date is later than now exactly when it is a later day than today: today passes. */
  lemma FutureCheckIsDayComparison(e: Date, now: Instant)
    requires Valid(e) && ValidInstant(now)
    ensures Midnight(e) > Timeline(now) <==> Ordinal(e) > now.day
  {
  }

  /**
   * A start is too old when it lies more than 90 days before today, or exactly
   * 90 days before today and now is past midnight.
   */
  lemma AgeCheckBoundary(s: Date, now: Instant)
    requires Valid(s) && ValidInstant(now)
    ensures Timeline(now) - Midnight(s) > MaxSpanDays * MicrosPerDay
            <==> now.day - Ordinal(s) > MaxSpanDays || (now.day - Ordinal(s) == MaxSpanDays && now.micros > 0)
  {
  }

  /** The range the validator accepts, stated on day numbers alone. */
  predicate Accepts(s: Date, e: Date, now: Instant)
    requires Valid(s) && Valid(e)
  {
    && Ordinal(s) <= Ordinal(e) <= now.day
    && Ordinal(e) - Ordinal(s) <= MaxSpanDays
    && (now.day - Ordinal(s) < MaxSpanDays || (now.day - Ordinal(s) == MaxSpanDays && now.micros == 0))
  }

  /**
   * A request succeeds exactly when both strings are `YYYY-MM-DD` calendar
   * dates, the range is in order, ends no later than today, spans at most 90
   * days, starts at most 90 days ago, and does not end on 9999-12-31.
   */
  lemma DateListOkIff(fromDate: string, toDate: string, now: Instant)
    requires ValidInstant(now)
    ensures DateList(fromDate, toDate, now).Ok? <==>
              && Parse(fromDate).Some? && Parse(toDate).Some?
              && Accepts(Parse(fromDate).value, Parse(toDate).value, now)
              && Parse(toDate).value != MaxDate
  {
    if Parse(fromDate).Some? && Parse(toDate).Some? {
      FutureCheckIsDayComparison(Parse(toDate).value, now);
      AgeCheckBoundary(Parse(fromDate).value, now);
    }
  }

  /**
   * The checks short-circuit in their fixed order: each error is reported
   * exactly when its own check fails and every earlier one passed.
   */
  lemma DateListErrors(fromDate: string, toDate: string, now: Instant)
    requires ValidInstant(now)
    ensures DateList(fromDate, toDate, now) == Err(EmptyDate) <==> fromDate == "" || toDate == ""
    ensures DateList(fromDate, toDate, now) == Err(InvalidFormat)
            <==> fromDate != "" && toDate != "" && (Parse(fromDate).None? || Parse(toDate).None?)
    ensures DateList(fromDate, toDate, now) == Err(Inverted)
            <==> Parse(fromDate).Some? && Parse(toDate).Some?
                 && Ordinal(Parse(toDate).value) < Ordinal(Parse(fromDate).value)
    ensures DateList(fromDate, toDate, now) == Err(InFuture)
            <==> Parse(fromDate).Some? && Parse(toDate).Some?
                 && Ordinal(Parse(fromDate).value) <= Ordinal(Parse(toDate).value)
                 && Ordinal(Parse(toDate).value) > now.day
    ensures DateList(fromDate, toDate, now) == Err(SpanTooLong)
            <==> Parse(fromDate).Some? && Parse(toDate).Some?
                 && Ordinal(Parse(fromDate).value) <= Ordinal(Parse(toDate).value) <= now.day
                 && Ordinal(Parse(toDate).value) - Ordinal(Parse(fromDate).value) > MaxSpanDays
    ensures DateList(fromDate, toDate, now) == Err(StartTooOld)
            <==> Parse(fromDate).Some? && Parse(toDate).Some?
                 && Ordinal(Parse(fromDate).value) <= Ordinal(Parse(toDate).value) <= now.day
                 && Ordinal(Parse(toDate).value) - Ordinal(Parse(fromDate).value) <= MaxSpanDays
                 && (now.day - Ordinal(Parse(fromDate).value) > MaxSpanDays
                     || (now.day - Ordinal(Parse(fromDate).value) == MaxSpanDays && now.micros > 0))
    ensures DateList(fromDate, toDate, now) == Err(DateOverflow)
            <==> Parse(fromDate).Some? && Parse(toDate) == Some(MaxDate)
                 && Accepts(Parse(fromDate).value, MaxDate, now)
    ensures DateList(fromDate, toDate, now) != Err(MissingFromDate)
            && DateList(fromDate, toDate, now) != Err(MissingToDate)
            && DateList(fromDate, toDate, now) != Err(OffsetMismatch)
  {
    if Parse(fromDate).Some? && Parse(toDate).Some? {
      FutureCheckIsDayComparison(Parse(toDate).value, now);
      AgeCheckBoundary(Parse(fromDate).value, now);
    }
  }

  /** An accepted request's list is the descending list of its parsed range. */
  lemma DateListOk(fromDate: string, toDate: string, now: Instant)
    requires DateList(fromDate, toDate, now).Ok?
    ensures Parse(fromDate).Some? && Parse(toDate).Some?
    ensures var s := Parse(fromDate).value;
            var e := Parse(toDate).value;
            && Ordinal(s) <= Ordinal(e) && e != MaxDate
            && DateList(fromDate, toDate, now).value == Descending(s, e)
  {
  }

  /** The descending list between two parsed dates starts and ends with the texts they were parsed from. */
  lemma DescendingEndsParsed(fromDate: string, toDate: string)
    requires Parse(fromDate).Some? && Parse(toDate).Some?
    requires Ordinal(Parse(fromDate).value) <= Ordinal(Parse(toDate).value)
    ensures var days := Descending(Parse(fromDate).value, Parse(toDate).value);
            && |days| == Ordinal(Parse(toDate).value) - Ordinal(Parse(fromDate).value) + 1
            && days[0] == toDate
            && days[|days| - 1] == fromDate
  {
    var s := Parse(fromDate).value;
    var e := Parse(toDate).value;
    DescendingEnds(s, e);
    FormatParse(fromDate);
    FormatParse(toDate);
  }

  /** An accepted range's list starts with `to_date`, ends with `from_date`, and holds at most 91 entries. */
  lemma DateListEnds(fromDate: string, toDate: string, now: Instant)
    requires ValidInstant(now)
    requires DateList(fromDate, toDate, now).Ok?
    ensures var days := DateList(fromDate, toDate, now).value;
            && |days| == Ordinal(Parse(toDate).value) - Ordinal(Parse(fromDate).value) + 1 <= MaxSpanDays + 1
            && days[0] == toDate
            && days[|days| - 1] == fromDate
  {
    DateListOk(fromDate, toDate, now);
    DateListOkIff(fromDate, toDate, now);
    DescendingEndsParsed(fromDate, toDate);
  }

  /** Entry i of an accepted range's list reads back as the day i days before `to_date`, within 90 days of today. */
  lemma DateListDays(fromDate: string, toDate: string, now: Instant)
    requires ValidInstant(now)
    requires DateList(fromDate, toDate, now).Ok?
    ensures var days := DateList(fromDate, toDate, now).value;
            var e := Parse(toDate).value;
            forall i :: 0 <= i < |days| ==>
              && Parse(days[i]).Some?
              && Ordinal(Parse(days[i]).value) == Ordinal(e) - i
              && now.day - MaxSpanDays <= Ordinal(e) - i <= now.day
  {
    DateListOk(fromDate, toDate, now);
    DateListOkIff(fromDate, toDate, now);
    var s := Parse(fromDate).value;
    var e := Parse(toDate).value;
    DescendingParses(s, e);
  }

  /**
   * An accepted range yields `to - from + 1` (at most 91) entries, each a
   * `YYYY-MM-DD` date one day before the previous one, starting at `to_date`,
   * ending at `from_date`, and all within the 90 days up to today.
   */
  lemma DateListAccepted(fromDate: string, toDate: string, now: Instant)
    requires ValidInstant(now)
    requires DateList(fromDate, toDate, now).Ok?
    ensures var days := DateList(fromDate, toDate, now).value;
            var s := Parse(fromDate).value;
            var e := Parse(toDate).value;
            && |days| == Ordinal(e) - Ordinal(s) + 1 <= MaxSpanDays + 1
            && days[0] == toDate
            && days[|days| - 1] == fromDate
            && (forall i :: 0 <= i < |days| ==>
                  && Parse(days[i]).Some?
                  && Ordinal(Parse(days[i]).value) == Ordinal(e) - i
                  && now.day - MaxSpanDays <= Ordinal(e) - i <= now.day)
  {
    DateListEnds(fromDate, toDate, now);
    DateListDays(fromDate, toDate, now);
  }

  /** Each day of an accepted range appears in the list, and no other day does. */
  lemma DateListMembers(fromDate: string, toDate: string, now: Instant, d: Date)
    requires ValidInstant(now) && Valid(d)
    requires DateList(fromDate, toDate, now).Ok?
    ensures Format(d) in DateList(fromDate, toDate, now).value
            <==> Ordinal(Parse(fromDate).value) <= Ordinal(d) <= Ordinal(Parse(toDate).value)
  {
    DateListOk(fromDate, toDate, now);
    var days := DateList(fromDate, toDate, now).value;
    var s := Parse(fromDate).value;
    var e := Parse(toDate).value;
    DescendingFacts(s, e);
    if Format(d) in days {
      var i :| 0 <= i < |days| && days[i] == Format(d);
      ParseFormat(d);
    }
    if Ordinal(s) <= Ordinal(d) <= Ordinal(e) {
      var i := Ordinal(e) - Ordinal(d);
      DescendingAt(s, e, i);
      FormatParse(days[i]);
      OrdinalInjective(Parse(days[i]).value, d);
      assert days[i] == Format(d);
    }
  }

  /** No day appears twice. */
  lemma DateListDistinct(fromDate: string, toDate: string, now: Instant)
    requires ValidInstant(now)
    requires DateList(fromDate, toDate, now).Ok?
    ensures var days := DateList(fromDate, toDate, now).value;
            forall i, j :: 0 <= i < j < |days| ==> days[i] != days[j]
  {
    DateListAccepted(fromDate, toDate, now);
  }

  /** The descending list of a sub-range is a slice of the descending list of the range. */
  lemma DescendingSlice(s: Date, e: Date, a: Date, b: Date)
    requires Valid(s) && Valid(e) && Valid(a) && Valid(b)
    requires Ordinal(s) <= Ordinal(a) <= Ordinal(b) <= Ordinal(e)
    ensures Descending(a, b) == Descending(s, e)[Ordinal(e) - Ordinal(b)..Ordinal(e) - Ordinal(a) + 1]
  {
    var ns, ne, na, nb := Ordinal(s), Ordinal(e), Ordinal(a), Ordinal(b);
    DaysDownSlice(ne, ne - ns + 1, ne - nb, ne - na + 1, nb, nb - na + 1);
  }

  /** Two dates the checks accept, written out, are answered with their descending list. */
  lemma DateListOfDates(a: Date, b: Date, now: Instant)
    requires ValidInstant(now) && Valid(a) && Valid(b) && Accepts(a, b, now) && b != MaxDate
    ensures DateList(Format(a), Format(b), now) == Ok(Descending(a, b))
  {
    ParseFormat(a);
    ParseFormat(b);
    FutureCheckIsDayComparison(b, now);
    AgeCheckBoundary(a, now);
  }

  /** Within an accepted range, a sub-range's request is answered with the matching slice. */
  lemma SubRangeOfDates(s: Date, e: Date, a: Date, b: Date, now: Instant)
    requires ValidInstant(now) && Valid(s) && Valid(e) && Valid(a) && Valid(b)
    requires Accepts(s, e, now) && e != MaxDate
    requires Ordinal(s) <= Ordinal(a) <= Ordinal(b) <= Ordinal(e)
    ensures DateList(Format(a), Format(b), now) == Ok(Descending(s, e)[Ordinal(e) - Ordinal(b)..Ordinal(e) - Ordinal(a) + 1])
  {
    MaxDateIsLast(b);
    MaxDateIsLast(e);
    DateListOfDates(a, b, now);
    DescendingSlice(s, e, a, b);
  }

  /** A range inside an accepted range is accepted too, and its list is the matching slice. */
  lemma SubRangeAccepted(fromDate: string, toDate: string, now: Instant, a: Date, b: Date)
    requires ValidInstant(now) && Valid(a) && Valid(b)
    requires DateList(fromDate, toDate, now).Ok?
    requires Ordinal(Parse(fromDate).value) <= Ordinal(a) <= Ordinal(b) <= Ordinal(Parse(toDate).value)
    ensures var e := Parse(toDate).value;
            && DateList(Format(a), Format(b), now).Ok?
            && DateList(Format(a), Format(b), now).value
               == DateList(fromDate, toDate, now).value[Ordinal(e) - Ordinal(b)..Ordinal(e) - Ordinal(a) + 1]
  {
    DateListOk(fromDate, toDate, now);
    DateListOkIff(fromDate, toDate, now);
    var s, e := Parse(fromDate).value, Parse(toDate).value;
    SubRangeOfDates(s, e, a, b, now);
  }

  /** A request for today alone is accepted, and lists today. */
  lemma TodayAccepted(d: Date, now: Instant)
    requires ValidInstant(now) && Valid(d) && Ordinal(d) == now.day && d != MaxDate
    ensures DateList(Format(d), Format(d), now) == Ok([Format(d)])
  {
    ParseFormat(d);
    DateListOkIff(Format(d), Format(d), now);
    assert DateList(Format(d), Format(d), now).Ok?;
    DateListOk(Format(d), Format(d), now);
    DescendingFacts(d, d);
    var days := Descending(d, d);
    assert |days| == 1 && days[0] == Format(d);
    assert days == [Format(d)];
  }

  /** The instant 2024-03-15T10:00Z. */
  function ExampleNow(): Instant {
    Instant(738960, 36_000_000_000)
  }

  lemma ExampleNowIsMarch15()
    ensures ValidInstant(ExampleNow())
    ensures Valid(Date(2024, 3, 15)) && Ordinal(Date(2024, 3, 15)) == ExampleNow().day
  {
    assert DaysBeforeYear(2024) == 738885;
  }

  /** Any three days ending with day `last`, latest first. */
  lemma DaysDownThree(last: int)
    requires 3 <= last <= MaxOrdinal
    ensures DaysDown(last, 3) == [DayName(last), DayName(last - 1), DayName(last - 2)]
  {
    var days := DaysDown(last, 3);
    DaysDownAt(last, 3, 0, last);
    DaysDownAt(last, 3, 1, last - 1);
    DaysDownAt(last, 3, 2, last - 2);
  }

  /** A text that parses to day `n` is the text of day `n`. */
  lemma DayNameOfText(text: string, n: int)
    requires Parse(text).Some? && Ordinal(Parse(text).value) == n
    ensures 1 <= n <= MaxOrdinal && DayName(n) == text
  {
    FormatParse(text);
    DayNameOfDate(Parse(text).value);
  }

  /** The texts of 2024-03-13, 2024-03-14 and 2024-03-15 by day number. */
  lemma ExampleDayNames()
    ensures DayName(738958) == "2024-03-13" && DayName(738959) == "2024-03-14" && DayName(738960) == "2024-03-15"
  {
    assert DaysBeforeYear(2024) == 738885;
    assert Parse("2024-03-13") == Some(Date(2024, 3, 13)) && Ordinal(Date(2024, 3, 13)) == 738958;
    assert Parse("2024-03-14") == Some(Date(2024, 3, 14)) && Ordinal(Date(2024, 3, 14)) == 738959;
    assert Parse("2024-03-15") == Some(Date(2024, 3, 15)) && Ordinal(Date(2024, 3, 15)) == 738960;
    DayNameOfText("2024-03-13", 738958);
    DayNameOfText("2024-03-14", 738959);
    DayNameOfText("2024-03-15", 738960);
  }

  /** Worked example: three days ending today, listed latest first. */
  lemma ExampleAccepted()
    ensures DateList("2024-03-13", "2024-03-15", ExampleNow()) == Ok(["2024-03-15", "2024-03-14", "2024-03-13"])
  {
    ExampleNowIsMarch15();
    var march13 := Date(2024, 3, 13);
    var march15 := Date(2024, 3, 15);
    assert Parse("2024-03-13") == Some(march13) && Parse("2024-03-15") == Some(march15);
    assert Ordinal(march13) == 738958;
    DateListOfDates(march13, march15, ExampleNow());
    FormatParse("2024-03-13");
    FormatParse("2024-03-15");
    assert Descending(march13, march15) == DaysDown(738960, 3);
    DaysDownThree(738960);
    ExampleDayNames();
  }

  /** A to_date after today is refused, even with a valid range. */
  lemma ExampleFuture()
    ensures DateList("2024-03-15", "2024-03-16", ExampleNow()) == Err(InFuture)
  {
    ExampleNowIsMarch15();
    assert Parse("2024-03-15") == Some(Date(2024, 3, 15)) && Parse("2024-03-16") == Some(Date(2024, 3, 16));
    assert Ordinal(Date(2024, 3, 16)) == 738961;
    DateListErrors("2024-03-15", "2024-03-16", ExampleNow());
  }

  lemma ExampleInverted()
    ensures DateList("2024-03-15", "2024-03-14", ExampleNow()) == Err(Inverted)
  {
    ExampleNowIsMarch15();
    assert Parse("2024-03-15") == Some(Date(2024, 3, 15)) && Parse("2024-03-14") == Some(Date(2024, 3, 14));
    assert Ordinal(Date(2024, 3, 14)) == 738959;
    DateListErrors("2024-03-15", "2024-03-14", ExampleNow());
  }

  /** 105 days apart (106 days counted inclusively): too long a span. */
  lemma ExampleSpanTooLong()
    ensures DateList("2023-12-01", "2024-03-15", ExampleNow()) == Err(SpanTooLong)
  {
    ExampleNowIsMarch15();
    assert Parse("2023-12-01") == Some(Date(2023, 12, 1)) && Parse("2024-03-15") == Some(Date(2024, 3, 15));
    assert DaysBeforeYear(2023) == 738520;
    assert Ordinal(Date(2023, 12, 1)) == 738855;
    DateListErrors("2023-12-01", "2024-03-15", ExampleNow());
  }

  /** A start exactly 90 days before today is refused once today's midnight has passed; 89 days is not. */
  lemma ExampleStartAge()
    ensures DateList("2023-12-16", "2023-12-20", ExampleNow()) == Err(StartTooOld)
    ensures DateList("2023-12-17", "2023-12-20", ExampleNow()).Ok?
  {
    ExampleNowIsMarch15();
    assert Parse("2023-12-16") == Some(Date(2023, 12, 16)) && Parse("2023-12-17") == Some(Date(2023, 12, 17));
    assert Parse("2023-12-20") == Some(Date(2023, 12, 20));
    assert DaysBeforeYear(2023) == 738520;
    assert Ordinal(Date(2023, 12, 16)) == 738870 && Ordinal(Date(2023, 12, 17)) == 738871;
    assert Ordinal(Date(2023, 12, 20)) == 738874;
    DateListErrors("2023-12-16", "2023-12-20", ExampleNow());
    DateListOkIff("2023-12-17", "2023-12-20", ExampleNow());
  }

  lemma ExampleMalformed()
    ensures DateList("2024-02-30", "2024-03-01", ExampleNow()) == Err(InvalidFormat)
    ensures DateList("2024-3-1", "2024-03-01", ExampleNow()) == Err(InvalidFormat)
    ensures DateList("", "2024-03-01", ExampleNow()) == Err(EmptyDate)
  {
    ParseRejectsImpossibleDates();
  }

  // ---------------------------------------------------------------------------
  // The request path
  // ---------------------------------------------------------------------------

  /**
   * A missing or empty "from_date" is reported first, whatever "to_date" is;
   * then a missing or empty "to_date"; only then are the dates checked, so the
   * empty-date check of `_get_date_list` never fires on this path.
   */
  lemma RequestOrder(body: RequestBody, now: Instant)
    ensures !("from_date" in body && body["from_date"] != "") ==> RequestDateList(body, now) == Err(MissingFromDate)
    ensures ("from_date" in body && body["from_date"] != "") && !("to_date" in body && body["to_date"] != "")
            ==> RequestDateList(body, now) == Err(MissingToDate)
    ensures ("from_date" in body && body["from_date"] != "") && ("to_date" in body && body["to_date"] != "")
            ==> RequestDateList(body, now) == DateList(body["from_date"], body["to_date"], now)
    ensures RequestDateList(body, now) != Err(EmptyDate)
  {
  }

  // ---------------------------------------------------------------------------
  // The code as written: line 84 compares a naive date with an aware "now"
  // ---------------------------------------------------------------------------

  /**
   * `_get_date_list` as written: `datetime.now(timezone.utc)` is aware and
   * `strptime` gives naive values, so `end_date > today` raises TypeError
   * once the first three checks pass.
   */
  function DateListAsWritten(fromDate: string, toDate: string, now: Instant): Result<seq<string>, RangeError> {
    if fromDate == "" || toDate == "" then Err(EmptyDate)
    else if Parse(fromDate).None? || Parse(toDate).None? then Err(InvalidFormat)
    else if Ordinal(Parse(toDate).value) < Ordinal(Parse(fromDate).value) then Err(Inverted)
    else Err(OffsetMismatch)
  }

  /**
   * The code as written accepts no request at all: every request the intended
   * checks accept is refused with the TypeError's message, and it agrees with
   * them only on the first three errors.
   */
  lemma AsWrittenRefusesEverything(fromDate: string, toDate: string, now: Instant)
    requires ValidInstant(now)
    ensures DateListAsWritten(fromDate, toDate, now).Err?
    ensures DateList(fromDate, toDate, now).Ok? ==> DateListAsWritten(fromDate, toDate, now) == Err(OffsetMismatch)
    ensures DateList(fromDate, toDate, now) in {Err(EmptyDate), Err(InvalidFormat), Err(Inverted)}
            <==> DateListAsWritten(fromDate, toDate, now) == DateList(fromDate, toDate, now)
  {
    DateListErrors(fromDate, toDate, now);
  }

  /** Today's date, requested at 2024-03-15T10:00Z, is refused by the code as written. */
  lemma AsWrittenRefusesToday()
    ensures DateList("2024-03-15", "2024-03-15", ExampleNow()) == Ok(["2024-03-15"])
    ensures DateListAsWritten("2024-03-15", "2024-03-15", ExampleNow()) == Err(OffsetMismatch)
  {
    ExampleNowIsMarch15();
    assert Parse("2024-03-15") == Some(Date(2024, 3, 15));
    FormatParse("2024-03-15");
    TodayAccepted(Date(2024, 3, 15), ExampleNow());
  }
}
