/** `isDateInMonthYear` of `src/lib/utils.ts`. Reading a date's year and month depends on the
    browser's time zone, and turning text into a date on the engine's date parser; both are
    parameters here: `parse` yields no instant for text `new Date` cannot read (an invalid
    date, whose year and month compare equal to nothing), and `calendar` gives an instant's
    local year and zero-based month. */
module Dates {
  import opened Wrappers
  import Schema

  /** A local calendar month: `getFullYear()` and the zero-based `getMonth()`. */
  datatype YearMonth = YearMonth(year: int, month: int)

  /** The argument: `null`/`undefined`, a string, or a `Date`. */
  datatype DateArg = NoDate | Text(s: string) | Instant(t: Schema.Time)

  /** The instant a date argument denotes, if any. An empty string is falsy and denotes none. */
  function InstantOf(date: DateArg, parse: string -> Option<Schema.Time>): (r: Option<Schema.Time>)
    ensures date.NoDate? || date == Text("") ==> r.None?
    ensures date.Instant? ==> r == Some(date.t)
  {
    match date
    case NoDate => None
    case Text(s) => if s == "" then None else parse(s)
    case Instant(t) => Some(t)
  }

  /** Whether a date falls in the given zero-based month of the given year, local time. */
  function IsDateInMonthYear(date: DateArg, month: int, year: int,
                             parse: string -> Option<Schema.Time>,
                             calendar: Schema.Time -> YearMonth): (b: bool)
    ensures b ==> InstantOf(date, parse).Some?
    ensures date.NoDate? || date == Text("") ==> !b
    ensures date.Instant? ==> (b <==> calendar(date.t) == YearMonth(year, month))
  {
    var t := InstantOf(date, parse);
    t.Some? && calendar(t.value).year == year && calendar(t.value).month == month
  }

  /** A non-empty date text and the instant it parses to fall in the same months. */
  lemma TextAgreesWithInstant(s: string, t: Schema.Time, month: int, year: int,
                              parse: string -> Option<Schema.Time>,
                              calendar: Schema.Time -> YearMonth)
    requires s != "" && parse(s) == Some(t)
    ensures IsDateInMonthYear(Text(s), month, year, parse, calendar)
            == IsDateInMonthYear(Instant(t), month, year, parse, calendar)
  {
  }

  /** A date falls in at most one month: the monthly buckets are disjoint. */
  lemma AtMostOneMonth(date: DateArg, m1: int, y1: int, m2: int, y2: int,
                       parse: string -> Option<Schema.Time>,
                       calendar: Schema.Time -> YearMonth)
    requires IsDateInMonthYear(date, m1, y1, parse, calendar)
    requires IsDateInMonthYear(date, m2, y2, parse, calendar)
    ensures m1 == m2 && y1 == y2
  {
  }

  /** With a calendar whose months run from 0 to 11, no date falls in a month outside that range. */
  lemma NoDateOutsideMonthRange(date: DateArg, month: int, year: int,
                                parse: string -> Option<Schema.Time>,
                                calendar: Schema.Time -> YearMonth)
    requires forall t: Schema.Time :: 0 <= calendar(t).month <= 11
    requires month < 0 || month > 11
    ensures !IsDateInMonthYear(date, month, year, parse, calendar)
  {
    var t := InstantOf(date, parse);
    if t.Some? {
      var instant: Schema.Time := t.value;
      var ym := calendar(instant);
      assert 0 <= ym.month <= 11;
    }
  }
}
