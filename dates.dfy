/**
 * Calendar dates as Python's `datetime.date` sees them: proleptic Gregorian, years 1..9999,
 * day ordinals with 0001-01-01 as day 1 (`date.toordinal`), ISO `YYYY-MM-DD` text, and the
 * month window that bounds the statement query.
 */
module Dates {
  import opened Wrappers
  import opened Text

  const MinYear := 1
  const MaxYear := 9999

  datatype Date = Date(year: int, month: int, day: int)

  predicate IsLeap(y: int) {
    y % 4 == 0 && (y % 100 != 0 || y % 400 == 0)
  }

  function DaysInMonth(y: int, m: int): (n: int)
    requires 1 <= m <= 12
    ensures 28 <= n <= 31
  {
    if m == 2 then (if IsLeap(y) then 29 else 28)
    else if m == 4 || m == 6 || m == 9 || m == 11 then 30
    else 31
  }

  predicate IsValid(d: Date) {
    MinYear <= d.year <= MaxYear && 1 <= d.month <= 12 && 1 <= d.day <= DaysInMonth(d.year, d.month)
  }

  /** Days in the years before `y`. */
  function DaysBeforeYear(y: int): int
    requires y >= 1
  {
    var z := y - 1;
    z * 365 + z / 4 - z / 100 + z / 400
  }

  /** Days in the months of year `y` before month `m`. */
  function DaysBeforeMonth(y: int, m: int): int
    requires 1 <= m <= 12
  {
    [0, 31, 59, 90, 120, 151, 181, 212, 243, 273, 304, 334][m - 1] + (if m > 2 && IsLeap(y) then 1 else 0)
  }

  /** Python's `date.toordinal()`; defined for any year from 1, valid or not, so that the
      first day after 9999-12 still has a number. */
  function Ordinal(d: Date): int
    requires d.year >= MinYear && 1 <= d.month <= 12
  {
    DaysBeforeYear(d.year) + DaysBeforeMonth(d.year, d.month) + d.day
  }

  /** Python's `date.isoformat()`: zero-padded `YYYY-MM-DD`. */
  function IsoFormat(d: Date): string
    requires IsValid(d)
  {
    PadDigits(d.year, 4) + "-" + PadDigits(d.month, 2) + "-" + PadDigits(d.day, 2)
  }

  /** The last `w` decimal digits of `n`, most significant first. */
  function PadDigits(n: nat, w: nat): (s: string)
    ensures |s| == w && AllDigits(s)
  {
    if w == 0 then "" else PadDigits(n / 10, w - 1) + [DigitChar(n % 10)]
  }

  function Pow10(w: nat): nat {
    if w == 0 then 1 else 10 * Pow10(w - 1)
  }

  lemma {:induction false} PadDigitsValue(n: nat, w: nat)
    requires n < Pow10(w)
    ensures DigitsValue(PadDigits(n, w)) == n
  {
    if w > 0 {
      var q, r := n / 10, n % 10;
      assert n == 10 * q + r && r < 10;
      assert q < Pow10(w - 1);
      var s := PadDigits(n, w);
      assert s == PadDigits(q, w - 1) + [DigitChar(r)];
      assert s[..|s| - 1] == PadDigits(q, w - 1);
      PadDigitsValue(q, w - 1);
      assert DigitsValue(s) == DigitsValue(PadDigits(q, w - 1)) * 10 + r;
    }
  }

  /**
   * `date.fromisoformat(s)` as Python 3.7 to 3.10 define it: exactly ten characters
   * `YYYY-MM-DD` with ASCII digits naming a valid date; anything else raises ValueError,
   * here `None`. The result is the date's ordinal.
   */
  function ParseIsoDate(s: string): Option<int> {
    if |s| == 10 && AllDigits(s[0..4]) && s[4] == '-' && AllDigits(s[5..7]) && s[7] == '-'
       && AllDigits(s[8..10]) then
      var d := Date(DigitsValue(s[0..4]), DigitsValue(s[5..7]), DigitsValue(s[8..10]));
      if IsValid(d) then Some(Ordinal(d)) else None
    else
      None
  }

  /** Every valid date's ISO text parses back to that date. */
  lemma IsoRoundTrip(d: Date)
    requires IsValid(d)
    ensures ParseIsoDate(IsoFormat(d)) == Some(Ordinal(d))
  {
    var y, m, dd := PadDigits(d.year, 4), PadDigits(d.month, 2), PadDigits(d.day, 2);
    IsoSlices(y, m, dd);
    assert Pow10(2) == 100 && Pow10(4) == 10000;
    PadDigitsValue(d.year, 4);
    PadDigitsValue(d.month, 2);
    PadDigitsValue(d.day, 2);
  }

  /** Where the fields of `YYYY-MM-DD` text sit. */
  lemma IsoSlices(y: string, m: string, dd: string)
    requires |y| == 4 && |m| == 2 && |dd| == 2
    ensures var s := y + "-" + m + "-" + dd;
            |s| == 10 && s[0..4] == y && s[4] == '-' && s[5..7] == m && s[7] == '-' && s[8..10] == dd
  {
  }

  /** Text that parses is the ISO text of the date it names: `fromisoformat` followed by
      `isoformat` gives back the input. */
  lemma ParseIsoRoundTrip(s: string)
    requires ParseIsoDate(s).Some?
    ensures exists d :: IsValid(d) && Ordinal(d) == ParseIsoDate(s).value && IsoFormat(d) == s
  {
    var y, m, dd := s[0..4], s[5..7], s[8..10];
    var d := Date(DigitsValue(y), DigitsValue(m), DigitsValue(dd));
    PadDigitsOfValue(y);
    PadDigitsOfValue(m);
    PadDigitsOfValue(dd);
    assert s == y + "-" + m + "-" + dd;
    assert IsoFormat(d) == y + "-" + m + "-" + dd;
  }

  /** Padding the value of a digit string to its own width gives the string back. */
  lemma {:induction false} PadDigitsOfValue(t: string)
    requires AllDigits(t)
    ensures PadDigits(DigitsValue(t), |t|) == t
  {
    if t != [] {
      var u, c := t[..|t| - 1], t[|t| - 1];
      var n := DigitsValue(t);
      assert AllDigits(u);
      assert n == DigitsValue(u) * 10 + (c as int - '0' as int);
      assert n / 10 == DigitsValue(u) && n % 10 == c as int - '0' as int;
      PadDigitsOfValue(u);
      assert DigitChar(n % 10) == c;
      assert t == u + [c];
    }
  }

  /**
   * The bounds of the statement query for (year, month): the first of the month and the
   * first of the following month, December rolling over to January of the next year.
   * `None` where Python's `date(...)` constructor raises ValueError.
   */
  function MonthWindow(year: int, month: int): Option<(Date, Date)> {
    if !(MinYear <= year <= MaxYear && 1 <= month <= 12) then None
    else if month == 12 then
      if year == MaxYear then None else Some((Date(year, 12, 1), Date(year + 1, 1, 1)))
    else
      Some((Date(year, month, 1), Date(year, month + 1, 1)))
  }

  // ---- ordinal arithmetic ----

  lemma DivStep4(y: int)
    requires y >= 1
    ensures y / 4 - (y - 1) / 4 == if y % 4 == 0 then 1 else 0
  {
  }

  lemma DivStep100(y: int)
    requires y >= 1
    ensures y / 100 - (y - 1) / 100 == if y % 100 == 0 then 1 else 0
  {
  }

  lemma DivStep400(y: int)
    requires y >= 1
    ensures y / 400 - (y - 1) / 400 == if y % 400 == 0 then 1 else 0
  {
  }

  lemma YearLength(y: int)
    requires y >= 1
    ensures DaysBeforeYear(y + 1) == DaysBeforeYear(y) + (if IsLeap(y) then 366 else 365)
  {
    var z := y - 1;
    var d4, d100, d400 := y / 4 - z / 4, y / 100 - z / 100, y / 400 - z / 400;
    assert DaysBeforeYear(y + 1) - DaysBeforeYear(y) == 365 + d4 - d100 + d400;
    DivStep4(y);
    DivStep100(y);
    DivStep400(y);
    LeapByRemainders(y);
  }

  lemma LeapByRemainders(y: int)
    ensures IsLeap(y) <==> (if y % 4 == 0 then 1 else 0) - (if y % 100 == 0 then 1 else 0)
                           + (if y % 400 == 0 then 1 else 0) == 1
  {
    if y % 400 == 0 {
      assert y == 400 * (y / 400);
      assert y == 100 * (4 * (y / 400));
    }
    if y % 100 == 0 {
      assert y == 100 * (y / 100);
      assert y == 4 * (25 * (y / 100));
    }
  }

  /** Index of a month counted from January of year 0: the months in calendar order. */
  function MonthIndex(y: int, m: int): int {
    y * 12 + m - 1
  }

  /** The year and the month of the month after month m of year y. */
  function NextYear(y: int, m: int): (r: int)
    ensures r >= y
  {
    if m == 12 then y + 1 else y
  }

  function NextMonth(m: int): (r: int)
    requires 1 <= m <= 12
    ensures 1 <= r <= 12
  {
    if m == 12 then 1 else m + 1
  }

  lemma NextMonthIndex(y: int, m: int)
    requires 1 <= m <= 12
    ensures MonthIndex(NextYear(y, m), NextMonth(m)) == MonthIndex(y, m) + 1
  {
  }

  /** Ordinal of the first day of month m of year y, counted month by month from 0001-01-01
      (day 1). */
  function MonthStart(y: int, m: int): int
    requires y >= MinYear && 1 <= m <= 12
    decreases y, m
  {
    if m > 1 then MonthStart(y, m - 1) + DaysInMonth(y, m - 1)
    else if y > MinYear then MonthStart(y - 1, 12) + DaysInMonth(y - 1, 12)
    else 1
  }

  /** The days before a month grow by the length of the month before it; December ends the
      year. */
  lemma DaysBeforeNextMonth(y: int, m: int)
    requires 1 <= m <= 12
    ensures m < 12 ==> DaysBeforeMonth(y, m + 1) == DaysBeforeMonth(y, m) + DaysInMonth(y, m)
    ensures m == 12 ==> DaysBeforeMonth(y, m) + DaysInMonth(y, m) == (if IsLeap(y) then 366 else 365)
  {
  }

  /** The ordinal of the first of a month, from its closed form. */
  lemma {:induction false} OrdinalOfFirst(y: int, m: int)
    requires y >= MinYear && 1 <= m <= 12
    ensures Ordinal(Date(y, m, 1)) == MonthStart(y, m)
    decreases y, m
  {
    if m > 1 {
      OrdinalOfFirst(y, m - 1);
      FirstAfterMonth(y, m - 1);
    } else if y > MinYear {
      OrdinalOfFirst(y - 1, 12);
      FirstAfterDecember(y - 1);
    }
  }

  /** The induction step inside a year. */
  lemma FirstAfterMonth(y: int, m: int)
    requires y >= MinYear && 1 <= m < 12
    requires Ordinal(Date(y, m, 1)) == MonthStart(y, m)
    ensures Ordinal(Date(y, m + 1, 1)) == MonthStart(y, m + 1)
  {
    DaysBeforeNextMonth(y, m);
  }

  /** The induction step across a new year. */
  lemma FirstAfterDecember(y: int)
    requires y >= MinYear
    requires Ordinal(Date(y, 12, 1)) == MonthStart(y, 12)
    ensures Ordinal(Date(y + 1, 1, 1)) == MonthStart(y + 1, 1)
  {
    DaysBeforeNextMonth(y, 12);
    YearLength(y);
  }

  /** The next month starts one month length later. */
  lemma MonthStartNext(y: int, m: int)
    requires y >= MinYear && 1 <= m <= 12
    ensures MonthStart(NextYear(y, m), NextMonth(m)) == MonthStart(y, m) + DaysInMonth(y, m)
  {
    if m == 12 {
      StartAfterDecember(y);
    } else {
      StartAfterMonth(y, m);
    }
  }

  lemma StartAfterDecember(y: int)
    requires y >= MinYear
    ensures MonthStart(y + 1, 1) == MonthStart(y, 12) + DaysInMonth(y, 12)
  {
  }

  lemma StartAfterMonth(y: int, m: int)
    requires y >= MinYear && 1 <= m < 12
    ensures MonthStart(y, m + 1) == MonthStart(y, m) + DaysInMonth(y, m)
  {
  }

  /** Later months start later. */
  lemma {:induction false} MonthStartMonotone(y1: int, m1: int, y2: int, m2: int)
    requires y1 >= MinYear && 1 <= m1 <= 12 && y2 >= MinYear && 1 <= m2 <= 12
    requires MonthIndex(y1, m1) <= MonthIndex(y2, m2)
    ensures MonthStart(y1, m1) <= MonthStart(y2, m2)
    decreases y2, m2
  {
    if MonthIndex(y1, m1) < MonthIndex(y2, m2) {
      if m2 > 1 {
        MonthStartMonotone(y1, m1, y2, m2 - 1);
      } else {
        MonthStartMonotone(y1, m1, y2 - 1, 12);
      }
    }
  }

  /** A valid date lies between the start of its month and the start of the next one. */
  lemma DateInItsMonth(d: Date)
    requires IsValid(d)
    ensures MonthStart(d.year, d.month) <= Ordinal(d) < MonthStart(NextYear(d.year, d.month), NextMonth(d.month))
  {
    OrdinalOfFirst(d.year, d.month);
    MonthStartNext(d.year, d.month);
    assert Ordinal(d) == Ordinal(Date(d.year, d.month, 1)) + d.day - 1;
  }

  /** Both bounds are real dates, the upper one exactly one month length after the lower. */
  lemma MonthWindowLength(year: int, month: int)
    requires MonthWindow(year, month).Some?
    ensures var (first, next) := MonthWindow(year, month).value;
            IsValid(first) && IsValid(next)
            && next.year == NextYear(year, month) && next.month == NextMonth(month)
            && Ordinal(first) == MonthStart(year, month)
            && Ordinal(next) == MonthStart(next.year, next.month)
            && Ordinal(next) == Ordinal(first) + DaysInMonth(year, month)
  {
    var (first, next) := MonthWindow(year, month).value;
    assert first == Date(year, month, 1) && next == Date(NextYear(year, month), NextMonth(month), 1);
    OrdinalOfFirst(year, month);
    OrdinalOfFirst(next.year, next.month);
    MonthStartNext(year, month);
  }

  /**
   * The half-open query `created >= first && created < next` selects exactly the dates of the
   * requested month: a valid date is inside the window iff it has that year and month.
   */
  lemma MonthWindowSelectsMonth(year: int, month: int, first: Date, next: Date, d: Date)
    requires MonthWindow(year, month) == Some((first, next))
    requires IsValid(d)
    ensures (Ordinal(first) <= Ordinal(d) < Ordinal(next)) <==> (d.year == year && d.month == month)
  {
    var t := MonthIndex(year, month);
    var i := MonthIndex(d.year, d.month);
    MonthWindowLength(year, month);
    if i < t {
      EarlierMonthBefore(d, year, month);
    } else if i > t {
      LaterMonthAfter(d, year, month);
    } else {
      MonthIndexInjective(year, month, d.year, d.month);
      DateInItsMonth(d);
    }
  }

  lemma EarlierMonthBefore(d: Date, y: int, m: int)
    requires IsValid(d) && y >= MinYear && 1 <= m <= 12
    requires MonthIndex(d.year, d.month) < MonthIndex(y, m)
    ensures Ordinal(d) < MonthStart(y, m)
  {
    DateInItsMonth(d);
    NextMonthIndex(d.year, d.month);
    MonthStartMonotone(NextYear(d.year, d.month), NextMonth(d.month), y, m);
  }

  lemma LaterMonthAfter(d: Date, y: int, m: int)
    requires IsValid(d) && y >= MinYear && 1 <= m <= 12
    requires MonthIndex(y, m) < MonthIndex(d.year, d.month)
    ensures Ordinal(d) >= MonthStart(NextYear(y, m), NextMonth(m))
  {
    DateInItsMonth(d);
    NextMonthIndex(y, m);
    MonthStartMonotone(NextYear(y, m), NextMonth(m), d.year, d.month);
  }

  lemma MonthIndexInjective(y1: int, m1: int, y2: int, m2: int)
    requires 1 <= m1 <= 12 && 1 <= m2 <= 12
    requires MonthIndex(y1, m1) == MonthIndex(y2, m2)
    ensures y1 == y2 && m1 == m2
  {
  }
}
