/** The Gregorian date arithmetic of src/util.c: `qleap`, and `timeAdd`, which adds an offset to a date
    in place and normalises the result with nested loops and a stop flag for 29 February. */
module Calendar {

  /** A date and time. As an offset, each field is a count. */
  datatype Date = Date(yr: int, mo: int, dy: int, hr: int, mn: int)

  // ----- The calendar, independently of the code -----

  /** The leap rule of the Gregorian calendar (section 3.2.1 of ISO 8601:2004). */
  predicate Leap(y: int) {
    y % 4 == 0 && (y % 100 != 0 || y % 400 == 0)
  }

  function MonthDays(y: int, m: int): (n: int)
    requires 1 <= m <= 12
    ensures 28 <= n <= 31
  {
    if m == 2 then if Leap(y) then 29 else 28
    else if m == 4 || m == 6 || m == 9 || m == 11 then 30
    else 31
  }

  /** February apart, months have 31 and 30 days in turn, July and August both 31. */
  lemma MonthsAlternate(y: int, m: int)
    requires 1 <= m <= 12
    ensures m == 2 ==> MonthDays(y, m) == if y % 4 == 0 && (y % 100 != 0 || y % 400 == 0) then 29 else 28
    ensures m != 2 ==> MonthDays(y, m) == 30 + (m + m / 8) % 2
  {
  }

  predicate Valid(d: Date) {
    && 1 <= d.mo <= 12
    && 1 <= d.dy <= MonthDays(d.yr, d.mo)
    && 0 <= d.hr < 24
    && 0 <= d.mn < 60
  }

  function YearDays(y: int): int {
    if Leap(y) then 366 else 365
  }

  /** Days from 1 January of year 1 to 1 January of year y; negative before year 1. */
  function DaysBeforeYear(y: int): int
    decreases if y >= 1 then y else 2 - y
  {
    if y == 1 then 0
    else if y > 1 then DaysBeforeYear(y - 1) + YearDays(y - 1)
    else DaysBeforeYear(y + 1) - YearDays(y)
  }

  /** Days from 1 January of year 1 to the first of month m of year y. */
  function DaysBefore(y: int, m: int): int
    requires 1 <= m <= 12
    decreases m
  {
    if m == 1 then DaysBeforeYear(y) else DaysBefore(y, m - 1) + MonthDays(y, m - 1)
  }

  /** Absolute minutes. Days, hours and minutes may overflow their units: they simply count. */
  function Minutes(d: Date): int
    requires 1 <= d.mo <= 12
  {
    ((DaysBefore(d.yr, d.mo) + d.dy - 1) * 24 + d.hr) * 60 + d.mn
  }

  /** Chronological order of two dates, field by field. */
  predicate Before(a: Date, b: Date) {
    || a.yr < b.yr
    || (a.yr == b.yr &&
        (|| a.mo < b.mo
         || (a.mo == b.mo &&
             (|| a.dy < b.dy
              || (a.dy == b.dy && (a.hr < b.hr || (a.hr == b.hr && a.mn < b.mn)))))))
  }

  function NextMonth(y: int, m: int): (int, int) {
    if m == 12 then (y + 1, 1) else (y, m + 1)
  }

  function Tomorrow(d: Date): Date
    requires Valid(d)
  {
    if d.dy < MonthDays(d.yr, d.mo) then d.(dy := d.dy + 1)
    else var (y, m) := NextMonth(d.yr, d.mo); d.(yr := y, mo := m, dy := 1)
  }

  lemma CenturiesAreNested(y: int)
    ensures y % 400 == 0 ==> y % 100 == 0
    ensures y % 100 == 0 ==> y % 4 == 0
  {
  }

  lemma YearLength(y: int)
    ensures DaysBeforeYear(y + 1) == DaysBeforeYear(y) + YearDays(y)
  {
  }

  /** The usual closed form of the day count. */
  function ClosedForm(y: int): int {
    365 * (y - 1) + (y - 1) / 4 - (y - 1) / 100 + (y - 1) / 400
  }

  lemma ClosedFormStep(y: int)
    ensures ClosedForm(y + 1) == ClosedForm(y) + YearDays(y)
  {
    QuotientStep(y);
    CenturiesAreNested(y);
  }

  lemma QuotientStep(y: int)
    ensures y / 4 == (y - 1) / 4 + if y % 4 == 0 then 1 else 0
    ensures y / 100 == (y - 1) / 100 + if y % 100 == 0 then 1 else 0
    ensures y / 400 == (y - 1) / 400 + if y % 400 == 0 then 1 else 0
  {
  }

  lemma {:induction false} DaysInClosedForm(y: int)
    ensures DaysBeforeYear(y) == ClosedForm(y)
    decreases if y >= 1 then y else 2 - y
  {
    if y > 1 {
      DaysInClosedForm(y - 1);
      ClosedFormStep(y - 1);
    } else if y < 1 {
      DaysInClosedForm(y + 1);
      ClosedFormStep(y);
    }
  }

  lemma YearSum(y: int)
    ensures DaysBefore(y, 12) + MonthDays(y, 12) == DaysBeforeYear(y + 1)
  {
    YearLength(y);
    assert DaysBefore(y, 3) == DaysBeforeYear(y) + 31 + MonthDays(y, 2);
    assert DaysBefore(y, 6) == DaysBefore(y, 3) + 31 + 30 + 31;
    assert DaysBefore(y, 9) == DaysBefore(y, 6) + 30 + 31 + 31;
    assert DaysBefore(y, 12) == DaysBefore(y, 9) + 30 + 31 + 30;
  }

  lemma MonthStep(y: int, m: int)
    requires 1 <= m <= 12
    ensures m < 12 ==> DaysBefore(y, m + 1) == DaysBefore(y, m) + MonthDays(y, m)
    ensures m == 12 ==> DaysBefore(y + 1, 1) == DaysBefore(y, m) + MonthDays(y, m)
  {
    if m == 12 {
      var days := DaysBefore(y, 12) + MonthDays(y, 12);
      YearSum(y);
      assert days == DaysBeforeYear(y + 1);
    }
  }

  /** The day count is the calendar's own: the next day is one more. */
  lemma TomorrowIsOneDayLater(d: Date)
    requires Valid(d)
    ensures Valid(Tomorrow(d))
    ensures Minutes(Tomorrow(d)) == Minutes(d) + 1440
    ensures Before(d, Tomorrow(d))
  {
    MonthStep(d.yr, d.mo);
  }

  lemma {:induction false} MonthsInOrder(y: int, m: int, m': int)
    requires 1 <= m < m' <= 12
    ensures DaysBefore(y, m) + MonthDays(y, m) <= DaysBefore(y, m')
    decreases m'
  {
    if m + 1 < m' { MonthsInOrder(y, m, m' - 1); }
  }

  lemma {:induction false} YearStartsInOrder(y: int, y': int)
    requires y <= y'
    ensures DaysBeforeYear(y) <= DaysBeforeYear(y')
    decreases y' - y
  {
    if y < y' {
      YearStartsInOrder(y, y' - 1);
      YearLength(y' - 1);
    }
  }

  lemma MonthsFitTheYear(y: int, m: int)
    requires 1 <= m <= 12
    ensures DaysBeforeYear(y) <= DaysBefore(y, m)
    ensures DaysBefore(y, m) + MonthDays(y, m) <= DaysBeforeYear(y + 1)
  {
    if m < 12 { MonthsInOrder(y, m, 12); }
    YearSum(y);
    if 1 < m { MonthsInOrder(y, 1, m); }
  }

  lemma YearsInOrder(y: int, m: int, y': int, m': int)
    requires y < y' && 1 <= m <= 12 && 1 <= m' <= 12
    ensures DaysBefore(y, m) + MonthDays(y, m) <= DaysBefore(y', m')
  {
    MonthsFitTheYear(y, m);
    YearStartsInOrder(y + 1, y');
    MonthsFitTheYear(y', m');
  }

  lemma EarlierMeansFewerMinutes(a: Date, b: Date)
    requires Valid(a) && Valid(b) && Before(a, b)
    ensures Minutes(a) < Minutes(b)
  {
    if a.yr < b.yr {
      YearsInOrder(a.yr, a.mo, b.yr, b.mo);
    } else if a.mo < b.mo {
      MonthsInOrder(a.yr, a.mo, b.mo);
    }
  }

  /** Absolute minutes order valid dates exactly as the calendar does; in particular a valid date is
      determined by its minute count. */
  lemma MinutesAreCanonical(a: Date, b: Date)
    requires Valid(a) && Valid(b)
    ensures Minutes(a) < Minutes(b) <==> Before(a, b)
    ensures Minutes(a) == Minutes(b) <==> a == b
  {
    if Before(a, b) {
      EarlierMeansFewerMinutes(a, b);
    } else if Before(b, a) {
      EarlierMeansFewerMinutes(b, a);
    }
  }

  /** A valid date is h hours after another. */
  predicate HoursLater(start: Date, h: int, end: Date)
    requires Valid(start)
  {
    Valid(end) && Minutes(end) == Minutes(start) + 60 * h
  }

  lemma HoursLaterIsUnique(start: Date, h: int, a: Date, b: Date)
    requires Valid(start) && HoursLater(start, h, a) && HoursLater(start, h, b)
    ensures a == b
  {
    MinutesAreCanonical(a, b);
  }

  lemma HoursLaterAdds(start: Date, h1: int, mid: Date, h2: int, end: Date, whole: Date)
    requires Valid(start) && HoursLater(start, h1, mid) && HoursLater(mid, h2, end)
    requires HoursLater(start, h1 + h2, whole)
    ensures end == whole
  {
    HoursLaterIsUnique(start, h1 + h2, end, whole);
  }

  // ----- What timeAdd computes -----

  /** Carries one month's days into the next month. */
  function OneCarry(d: Date): Date
    requires 1 <= d.mo <= 12
  {
    var (y, m) := NextMonth(d.yr, d.mo);
    d.(yr := y, mo := m, dy := d.dy - MonthDays(d.yr, d.mo))
  }

  /** Carries surplus days into months and years, one month at a time. Month 0 has no days: any day there is
      carried into January of the same year. */
  function CarryDays(d: Date): (r: Date)
    requires 0 <= d.mo <= 12
    ensures 0 <= r.mo <= 12 && (r.mo >= 1 <==> d.mo >= 1 || d.dy >= 1)
    decreases d.mo == 0, d.dy
  {
    if d.mo == 0 then if d.dy <= 0 then d else CarryDays(d.(mo := 1))
    else if d.dy <= MonthDays(d.yr, d.mo) then d
    else CarryDays(OneCarry(d))
  }

  /** Month 0 read as January. */
  function AsMonth(d: Date): Date {
    if d.mo == 0 then d.(mo := 1) else d
  }

  /** What is carried of x into the next unit; nothing is ever borrowed. */
  function Carried(x: int, unit: int): (n: int)
    requires unit > 0
    ensures x - n * unit < unit
    ensures 0 <= x - n * unit <==> 0 <= x
  {
    if x >= unit then x / unit else 0
  }

  function CarriedMinutes(start: Date, off: Date): int {
    Carried(start.mn + off.mn, 60)
  }

  function CarriedHours(start: Date, off: Date): int {
    Carried(start.hr + off.hr + CarriedMinutes(start, off), 24)
  }

  /** Twelve months are carried into the next year while there are more than twelve. */
  function CarriedYears(start: Date, off: Date): int {
    Carried(start.mo + off.mo - 1, 12)
  }

  /** The sum before days are carried: months in 0..12, minutes and hours below their units. */
  function Summed(start: Date, off: Date): Date {
    var yr, mn, hr := CarriedYears(start, off), CarriedMinutes(start, off), CarriedHours(start, off);
    Date(start.yr + off.yr + yr, start.mo + off.mo - yr * 12, start.dy + off.dy + hr,
         start.hr + off.hr + mn - hr * 24, start.mn + off.mn - mn * 60)
  }

  /** The month that results is in the table, whose entry 0 is 0. */
  predicate MonthsAdd(start: Date, off: Date) {
    start.mo + off.mo >= 0
  }

  /** The start shifted by the offset's years and months alone. */
  function Shifted(start: Date, off: Date): Date {
    var yr := CarriedYears(start, off);
    AsMonth(start.(yr := start.yr + off.yr + yr, mo := start.mo + off.mo - yr * 12))
  }

  /** The date `off` after `start`. */
  function AddTime(start: Date, off: Date): Date
    requires Valid(start) && MonthsAdd(start, off)
  {
    CarryDays(Summed(start, off))
  }

  function Hours(h: int): Date {
    Date(0, 0, 0, h, 0)
  }

  /** A clock time below a day. */
  predicate TimeOfDay(d: Date) {
    0 <= d.hr < 24 && 0 <= d.mn < 60
  }

  lemma {:induction false} CarryKeepsMinutes(d: Date)
    requires 0 <= d.mo <= 12
    ensures CarryDays(d).mo >= 1 ==> Minutes(CarryDays(d)) == Minutes(AsMonth(d))
    ensures Valid(CarryDays(d)) <==> 1 <= d.dy && TimeOfDay(d)
    decreases d.mo == 0, d.dy
  {
    if d.mo == 0 {
      if d.dy > 0 { CarryKeepsMinutes(d.(mo := 1)); }
    } else if d.dy > MonthDays(d.yr, d.mo) {
      MonthStep(d.yr, d.mo);
      CarryKeepsMinutes(OneCarry(d));
    }
  }

  /** Nothing falls below its unit: a check on the sums alone. */
  predicate NoneBelow(start: Date, off: Date) {
    && 0 <= start.mn + off.mn
    && 0 <= start.hr + off.hr + CarriedMinutes(start, off)
    && 1 <= start.dy + off.dy + CarriedHours(start, off)
  }

  lemma SummedIsExact(start: Date, off: Date)
    requires Valid(start) && MonthsAdd(start, off)
    ensures 0 <= Summed(start, off).mo <= 12 && 1 <= Shifted(start, off).mo <= 12
    ensures Minutes(AsMonth(Summed(start, off))) == Minutes(Shifted(start, off)) + (off.dy * 24 + off.hr) * 60 + off.mn
    ensures NoneBelow(start, off) <==> 1 <= Summed(start, off).dy && TimeOfDay(Summed(start, off))
  {
  }

  /** The result is exactly the offset's days, hours and minutes after the start as shifted by the offset's
      years and months (month 0 stays month 0 only if there is no day to carry); and it is a valid date exactly
      when no sum falls below its unit. */
  lemma AddTimeIsExact(start: Date, off: Date)
    requires Valid(start) && MonthsAdd(start, off)
    ensures 1 <= Shifted(start, off).mo <= 12
    ensures AddTime(start, off).mo == 0 <==> start.mo + off.mo == 0 && start.dy + off.dy + CarriedHours(start, off) <= 0
    ensures AddTime(start, off).mo >= 1 ==>
              Minutes(AddTime(start, off)) == Minutes(Shifted(start, off)) + (off.dy * 24 + off.hr) * 60 + off.mn
    ensures Valid(AddTime(start, off)) <==> NoneBelow(start, off)
  {
    SummedIsExact(start, off);
    CarryKeepsMinutes(Summed(start, off));
  }

  /** In particular for every offset without a negative part. */
  lemma NonNegativeOffsets(start: Date, off: Date)
    requires Valid(start) && off.mo >= 0 && off.dy >= 0 && off.hr >= 0 && off.mn >= 0
    ensures Valid(AddTime(start, off))
  {
    AddTimeIsExact(start, off);
  }

  /** No months or years are added. */
  lemma NoShift(start: Date)
    requires Valid(start)
    ensures forall h :: Shifted(start, Hours(h)) == start
  {
  }

  lemma AddHoursIsExact(start: Date, h: nat)
    requires Valid(start)
    ensures HoursLater(start, h, AddTime(start, Hours(h)))
  {
    AddTimeIsExact(start, Hours(h));
    NonNegativeOffsets(start, Hours(h));
    NoShift(start);
  }

  /** Adding hours to a date gives the one valid date that many hours later. */
  lemma AddHoursIsTheOnlyAnswer(start: Date, h: nat, end: Date)
    requires Valid(start)
    ensures end == AddTime(start, Hours(h)) <==> HoursLater(start, h, end)
  {
    AddHoursIsExact(start, h);
    if HoursLater(start, h, end) { HoursLaterIsUnique(start, h, end, AddTime(start, Hours(h))); }
  }

  lemma AddingHoursComposes(start: Date, h1: nat, h2: nat)
    requires Valid(start)
    ensures Valid(AddTime(start, Hours(h1)))
    ensures AddTime(AddTime(start, Hours(h1)), Hours(h2)) == AddTime(start, Hours(h1 + h2))
  {
    AddHoursIsExact(start, h1);
    var mid := AddTime(start, Hours(h1));
    AddHoursIsExact(mid, h2);
    var end := AddTime(mid, Hours(h2));
    AddHoursIsExact(start, h1 + h2);
    HoursLaterAdds(start, h1, mid, h2, end, AddTime(start, Hours(h1 + h2)));
  }

  lemma AddingHoursIsIncreasing(start: Date, h1: nat, h2: nat)
    requires Valid(start)
    ensures Before(AddTime(start, Hours(h1)), AddTime(start, Hours(h2))) <==> h1 < h2
  {
    AddHoursIsExact(start, h1);
    AddHoursIsExact(start, h2);
    MinutesAreCanonical(AddTime(start, Hours(h1)), AddTime(start, Hours(h2)));
  }

  /** Interval end times of consecutive forecast steps are six hours apart. */
  lemma ForecastEndsAreSixHoursApart(start: Date, step: nat)
    requires Valid(start)
    ensures Valid(AddTime(start, Hours(6 * step)))
    ensures AddTime(start, Hours(6 * step + 6)) == AddTime(AddTime(start, Hours(6 * step)), Hours(6))
    ensures Valid(AddTime(start, Hours(6 * step + 6)))
    ensures Minutes(AddTime(start, Hours(6 * step + 6))) - Minutes(AddTime(start, Hours(6 * step))) == 360
  {
    EndsAreApart(start, 6 * step, 6);
  }

  lemma EndsAreApart(start: Date, h: nat, more: nat)
    requires Valid(start)
    ensures Valid(AddTime(start, Hours(h))) && Valid(AddTime(start, Hours(h + more)))
    ensures AddTime(start, Hours(h + more)) == AddTime(AddTime(start, Hours(h)), Hours(more))
    ensures Minutes(AddTime(start, Hours(h + more))) - Minutes(AddTime(start, Hours(h))) == 60 * more
  {
    LaterEnd(start, h, more);
    AddingHoursComposes(start, h, more);
  }

  lemma LaterEnd(start: Date, h: nat, more: nat)
    requires Valid(start)
    ensures Valid(AddTime(start, Hours(h))) && Valid(AddTime(start, Hours(h + more)))
    ensures Minutes(AddTime(start, Hours(h + more))) - Minutes(AddTime(start, Hours(h))) == 60 * more
  {
    AddHoursIsExact(start, h);
    AddHoursIsExact(start, h + more);
    LaterByTheDifference(start, h, AddTime(start, Hours(h)), more, AddTime(start, Hours(h + more)));
  }

  lemma LaterByTheDifference(start: Date, h: int, a: Date, more: int, b: Date)
    requires Valid(start) && HoursLater(start, h, a) && HoursLater(start, h + more, b)
    ensures Minutes(b) - Minutes(a) == 60 * more
  {
  }

  // ----- The code -----

  /** C division: truncation toward zero. */
  function CDiv(a: int, b: int): int
    requires b > 0
  {
    if a >= 0 then a / b else -(-a / b)
  }

  lemma TruncatedQuotient(year: int)
    ensures CDiv(year, 4) * 4 == year <==> year % 4 == 0
    ensures CDiv(year, 100) * 100 == year <==> year % 100 == 0
    ensures CDiv(year, 400) * 400 == year <==> year % 400 == 0
  {
    Negated(year, 4);
    Negated(year, 100);
    Negated(year, 400);
  }

  lemma Negated(year: int, b: int)
    requires b == 4 || b == 100 || b == 400
    ensures -year % b == 0 <==> year % b == 0
  {
  }

  /** `qleap` tests divisibility by multiplying a truncated quotient back; it is the Gregorian rule for
      every year, negative ones included. */
  function QLeap(year: int): (r: int)
    ensures r == (if Leap(year) then 1 else 0)
  {
    TruncatedQuotient(year);
    CenturiesAreNested(year);
    if CDiv(year, 4) * 4 - year != 0 then 0
    else if CDiv(year, 100) * 100 - year != 0 then 1
    else if CDiv(year, 400) * 400 - year != 0 then 0
    else 1
  }

  const MOSIZ: seq<int> := [0, 31, 28, 31, 30, 31, 30, 31, 31, 30, 31, 30, 31]

  /** `struct dt`. */
  class Dt {
    var yr: int
    var mo: int
    var dy: int
    var hr: int
    var mn: int

    constructor (d: Date)
      ensures Value() == d
    {
      yr, mo, dy, hr, mn := d.yr, d.mo, d.dy, d.hr, d.mn;
    }

    function Value(): Date
      reads this
    {
      Date(yr, mo, dy, hr, mn)
    }
  }

  /** The table of month lengths, with the leap-year exception, says when one more month is carried. */
  lemma CarryStep(d: Date)
    requires 1 <= d.mo <= 12
    ensures MonthDays(d.yr, d.mo) == if d.mo == 2 && QLeap(d.yr) != 0 then 29 else MOSIZ[d.mo]
    ensures CarryDays(d) == if d.dy <= MonthDays(d.yr, d.mo) then d else CarryDays(OneCarry(d))
  {
  }

  /** `timeAdd`: adds the date `dtim` to the offset `dto`, leaving the sum in `dto`. The two may be the same
      object. */
  method TimeAdd(dtim: Dt, dto: Dt)
    requires Valid(dtim.Value()) && MonthsAdd(dtim.Value(), dto.Value())
    modifies dto
    ensures dto.Value() == AddTime(old(dtim.Value()), old(dto.Value()))
  {
    dto.mo := dto.mo + dtim.mo;
    dto.yr := dto.yr + dtim.yr;
    while dto.mo > 12
      invariant dto.mo >= 0 && (dto.yr > old(dtim.yr + dto.yr) ==> dto.mo >= 1)
      invariant dto.yr >= old(dtim.yr + dto.yr)
      invariant dto.mo + 12 * dto.yr == old(dtim.mo + dto.mo) + 12 * old(dtim.yr + dto.yr)
      invariant dto.dy == old(dto.dy) && dto.hr == old(dto.hr) && dto.mn == old(dto.mn)
    {
      dto.mo := dto.mo - 12;
      dto.yr := dto.yr + 1;
    }

    dto.mn := dto.mn + dtim.mn;
    dto.hr := dto.hr + dtim.hr;
    dto.dy := dto.dy + dtim.dy;
    if dto.mn > 59 {
      var i := dto.mn / 60;
      dto.hr := dto.hr + i;
      dto.mn := dto.mn - i * 60;
    }
    if dto.hr > 23 {
      var i := dto.hr / 24;
      dto.dy := dto.dy + i;
      dto.hr := dto.hr - i * 24;
    }
    assert dto.Value() == Summed(old(dtim.Value()), old(dto.Value()));
    CarryInPlace(dto);
  }

  /** What one turn of the loop carries: nothing but the month from month 0. */
  function OneTurn(d: Date): Date
    requires 0 <= d.mo <= 12
  {
    if d.mo == 0 then d.(mo := 1) else OneCarry(d)
  }

  /** The table of month lengths, with the leap-year exception, says when a turn carries. */
  lemma TurnStep(d: Date)
    requires 0 <= d.mo <= 12
    ensures var size := if d.mo == 2 && QLeap(d.yr) != 0 then 29 else MOSIZ[d.mo];
            CarryDays(d) == if d.dy <= size then d else CarryDays(OneTurn(d))
  {
    if d.mo >= 1 { CarryStep(d); }
  }

  /** The loop that ends `timeAdd`. */
  method CarryInPlace(dto: Dt)
    requires 0 <= dto.mo <= 12
    modifies dto
    ensures dto.Value() == CarryDays(old(dto.Value()))
  {
    var cont := true;
    while dto.dy > MOSIZ[dto.mo] && cont
      invariant 0 <= dto.mo <= 12
      invariant CarryDays(dto.Value()) == CarryDays(old(dto.Value()))
      invariant !cont ==> dto.Value() == CarryDays(dto.Value())
      decreases cont, dto.mo == 0, dto.dy
    {
      ghost var before := dto.Value();
      TurnStep(before);
      if dto.mo == 2 && QLeap(dto.yr) != 0 {
        if dto.dy == 29 {
          cont := false;
        } else {
          dto.dy := dto.dy - 29;
          dto.mo := dto.mo + 1;
        }
      } else {
        dto.dy := dto.dy - MOSIZ[dto.mo];
        dto.mo := dto.mo + 1;
      }
      while dto.mo > 12
        invariant 1 <= dto.mo <= 13
        invariant dto.mo <= 12 ==> dto.Value() == if cont then OneTurn(before) else before
        invariant dto.mo == 13 ==> cont && dto.Value().(yr := dto.yr + 1, mo := 1) == OneTurn(before)
      {
        dto.mo := dto.mo - 12;
        dto.yr := dto.yr + 1;
      }
    }
    TurnStep(dto.Value());
  }
}
