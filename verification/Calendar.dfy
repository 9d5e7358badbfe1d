/** Calendar arithmetic behind session timestamps (rfc3339_from_unix in src/server/src/acp/mod.rs). */
module Calendar {
  const SECONDS_PER_DAY: nat := 86_400

  // ---- the Gregorian calendar, day by day --------------------------------------------

  datatype Date = Date(year: int, month: int, day: int)

  predicate Leap(year: int) {
    year % 4 == 0 && (year % 100 == 0 ==> year % 400 == 0)
  }

  /** The maximum mday of RFC 3339, section 5.7 and appendix C. */
  function DaysInMonth(year: int, month: int): int {
    if month == 2 then (if Leap(year) then 29 else 28)
    else if month == 4 || month == 6 || month == 9 || month == 11 then 30
    else 31
  }

  predicate IsDate(d: Date) {
    0 <= d.year && 1 <= d.month <= 12 && 1 <= d.day <= DaysInMonth(d.year, d.month)
  }

  function Tomorrow(d: Date): Date {
    if d.day < DaysInMonth(d.year, d.month) then Date(d.year, d.month, d.day + 1)
    else if d.month < 12 then Date(d.year, d.month + 1, 1)
    else Date(d.year + 1, 1, 1)
  }

  /** The date reached from 1 January 1970 by turning the calendar one day at a time. */
  function DateOfDay(n: nat): Date {
    if n == 0 then Date(1970, 1, 1) else Tomorrow(DateOfDay(n - 1))
  }

  // ---- the closed form ------------------------------------------------------------------

  /** Year of a 400-year era that starts on 1 March, from the day of the era. */
  function YearOfEra(doe: nat): int {
    (doe - doe / 1460 + doe / 36524 - doe / 146_096) / 365
  }

  /** First day of a year of the era. */
  function YearStart(yoe: int): int {
    365 * yoe + yoe / 4 - yoe / 100
  }

  function MonthFromMarch(doy: int): int {
    (5 * doy + 2) / 153
  }

  function MonthStart(mp: int): int {
    (153 * mp + 2) / 5
  }

  function CivilFromDays(days: nat): Date {
    var z := days + 719_468;
    FromEra(z / 146_097, z % 146_097)
  }

  function FromEra(era: nat, doe: nat): Date {
    var yoe := YearOfEra(doe);
    FromYear(era * 400 + yoe, doe - YearStart(yoe))
  }

  /** Date of a day counted from 1 March of a year. */
  function FromYear(y: int, doy: int): Date {
    var mp := MonthFromMarch(doy);
    var d := doy - MonthStart(mp) + 1;
    var m := if mp < 10 then mp + 3 else mp - 9;
    Date(if m <= 2 then y + 1 else y, m, d)
  }

  // ---- it is the calendar -----------------------------------------------------------------

  /**
   * An odometer for days: 400-year era, century, four years, year, month from March, day from 0.
   * Each wheel is full except that a century's last four years and February are short of a day
   * unless the year is a leap year.
   */
  datatype Wheels = Wheels(era: nat, century: nat, fours: nat, year: nat, month: nat, day: nat) {
    predicate LeapYear() { year == 3 && (fours < 24 || century == 3) }

    function MonthLength(): nat {
      if month == 11 then (if LeapYear() then 29 else 28)
      else if month == 1 || month == 3 || month == 6 || month == 8 then 30
      else 31
    }

    predicate Valid() { century <= 3 && fours <= 24 && year <= 3 && month <= 11 && day < MonthLength() }

    function FirstOfMonth(): nat
      requires month <= 11
    {
      [0, 31, 61, 92, 122, 153, 184, 214, 245, 275, 306, 337][month]
    }

    /** Days since the last 1 March. */
    function DayOfYear(): nat
      requires month <= 11
    {
      FirstOfMonth() + day
    }

    /** Days since 1 March of year 0. */
    function DayNumber(): nat
      requires month <= 11
    {
      146_097 * era + 36_524 * century + 1461 * fours + 365 * year + DayOfYear()
    }

    function ToDate(): Date {
      var y := 400 * era + 100 * century + 4 * fours + year;
      if month < 10 then Date(y, month + 3, day + 1) else Date(y + 1, month - 9, day + 1)
    }

    function Turn(): Wheels {
      if day + 1 < MonthLength() then Wheels(era, century, fours, year, month, day + 1)
      else if month < 11 then Wheels(era, century, fours, year, month + 1, 0)
      else if year < 3 then Wheels(era, century, fours, year + 1, 0, 0)
      else if fours < 24 then Wheels(era, century, fours + 1, 0, 0, 0)
      else if century < 3 then Wheels(era, century + 1, 0, 0, 0, 0)
      else Wheels(era + 1, 0, 0, 0, 0, 0)
    }
  }

  lemma LeapWheel(w: Wheels)
    requires w.Valid()
    ensures Leap(400 * w.era + 100 * w.century + 4 * w.fours + w.year + 1) <==> w.LeapYear()
  {
    var y := 400 * w.era + 100 * w.century + 4 * w.fours + w.year + 1;
    assert y == 4 * (w.era * 100 + 25 * w.century + w.fours) + (w.year + 1);
    if w.year == 3 {
      assert y == 100 * (w.era * 4 + w.century) + 4 * (w.fours + 1);
      if w.fours == 24 {
        assert y == 400 * w.era + 100 * (w.century + 1);
      }
    }
  }

  /** Turning the odometer turns the calendar. */
  lemma TurnIsTomorrow(w: Wheels)
    requires w.Valid()
    ensures w.Turn().Valid() && w.Turn().DayNumber() == w.DayNumber() + 1
    ensures IsDate(w.ToDate()) && w.Turn().ToDate() == Tomorrow(w.ToDate())
  {
    LeapWheel(w);
  }

  /** The odometer after n days. */
  function WheelsOfDay(n: nat): Wheels {
    if n == 0 then Wheels(4, 3, 17, 1, 10, 0) else WheelsOfDay(n - 1).Turn()
  }

  lemma {:induction false} WheelsFollowCalendar(n: nat)
    ensures WheelsOfDay(n).Valid() && WheelsOfDay(n).DayNumber() == n + 719_468
    ensures WheelsOfDay(n).ToDate() == DateOfDay(n) && IsDate(DateOfDay(n))
  {
    if n > 0 {
      WheelsFollowCalendar(n - 1);
      TurnIsTomorrow(WheelsOfDay(n - 1));
    }
    TurnIsTomorrow(WheelsOfDay(n));
  }

  /** The year formula, with its 1460, 36524 and 146096, reads off the year wheels. */
  lemma YearFormula(c: nat, q: nat, t: nat, doy: nat)
    requires c <= 3 && q <= 24 && t <= 3 && doy <= (if t == 3 && (q < 24 || c == 3) then 365 else 364)
    ensures YearOfEra(36_524 * c + 1461 * q + 365 * t + doy) == 100 * c + 4 * q + t
  {
    var doe := 36_524 * c + 1461 * q + 365 * t + doy;
    var isLast := if c == 3 && q == 24 && t == 3 && doy == 365 then 1 else 0;
    assert doe / 36_524 == c + isLast;
    assert doe / 146_096 == isLast;
    var e := if 1460 <= 24 * c + q + 365 * t + doy then 1 else 0;
    assert doe == 1460 * (25 * c + q + e) + (24 * c + q + 365 * t + doy - 1460 * e);
    assert doe / 1460 == 25 * c + q + e;
    assert doe - doe / 1460 + doe / 36_524 - doe / 146_096 == 365 * (100 * c + 4 * q + t) + (doy - e);
  }

  lemma StartFormula(c: nat, q: nat, t: nat)
    requires c <= 3 && q <= 24 && t <= 3
    ensures YearStart(100 * c + 4 * q + t) == 36_524 * c + 1461 * q + 365 * t
  {
    var yoe := 100 * c + 4 * q + t;
    assert yoe / 4 == 25 * c + q && yoe / 100 == c;
  }

  /** The month formula, with its 153 and 5, reads off the month wheel. */
  lemma MonthFormula(w: Wheels)
    requires w.Valid()
    ensures MonthFromMarch(w.DayOfYear()) == w.month
    ensures MonthStart(w.month) == w.FirstOfMonth()
  {
  }

  lemma FormulaReadsWheels(w: Wheels)
    requires w.Valid()
    ensures var doe := 36_524 * w.century + 1461 * w.fours + 365 * w.year + w.DayOfYear();
      doe < 146_097 && FromEra(w.era, doe) == w.ToDate()
  {
    DateInYear(w);
    EraFormula(w.era, w.century, w.fours, w.year, w.DayOfYear());
  }

  lemma EraFormula(era: nat, c: nat, q: nat, t: nat, doy: nat)
    requires c <= 3 && q <= 24 && t <= 3 && doy <= (if t == 3 && (q < 24 || c == 3) then 365 else 364)
    ensures var doe := 36_524 * c + 1461 * q + 365 * t + doy;
      doe < 146_097 && FromEra(era, doe) == FromYear(400 * era + 100 * c + 4 * q + t, doy)
  {
    YearFormula(c, q, t, doy);
    StartFormula(c, q, t);
    assert era * 400 == 400 * era;
  }

  lemma DateInYear(w: Wheels)
    requires w.Valid()
    ensures FromYear(400 * w.era + 100 * w.century + 4 * w.fours + w.year, w.DayOfYear()) == w.ToDate()
    ensures w.DayOfYear() <= if w.LeapYear() then 365 else 364
  {
    MonthFormula(w);
  }

  /** The closed form is the calendar: day 0 is 1 January 1970 and each day's date follows the last. */
  lemma CivilIsCalendar(n: nat)
    ensures CivilFromDays(n) == DateOfDay(n) && IsDate(DateOfDay(n))
  {
    WheelsFollowCalendar(n);
    var w := WheelsOfDay(n);
    FormulaReadsWheels(w);
    assert (n + 719_468) / 146_097 == w.era && (n + 719_468) % 146_097 == n + 719_468 - 146_097 * w.era;
  }

  // ---- rendering -------------------------------------------------------------------------

  function Digit(n: nat): char
    requires n < 10
  {
    '0' + n as char
  }

  /** Decimal digits of n, padded with zeros on the left to at least width digits. */
  function Padded(n: nat, width: nat): string
    decreases n + width
  {
    if n < 10 && width <= 1 then [Digit(n)]
    else Padded(n / 10, if width > 1 then width - 1 else 0) + [Digit(n % 10)]
  }

  datatype Field = Field(width: nat, after: string)

  const FORMAT := [Field(4, "-"), Field(2, "-"), Field(2, "T"), Field(2, ":"), Field(2, ":"), Field(2, "."),
                   Field(3, "Z")]

  function Text(values: seq<nat>, format: seq<Field>): string
    requires |values| == |format|
  {
    if values == [] then ""
    else Padded(values[0], format[0].width) + (format[0].after + Text(values[1..], format[1..]))
  }

  function Values(date: Date, time: nat, millis: nat): (values: seq<nat>)
    requires IsDate(date)
    ensures |values| == 7
  {
    [date.year, date.month, date.day, time / 3600, time % 3600 / 60, time % 60, millis]
  }

  function Rfc3339(secs: nat, millis: nat): string {
    CivilIsCalendar(secs / SECONDS_PER_DAY);
    Text(Values(CivilFromDays(secs / SECONDS_PER_DAY), secs % SECONDS_PER_DAY, millis), FORMAT)
  }

  // ---- string order ------------------------------------------------------------------------

  /** Order of strings by their first difference. */
  predicate Before(s: string, t: string) {
    t != "" && (s == "" || s[0] < t[0] || (s[0] == t[0] && Before(s[1..], t[1..])))
  }

  lemma {:induction false} BeforeIsStrict(s: string, t: string)
    requires Before(s, t)
    ensures s != t && !Before(t, s)
  {
    if s != "" && s[0] == t[0] {
      BeforeIsStrict(s[1..], t[1..]);
    }
  }

  /** A difference among equally long heads decides; equal heads leave it to the tails. */
  lemma {:induction false} BeforeByHead(s: string, t: string, s': string, t': string)
    requires |s| == |t|
    requires Before(s, t) || (s == t && Before(s', t'))
    ensures Before(s + s', t + t')
  {
    if s == "" {
      assert s + s' == s' && t + t' == t';
    } else {
      assert (s + s')[1..] == s[1..] + s' && (t + t')[1..] == t[1..] + t';
      if s[0] == t[0] {
        BeforeByHead(s[1..], t[1..], s', t');
      }
    }
  }

  function Pow10(k: nat): nat {
    if k == 0 then 1 else 10 * Pow10(k - 1)
  }

  lemma {:induction false} PaddedLength(n: nat, width: nat)
    requires 0 < width && n < Pow10(width)
    ensures |Padded(n, width)| == width
    decreases width
  {
    if width > 1 {
      PaddedLength(n / 10, width - 1);
    }
  }

  lemma {:induction false} PaddedOrder(m: nat, n: nat, width: nat)
    requires m < n && |Padded(m, width)| == |Padded(n, width)|
    ensures Before(Padded(m, width), Padded(n, width))
    decreases n + width
  {
    if n < 10 && width <= 1 {
    } else if m < 10 && width <= 1 {
      assert false;
    } else {
      var w := if width > 1 then width - 1 else 0;
      if m / 10 < n / 10 {
        PaddedOrder(m / 10, n / 10, w);
      }
      BeforeByHead(Padded(m / 10, w), Padded(n / 10, w), [Digit(m % 10)], [Digit(n % 10)]);
    }
  }

  predicate LexLess(a: seq<nat>, b: seq<nat>)
    requires |a| == |b|
  {
    a != [] && (a[0] < b[0] || (a[0] == b[0] && LexLess(a[1..], b[1..])))
  }

  /** Each value takes the same room in both texts. */
  ghost predicate SameWidths(a: seq<nat>, b: seq<nat>, format: seq<Field>)
    requires |a| == |b| == |format|
  {
    forall k | 0 <= k < |a| :: |Padded(a[k], format[k].width)| == |Padded(b[k], format[k].width)|
  }

  lemma {:induction false} TextOrder(a: seq<nat>, b: seq<nat>, format: seq<Field>)
    requires |a| == |b| == |format| && SameWidths(a, b, format) && LexLess(a, b)
    ensures Before(Text(a, format), Text(b, format))
  {
    var f, a', b' := format[0], Text(a[1..], format[1..]), Text(b[1..], format[1..]);
    if a[0] < b[0] {
      PaddedOrder(a[0], b[0], f.width);
    } else {
      TextOrder(a[1..], b[1..], format[1..]);
      BeforeByHead(f.after, f.after, a', b');
    }
    BeforeByHead(Padded(a[0], f.width), Padded(b[0], f.width), f.after + a', f.after + b');
  }

  // ---- chronological order ----------------------------------------------------------------------

  lemma {:induction false} DatesIncrease(m: nat, n: nat)
    requires m < n
    ensures EarlierDate(DateOfDay(m), DateOfDay(n))
  {
    if m < n - 1 {
      DatesIncrease(m, n - 1);
    }
  }

  lemma {:induction false} LexAt(a: seq<nat>, b: seq<nat>, k: nat)
    requires |a| == |b| && k < |a| && a[..k] == b[..k] && a[k] < b[k]
    ensures LexLess(a, b)
  {
    if k > 0 {
      assert a[0] == a[..k][0] == b[..k][0] == b[0];
      assert a[1..][..k - 1] == a[..k][1..] == b[..k][1..] == b[1..][..k - 1];
      LexAt(a[1..], b[1..], k - 1);
    }
  }

  predicate EarlierDate(d: Date, e: Date) {
    d.year < e.year || (d.year == e.year && (d.month < e.month || (d.month == e.month && d.day < e.day)))
  }

  predicate Earlier(secs: nat, millis: nat, secs': nat, millis': nat) {
    secs < secs' || (secs == secs' && millis < millis')
  }

  lemma ValuesIncrease(d: Date, time: nat, millis: nat, d': Date, time': nat, millis': nat)
    requires IsDate(d) && IsDate(d')
    requires EarlierDate(d, d') || (d == d' && Earlier(time, millis, time', millis'))
    ensures LexLess(Values(d, time, millis), Values(d', time', millis'))
  {
    var v, v' := Values(d, time, millis), Values(d', time', millis');
    if d != d' {
      LexAt(v, v', if v[0] < v'[0] then 0 else if v[1] < v'[1] then 1 else 2);
    } else if time < time' {
      ClockIncreases(time, time');
      LexAt(v, v', if v[3] < v'[3] then 3 else if v[4] < v'[4] then 4 else 5);
    } else {
      LexAt(v, v', 6);
    }
  }

  lemma ClockIncreases(time: nat, time': nat)
    requires time < time'
    ensures time / 3600 < time' / 3600 || (time / 3600 == time' / 3600 &&
      (time % 3600 / 60 < time' % 3600 / 60 || (time % 3600 / 60 == time' % 3600 / 60 && time % 60 < time' % 60)))
  {
    assert time % 3600 % 60 == time % 60 && time' % 3600 % 60 == time' % 60 by {
      assert time == 60 * (60 * (time / 3600) + time % 3600 / 60) + time % 3600 % 60;
      assert time' == 60 * (60 * (time' / 3600) + time' % 3600 / 60) + time' % 3600 % 60;
    }
  }

  /** The timestamp by the day-by-day calendar. */
  function Stamp(secs: nat, millis: nat): string {
    WheelsFollowCalendar(secs / SECONDS_PER_DAY);
    Text(Values(DateOfDay(secs / SECONDS_PER_DAY), secs % SECONDS_PER_DAY, millis), FORMAT)
  }

  function Year(secs: nat): nat {
    WheelsFollowCalendar(secs / SECONDS_PER_DAY);
    DateOfDay(secs / SECONDS_PER_DAY).year
  }

  lemma RenderedByCalendar(secs: nat, millis: nat)
    ensures Rfc3339(secs, millis) == Stamp(secs, millis)
  {
    CivilIsCalendar(secs / SECONDS_PER_DAY);
  }

  /** Times of day and milliseconds fit their fields. */
  lemma WidthsMatch(d: Date, time: nat, millis: nat, d': Date, time': nat, millis': nat)
    requires IsDate(d) && time < SECONDS_PER_DAY && millis < 1000
    requires IsDate(d') && time' < SECONDS_PER_DAY && millis' < 1000
    requires |Padded(d.year, 4)| == |Padded(d'.year, 4)|
    ensures SameWidths(Values(d, time, millis), Values(d', time', millis'), FORMAT)
  {
    assert Pow10(2) == 100 && Pow10(3) == 1000;
    var v, v' := Values(d, time, millis), Values(d', time', millis');
    forall k | 1 <= k < 7 ensures |Padded(v[k], FORMAT[k].width)| == |Padded(v'[k], FORMAT[k].width)| {
      PaddedLength(v[k], FORMAT[k].width);
      PaddedLength(v'[k], FORMAT[k].width);
    }
  }

  /**
   * Between years with equally many digits the string order of timestamps is the order of the
   * instants, to the millisecond, and different instants never share a timestamp.
   */
  lemma OrderIsChronological(secs: nat, millis: nat, secs': nat, millis': nat)
    requires millis < 1000 && millis' < 1000 && |Padded(Year(secs), 4)| == |Padded(Year(secs'), 4)|
    ensures Before(Rfc3339(secs, millis), Rfc3339(secs', millis')) <==> Earlier(secs, millis, secs', millis')
    ensures Rfc3339(secs, millis) == Rfc3339(secs', millis') ==> secs == secs' && millis == millis'
  {
    RenderedByCalendar(secs, millis);
    RenderedByCalendar(secs', millis');
    StampOrder(secs, millis, secs', millis');
  }

  lemma StampOrder(secs: nat, millis: nat, secs': nat, millis': nat)
    requires millis < 1000 && millis' < 1000 && |Padded(Year(secs), 4)| == |Padded(Year(secs'), 4)|
    ensures Before(Stamp(secs, millis), Stamp(secs', millis')) <==> Earlier(secs, millis, secs', millis')
    ensures Stamp(secs, millis) == Stamp(secs', millis') ==> secs == secs' && millis == millis'
  {
    if Earlier(secs, millis, secs', millis') {
      LaterSortsAfter(secs, millis, secs', millis');
    } else if Earlier(secs', millis', secs, millis) {
      LaterSortsAfter(secs', millis', secs, millis);
    } else if Before(Stamp(secs, millis), Stamp(secs', millis')) {
      BeforeIsStrict(Stamp(secs, millis), Stamp(secs', millis'));
    }
  }

  lemma DayAndTime(secs: nat, secs': nat)
    requires secs <= secs'
    ensures secs / SECONDS_PER_DAY <= secs' / SECONDS_PER_DAY
    ensures secs / SECONDS_PER_DAY == secs' / SECONDS_PER_DAY ==>
      secs' % SECONDS_PER_DAY - secs % SECONDS_PER_DAY == secs' - secs
  {
  }

  lemma LaterSortsAfter(secs: nat, millis: nat, secs': nat, millis': nat)
    requires millis < 1000 && millis' < 1000 && |Padded(Year(secs), 4)| == |Padded(Year(secs'), 4)|
    requires Earlier(secs, millis, secs', millis')
    ensures Before(Stamp(secs, millis), Stamp(secs', millis')) && !Before(Stamp(secs', millis'), Stamp(secs, millis))
    ensures Stamp(secs, millis) != Stamp(secs', millis')
  {
    var day, day' := secs / SECONDS_PER_DAY, secs' / SECONDS_PER_DAY;
    WheelsFollowCalendar(day);
    WheelsFollowCalendar(day');
    DayAndTime(secs, secs');
    if day < day' {
      DatesIncrease(day, day');
    }
    TimestampsIncrease(DateOfDay(day), secs % SECONDS_PER_DAY, millis, DateOfDay(day'), secs' % SECONDS_PER_DAY,
                       millis');
    BeforeIsStrict(Stamp(secs, millis), Stamp(secs', millis'));
  }

  lemma TimestampsIncrease(d: Date, time: nat, millis: nat, d': Date, time': nat, millis': nat)
    requires IsDate(d) && time < SECONDS_PER_DAY && millis < 1000
    requires IsDate(d') && time' < SECONDS_PER_DAY && millis' < 1000
    requires |Padded(d.year, 4)| == |Padded(d'.year, 4)|
    requires EarlierDate(d, d') || (d == d' && Earlier(time, millis, time', millis'))
    ensures Before(Text(Values(d, time, millis), FORMAT), Text(Values(d', time', millis'), FORMAT))
  {
    ValuesIncrease(d, time, millis, d', time', millis');
    WidthsMatch(d, time, millis, d', time', millis');
    TextOrder(Values(d, time, millis), Values(d', time', millis'), FORMAT);
  }

  // ---- until year 10000 ------------------------------------------------------------------------------

  /** The first second of 1 January 10000. */
  const YEAR_10000: nat := 253_402_300_800

  /** Sorting timestamps of instants before the bound as strings sorts them by time. */
  ghost predicate SortsByTimeBelow(bound: nat) {
    forall secs: nat, millis: nat, secs': nat, millis': nat |
      secs < bound && secs' < bound && millis < 1000 && millis' < 1000 ::
      Before(Rfc3339(secs, millis), Rfc3339(secs', millis')) <==> Earlier(secs, millis, secs', millis')
  }

  lemma NewYear10000(day: nat)
    requires day == YEAR_10000 / SECONDS_PER_DAY
    ensures DateOfDay(day) == Date(10000, 1, 1) && DateOfDay(day - 1) == Date(9999, 12, 31)
  {
    NewYearByFormula(day);
    WheelsFollowCalendar(day - 1);
  }

  lemma NewYearByFormula(day: nat)
    requires day == YEAR_10000 / SECONDS_PER_DAY
    ensures DateOfDay(day) == Date(10000, 1, 1)
  {
    WheelsFollowCalendar(day);
    WheelsAtNewYear(WheelsOfDay(day), day + 719_468);
  }

  lemma WheelsAtNewYear(w: Wheels, n: nat)
    requires w.Valid() && w.DayNumber() == n == YEAR_10000 / SECONDS_PER_DAY + 719_468
    ensures w.ToDate() == Date(10000, 1, 1)
  {
    FormulaReadsWheels(w);
    FormulaReadsWheels(Wheels(24, 3, 24, 3, 10, 0));
    assert w.era == 24;
  }

  lemma FourDigitYear(secs: nat)
    requires secs < YEAR_10000
    ensures |Padded(Year(secs), 4)| == 4
  {
    var day, newYear := secs / SECONDS_PER_DAY, YEAR_10000 / SECONDS_PER_DAY;
    NewYear10000(newYear);
    WheelsFollowCalendar(day);
    DatesIncrease(day, newYear);
    assert Pow10(4) == 10000;
    PaddedLength(Year(secs), 4);
  }

  /** Sessions sort chronologically as strings exactly until year 10000, which then sorts before year 9999. */
  lemma SortsByTimeUntilYear10000(bound: nat)
    ensures SortsByTimeBelow(bound) <==> bound <= YEAR_10000
  {
    if bound <= YEAR_10000 {
      forall secs: nat, millis: nat, secs': nat, millis': nat |
        secs < bound && secs' < bound && millis < 1000 && millis' < 1000
        ensures Before(Rfc3339(secs, millis), Rfc3339(secs', millis')) <==> Earlier(secs, millis, secs', millis')
      {
        FourDigitYear(secs);
        FourDigitYear(secs');
        OrderIsChronological(secs, millis, secs', millis');
      }
    } else {
      Year10000SortsEarly(YEAR_10000);
      assert Earlier(YEAR_10000 - 1, 0, YEAR_10000, 0);
    }
  }

  lemma Year10000SortsEarly(secs: nat)
    requires secs == YEAR_10000
    ensures !Before(Rfc3339(secs - 1, 0), Rfc3339(secs, 0))
  {
    var day := secs / SECONDS_PER_DAY;
    assert (secs - 1) / SECONDS_PER_DAY == day - 1;
    NewYear10000(day);
    RenderedByCalendar(secs - 1, 0);
    RenderedByCalendar(secs, 0);
    FirstCharacters();
  }

  lemma FirstCharacters()
    ensures Padded(9999, 4)[0] == '9' && Padded(10000, 4)[0] == '1'
  {
    assert Padded(99, 2) == Padded(9, 1) + "9";
    assert Padded(1, 0) == "1" && Padded(10, 1)[0] == '1' && Padded(100, 2)[0] == '1' && Padded(1000, 3)[0] == '1';
  }
}
