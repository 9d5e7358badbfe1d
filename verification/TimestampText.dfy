/** What a session timestamp says (rfc3339_from_unix in src/server/src/acp/mod.rs), read back as decimal text. */
module TimestampText {
  import opened Wrappers
  import opened Calendar

  // ---- reading decimals ------------------------------------------------------------------

  /** The number a run of decimal digits stands for; None when a character is not a digit. */
  function Decimal(s: string): Option<nat> {
    if s == "" then Some(0)
    else
      var init, c := Decimal(s[..|s| - 1]), s[|s| - 1];
      if init.Some? && '0' <= c <= '9' then Some(10 * init.value + (c as int - '0' as int)) else None
  }

  lemma {:induction false} PaddedReads(n: nat, width: nat)
    ensures Decimal(Padded(n, width)) == Some(n)
    ensures 1 <= |Padded(n, width)| && width <= |Padded(n, width)|
    decreases n + width
  {
    if n < 10 && width <= 1 {
      assert [Digit(n)][..0] == "";
    } else {
      var init := Padded(n / 10, if width > 1 then width - 1 else 0);
      PaddedReads(n / 10, if width > 1 then width - 1 else 0);
      assert (init + [Digit(n % 10)])[..|init|] == init;
    }
  }

  // ---- the fields of a text ----------------------------------------------------------------

  /** Where the k-th field starts. */
  function Start(values: seq<nat>, format: seq<Field>, k: nat): nat
    requires |values| == |format| && k <= |values|
  {
    if k == 0 then 0
    else Start(values, format, k - 1) + |Padded(values[k - 1], format[k - 1].width)| + |format[k - 1].after|
  }

  lemma {:induction false} StartTail(values: seq<nat>, format: seq<Field>, k: nat)
    requires |values| == |format| && 0 < k <= |values|
    ensures Start(values, format, k) ==
      |Padded(values[0], format[0].width)| + |format[0].after| + Start(values[1..], format[1..], k - 1)
  {
    if k > 1 {
      StartTail(values, format, k - 1);
    }
  }

  /** The digits stand at lo, with the separator after them. */
  ghost predicate HasField(text: string, lo: nat, digits: string, after: string) {
    var hi := lo + |digits|;
    hi + |after| <= |text| && text[lo..hi] == digits && text[hi..hi + |after|] == after
  }

  lemma FirstField(digits: string, after: string, rest: string)
    ensures HasField(digits + (after + rest), 0, digits, after)
  {
  }

  lemma LaterField(digits: string, after: string, rest: string, lo: nat, digits': string, after': string)
    requires HasField(rest, lo, digits', after')
    ensures HasField(digits + (after + rest), |digits| + |after| + lo, digits', after')
  {
    var head := digits + after;
    assert digits + (after + rest) == head + rest;
    var hi := lo + |digits'|;
    Within(head, rest, lo, hi);
    Within(head, rest, hi, hi + |after'|);
  }

  lemma Within(head: string, tail: string, lo: nat, hi: nat)
    requires lo <= hi <= |tail|
    ensures (head + tail)[|head| + lo..|head| + hi] == tail[lo..hi]
  {
  }

  lemma {:induction false} TextLength(values: seq<nat>, format: seq<Field>)
    requires |values| == |format|
    ensures |Text(values, format)| == Start(values, format, |values|)
  {
    if values != [] {
      TextLength(values[1..], format[1..]);
      StartTail(values, format, |values|);
    }
  }

  lemma {:induction false} FieldText(values: seq<nat>, format: seq<Field>, k: nat)
    requires |values| == |format| && k < |values|
    ensures HasField(Text(values, format), Start(values, format, k),
                     Padded(values[k], format[k].width), format[k].after)
  {
    var digits, after, rest := Padded(values[0], format[0].width), format[0].after, Text(values[1..], format[1..]);
    if k == 0 {
      FirstField(digits, after, rest);
    } else {
      FieldText(values[1..], format[1..], k - 1);
      StartTail(values, format, k);
      LaterField(digits, after, rest, Start(values[1..], format[1..], k - 1),
                 Padded(values[k], format[k].width), format[k].after);
    }
  }

  // ---- what a timestamp says -------------------------------------------------------------------

  /** Between lo and hi stands a number, and after it a separator. */
  ghost predicate FieldIs(s: string, lo: nat, hi: nat, n: nat, separator: char) {
    lo <= hi < |s| && Decimal(s[lo..hi]) == Some(n) && s[hi] == separator
  }

  ghost predicate SaysDate(s: string, n: nat, year: nat, month: nat, day: nat) {
    && FieldIs(s, 0, n, year, '-')
    && FieldIs(s, n + 1, n + 3, month, '-')
    && FieldIs(s, n + 4, n + 6, day, 'T')
  }

  ghost predicate SaysTime(s: string, n: nat, hour: nat, minute: nat, second: nat, millis: nat) {
    && FieldIs(s, n + 7, n + 9, hour, ':')
    && FieldIs(s, n + 10, n + 12, minute, ':')
    && FieldIs(s, n + 13, n + 15, second, '.')
    && FieldIs(s, n + 16, n + 19, millis, 'Z')
  }

  /** The text is a date and a time of day, the year in n digits. */
  ghost predicate Says(s: string, n: nat, date: Date, hour: nat, minute: nat, second: nat, millis: nat)
    requires IsDate(date)
  {
    |s| == n + 20 && SaysDate(s, n, date.year, date.month, date.day) && SaysTime(s, n, hour, minute, second, millis)
  }

  lemma StampFields(values: seq<nat>, k: nat)
    requires |values| == 7 && 1 <= k < 7 && values[1] < 100 && values[2] < 100
    requires values[3] < 100 && values[4] < 100 && values[5] < 100 && values[6] < 1000
    ensures Start(values, FORMAT, k) == |Padded(values[0], 4)| + 3 * k - 2
    ensures |Padded(values[k], FORMAT[k].width)| == if k == 6 then 3 else 2
    ensures |FORMAT[k].after| == 1
  {
    assert Pow10(2) == 100 && Pow10(3) == 1000;
    PaddedLength(values[k], FORMAT[k].width);
    if k > 1 {
      StampFields(values, k - 1);
    } else {
      assert Start(values, FORMAT, 0) == 0;
    }
  }

  lemma FieldReads(values: seq<nat>, k: nat)
    requires |values| == 7 && 1 <= k < 7 && values[1] < 100 && values[2] < 100
    requires values[3] < 100 && values[4] < 100 && values[5] < 100 && values[6] < 1000
    ensures var text, lo := Text(values, FORMAT), |Padded(values[0], 4)| + 3 * k - 2;
      FieldIs(text, lo, lo + if k == 6 then 3 else 2, values[k], "--T::.Z"[k])
  {
    StampFields(values, k);
    FieldText(values, FORMAT, k);
    PaddedReads(values[k], FORMAT[k].width);
    Separators(k);
    ReadField(Text(values, FORMAT), Start(values, FORMAT, k), Padded(values[k], FORMAT[k].width), FORMAT[k].after);
  }

  lemma Separators(k: nat)
    requires k < 7
    ensures FORMAT[k].after == ["--T::.Z"[k]]
  {
  }

  lemma ReadField(text: string, lo: nat, digits: string, after: string)
    requires HasField(text, lo, digits, after) && Decimal(digits).Some? && |after| == 1
    ensures FieldIs(text, lo, lo + |digits|, Decimal(digits).value, after[0])
  {
    var hi := lo + |digits|;
    assert text[hi..hi + 1][0] == text[hi];
  }

  /**
   * Every timestamp says the calendar date of its day, its time of day and its milliseconds; the
   * year takes four digits exactly until year 10000.
   */
  lemma StampSays(secs: nat, millis: nat) returns (n: nat, hour: nat, minute: nat, second: nat)
    requires millis < 1000
    ensures 4 <= n && (n == 4 <==> secs < YEAR_10000)
    ensures hour < 24 && minute < 60 && second < 60 && 3600 * hour + 60 * minute + second == secs % 86_400
    ensures IsDate(DateOfDay(secs / 86_400))
    ensures Says(Rfc3339(secs, millis), n, DateOfDay(secs / 86_400), hour, minute, second, millis)
  {
    RenderedByCalendar(secs, millis);
    var date, time := DateOfDay(secs / SECONDS_PER_DAY), secs % SECONDS_PER_DAY;
    WheelsFollowCalendar(secs / SECONDS_PER_DAY);
    n, hour, minute, second := |Padded(date.year, 4)|, time / 3600, time % 3600 / 60, time % 60;
    ClockSplits(time);
    YearDigits(secs);
    ValuesSay(Values(date, time, millis), date);
  }

  lemma ClockSplits(time: nat)
    requires time < 86_400
    ensures time / 3600 < 24 && 3600 * (time / 3600) + 60 * (time % 3600 / 60) + time % 60 == time
  {
    assert time == 60 * (60 * (time / 3600) + time % 3600 / 60) + time % 3600 % 60;
  }

  lemma ValuesSay(values: seq<nat>, date: Date)
    requires |values| == 7 && values[6] < 1000 && values[3] < 100 && values[4] < 100 && values[5] < 100
    requires IsDate(date) && values[..3] == [date.year, date.month, date.day]
    ensures Says(Text(values, FORMAT), |Padded(values[0], 4)|, date, values[3], values[4], values[5], values[6])
  {
    assert values[0] == date.year && values[1] == date.month && values[2] == date.day;
    YearReads(values);
    DateReads(values);
    TimeReads(values);
  }

  lemma DateReads(values: seq<nat>)
    requires |values| == 7 && values[1] < 100 && values[2] < 100
    requires values[3] < 100 && values[4] < 100 && values[5] < 100 && values[6] < 1000
    ensures SaysDate(Text(values, FORMAT), |Padded(values[0], 4)|, values[0], values[1], values[2])
  {
    YearReads(values);
    FieldReads(values, 1);
    FieldReads(values, 2);
  }

  lemma TimeReads(values: seq<nat>)
    requires |values| == 7 && values[1] < 100 && values[2] < 100
    requires values[3] < 100 && values[4] < 100 && values[5] < 100 && values[6] < 1000
    ensures SaysTime(Text(values, FORMAT), |Padded(values[0], 4)|, values[3], values[4], values[5], values[6])
  {
    FieldReads(values, 3);
    FieldReads(values, 4);
    FieldReads(values, 5);
    FieldReads(values, 6);
  }

  lemma YearReads(values: seq<nat>)
    requires |values| == 7 && values[1] < 100 && values[2] < 100
    requires values[3] < 100 && values[4] < 100 && values[5] < 100 && values[6] < 1000
    ensures FieldIs(Text(values, FORMAT), 0, |Padded(values[0], 4)|, values[0], '-')
    ensures |Text(values, FORMAT)| == |Padded(values[0], 4)| + 20
  {
    StampFields(values, 6);
    TextLength(values, FORMAT);
    FieldText(values, FORMAT, 0);
    PaddedReads(values[0], 4);
    Separators(0);
    ReadField(Text(values, FORMAT), 0, Padded(values[0], 4), FORMAT[0].after);
  }

  lemma YearDigits(secs: nat)
    ensures var n := |Padded(Year(secs), 4)|; 4 <= n && (n == 4 <==> secs < YEAR_10000)
  {
    PaddedReads(Year(secs), 4);
    if secs < YEAR_10000 {
      FourDigitYear(secs);
    } else {
      var day, newYear := secs / SECONDS_PER_DAY, YEAR_10000 / SECONDS_PER_DAY;
      NewYear10000(newYear);
      if newYear < day {
        DatesIncrease(newYear, day);
      }
      FourDigitsAtMost(Padded(Year(secs), 4));
    }
  }

  lemma FourDigitsAtMost(s: string)
    requires Decimal(s).Some? && Decimal(s).value >= 10000
    ensures |s| > 4
  {
    if |s| <= 4 {
      DecimalBelow(s);
      assert Pow10(4) == 10000;
      PowGrows(|s|, 4);
    }
  }

  lemma {:induction false} DecimalBelow(s: string)
    requires Decimal(s).Some?
    ensures Decimal(s).value < Pow10(|s|)
  {
    if s != "" {
      DecimalBelow(s[..|s| - 1]);
    }
  }

  lemma {:induction false} PowGrows(a: nat, b: nat)
    requires a <= b
    ensures Pow10(a) <= Pow10(b)
  {
    if a < b {
      PowGrows(a, b - 1);
    }
  }

  lemma SmallPadded()
    ensures Padded(1970, 4) == "1970" && Padded(1, 2) == "01" && Padded(0, 2) == "00" && Padded(0, 3) == "000"
  {
    assert Padded(197, 3) == Padded(19, 2) + "7" && Padded(19, 2) == Padded(1, 1) + "9";
    assert Padded(0, 1) == "0" && Padded(1, 1) == "1";
  }

  lemma SpelledClock(t3: string, t4: string, t5: string, t6: string)
    requires t6 == "000" + ("Z" + "") && t5 == "00" + ("." + t6) && t4 == "00" + (":" + t5) && t3 == "00" + (":" + t4)
    ensures t3 == "00:00:00.000Z"
  {
    assert t6 == "000Z" && t5 == "00.000Z" && t4 == "00:00.000Z";
  }

  lemma SpelledDate(t0: string, t1: string, t2: string, t3: string)
    requires t2 == "01" + ("T" + t3) && t1 == "01" + ("-" + t2) && t0 == "1970" + ("-" + t1)
    ensures t0 == "1970-01-01T" + t3
  {
    assert t2 == "01T" + t3 && t1 == "01-01T" + t3;
  }

  function Tail(values: seq<nat>, i: nat): string
    requires |values| == 7 && i <= 7
  {
    Text(values[i..], FORMAT[i..])
  }

  lemma TailStarts(values: seq<nat>, i: nat)
    requires |values| == 7 && i < 7
    ensures Tail(values, i) == Padded(values[i], FORMAT[i].width) + (FORMAT[i].after + Tail(values, i + 1))
  {
    assert values[i..][1..] == values[i + 1..] && FORMAT[i..][1..] == FORMAT[i + 1..];
  }

  lemma EpochText(v: seq<nat>)
    requires |v| == 7 && v[0] == 1970 && v[1] == v[2] == 1 && v[3] == v[4] == v[5] == v[6] == 0
    ensures Tail(v, 6) == "000" + ("Z" + "") && Tail(v, 5) == "00" + ("." + Tail(v, 6))
    ensures Tail(v, 4) == "00" + (":" + Tail(v, 5)) && Tail(v, 3) == "00" + (":" + Tail(v, 4))
    ensures Tail(v, 2) == "01" + ("T" + Tail(v, 3)) && Tail(v, 1) == "01" + ("-" + Tail(v, 2))
    ensures Tail(v, 0) == "1970" + ("-" + Tail(v, 1))
  {
    SmallPadded();
    assert Tail(v, 7) == "";
    forall i: nat | i < 7
      ensures Tail(v, i) == Padded(v[i], FORMAT[i].width) + (FORMAT[i].after + Tail(v, i + 1))
    {
      TailStarts(v, i);
    }
  }

  lemma SpelledOut()
    ensures "1970-01-01T" + "00:00:00.000Z" == "1970-01-01T00:00:00.000Z"
  {
  }

  lemma EpochTail(v: seq<nat>)
    requires |v| == 7 && v[0] == 1970 && v[1] == v[2] == 1 && v[3] == v[4] == v[5] == v[6] == 0
    ensures Tail(v, 0) == "1970-01-01T" + "00:00:00.000Z"
  {
    EpochText(v);
    SpelledClock(Tail(v, 3), Tail(v, 4), Tail(v, 5), Tail(v, 6));
    SpelledDate(Tail(v, 0), Tail(v, 1), Tail(v, 2), Tail(v, 3));
  }

  lemma WholeTail(v: seq<nat>)
    requires |v| == 7
    ensures Tail(v, 0) == Text(v, FORMAT)
  {
    assert v[0..] == v && FORMAT[0..] == FORMAT;
  }

  lemma TextOfEpoch(v: seq<nat>)
    requires v == Values(Date(1970, 1, 1), 0, 0)
    ensures Text(v, FORMAT) == "1970-01-01T00:00:00.000Z"
  {
    EpochTail(v);
    WholeTail(v);
    SpelledOut();
  }

  lemma StampAtDayZero(secs: nat, millis: nat)
    requires secs == 0 && millis == 0
    ensures Rfc3339(secs, millis) == "1970-01-01T00:00:00.000Z"
  {
    RenderedByCalendar(secs, millis);
    TextOfEpoch(Values(DateOfDay(secs / SECONDS_PER_DAY), secs % SECONDS_PER_DAY, millis));
  }

  /** The first instant, literally. */
  lemma Epoch()
    ensures Rfc3339(0, 0) == "1970-01-01T00:00:00.000Z"
  {
    StampAtDayZero(0, 0);
  }
}
