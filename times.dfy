/** Time labels of the schedule grid ("7:30 AM") as minutes since midnight,
    and the 12-hour clock text ("07:30") shown for a block's start and end. */
module Times {
  import opened Text
  import opened Results

  /** The value of a string of ASCII digits, most significant first. */
  function DecimalValue(s: string): nat
    decreases |s|
  {
    if s == [] then 0 else DecimalValue(s[..|s| - 1]) * 10 + DigitValue(s[|s| - 1])
  }

  function DigitValue(c: char): nat {
    if IsDigit(c) then c as int - '0' as int else 0
  }

  predicate AllDigits(s: string) {
    forall k :: 0 <= k < |s| ==> IsDigit(s[k])
  }

  /** The hour of a 24-hour clock for hour `h` of a 12-hour clock: 12 AM is
      midnight and 12 PM is noon. */
  function Hour24(h: int, pm: bool): int {
    if pm then (if h == 12 then 12 else h + 12) else (if h == 12 then 0 else h)
  }

  /** Parses a label in the shape "H:MM AM": an hour of one or two digits
      (1 to 12), a colon, a minute of one or two digits (0 to 59), at least
      one whitespace character, then AM or PM in any case, and nothing after.
      The result is the minute of the day. */
  function Minute(t: string): (r: Result<int>)
    ensures r.Success? ==> 0 <= r.value < 1440
    ensures r.Failure? ==> r.error == BadTime(t)
  {
    var a := SkipDigits(t, 0);
    if a == 0 || a > 2 || a == |t| || t[a] != ':' then Failure(BadTime(t))
    else
      var b := SkipDigits(t, a + 1);
      if b == a + 1 || b > a + 3 then Failure(BadTime(t))
      else
        var h := DecimalValue(t[..a]);
        var mm := DecimalValue(t[a + 1..b]);
        var c := SkipSpace(t, b);
        if h < 1 || h > 12 || mm > 59 || c == b || !IsMeridiem(t[c..]) then
          Failure(BadTime(t))
        else
          Success(Hour24(h, IsAfternoon(t[c..])) * 60 + mm)
  }

  /** "AM" or "PM" in any case. */
  predicate IsMeridiem(s: string) {
    |s| == 2 && (UpperChar(s[0]) == 'A' || UpperChar(s[0]) == 'P') && UpperChar(s[1]) == 'M'
  }

  predicate IsAfternoon(s: string) {
    |s| > 0 && UpperChar(s[0]) == 'P'
  }

  lemma DecimalOne(s: string)
    requires |s| == 1 && AllDigits(s)
    ensures DecimalValue(s) == DigitValue(s[0])
    ensures DecimalValue(s) < 10
  {
    assert s[..0] == [];
  }

  lemma DecimalTwo(s: string)
    requires |s| == 2 && AllDigits(s)
    ensures DecimalValue(s) == DigitValue(s[0]) * 10 + DigitValue(s[1])
    ensures DecimalValue(s) < 100
  {
    assert s[..1] == [s[0]];
    DecimalOne(s[..1]);
  }

  /** The hour of `t` ends at `a` with a colon, the minute ends at `b`, and
      the whitespace after it at `c`, where `Minute` looks for them. */
  predicate Splits(t: string, a: nat, b: nat, c: nat) {
    1 <= a <= 2 && a < |t| && t[a] == ':' && SkipDigits(t, 0) == a &&
    a + 2 <= b <= a + 3 && SkipDigits(t, a + 1) == b &&
    b < c && SkipSpace(t, b) == c
  }

  /** `Minute` once the ends of the hour, the minute and the whitespace are
      known. */
  lemma MinuteAt(t: string, a: nat, b: nat, c: nat)
    requires Splits(t, a, b, c)
    ensures
      var h, m := DecimalValue(t[..a]), DecimalValue(t[a + 1..b]);
      Minute(t) ==
        if 1 <= h <= 12 && m <= 59 && IsMeridiem(t[c..]) then Success(Hour24(h, IsAfternoon(t[c..])) * 60 + m)
        else Failure(BadTime(t))
  {
  }

  /** Any label "HH:MM AM" with a two-digit hour and a two-digit minute
      parses to the minute its digits and its half of the day say, provided
      the hour is 1..12 and the minute at most 59. */
  lemma MinuteOfDigits(t: string, h1: char, h2: char, m1: char, m2: char, x: char, y: char)
    requires IsDigit(h1) && IsDigit(h2) && IsDigit(m1) && IsDigit(m2) && IsMeridiem([x, y])
    requires t == [h1, h2, ':', m1, m2, ' ', x, y]
    ensures
      var h, m := DigitValue(h1) * 10 + DigitValue(h2), DigitValue(m1) * 10 + DigitValue(m2);
      Minute(t) ==
        if 1 <= h <= 12 && m <= 59 then Success(Hour24(h, IsAfternoon([x, y])) * 60 + m)
        else Failure(BadTime(t))
  {
    DigitRun(t, 0, 2);
    DigitRun(t, 3, 5);
    SpaceRun(t, 5);
    MinuteAt(t, 2, 5, 6);
    DigitPair(t, 0);
    DigitPair(t, 3);
    assert t[6..] == [x, y];
  }

  /** The same for a label "H:MM AM" with a one-digit hour. */
  lemma MinuteOfDigit(t: string, h: char, m1: char, m2: char, x: char, y: char)
    requires IsDigit(h) && IsDigit(m1) && IsDigit(m2) && IsMeridiem([x, y])
    requires t == [h, ':', m1, m2, ' ', x, y]
    ensures
      var m := DigitValue(m1) * 10 + DigitValue(m2);
      Minute(t) ==
        if 1 <= DigitValue(h) && m <= 59 then Success(Hour24(DigitValue(h), IsAfternoon([x, y])) * 60 + m)
        else Failure(BadTime(t))
  {
    DigitRun(t, 0, 1);
    DigitRun(t, 2, 4);
    SpaceRun(t, 4);
    MinuteAt(t, 1, 4, 5);
    assert t[..1] == [h];
    DecimalOne([h]);
    DigitPair(t, 2);
    assert t[5..] == [x, y];
  }

  /** A run of one or two digits ends where the next character is not one. */
  lemma DigitRun(t: string, i: nat, j: nat)
    requires i < j <= i + 2 && j < |t| && !IsDigit(t[j])
    requires forall k | i <= k < j :: IsDigit(t[k])
    ensures SkipDigits(t, i) == j
  {
    assert IsDigit(t[i]);
    if j == i + 2 {
      assert IsDigit(t[i + 1]) && SkipDigits(t, i + 2) == j;
      assert SkipDigits(t, i + 1) == j;
    }
  }

  /** One whitespace character followed by a letter of AM or PM. */
  lemma SpaceRun(t: string, i: nat)
    requires i + 1 < |t| && t[i] == ' ' && (UpperChar(t[i + 1]) == 'A' || UpperChar(t[i + 1]) == 'P')
    ensures SkipSpace(t, i) == i + 1
  {
    assert IsSpace(t[i]) && !IsSpace(t[i + 1]);
    assert SkipSpace(t, i + 1) == i + 1;
  }

  /** The value of two digits at `i`. */
  lemma DigitPair(t: string, i: nat)
    requires i + 2 <= |t| && IsDigit(t[i]) && IsDigit(t[i + 1])
    ensures DecimalValue(t[i..i + 2]) == DigitValue(t[i]) * 10 + DigitValue(t[i + 1])
  {
    DecimalTwo(t[i..i + 2]);
  }

  /** The day of the schedule grid starts at 7:30 AM, minute 450. */
  lemma MinuteOfDayStart()
    ensures Minute("7:30 AM") == Success(450)
  {
    MinuteOfDigit("7:30 AM", '7', '3', '0', 'A', 'M');
  }

  /** 13 is not an hour of a 12-hour clock. */
  lemma MinuteRejectsHour13()
    ensures Minute("13:00 PM").Failure?
  {
    MinuteOfDigits("13:00 PM", '1', '3', '0', '0', 'P', 'M');
  }

  /** The hour 12 AM is the first hour of the day. */
  lemma MinuteAfterMidnight()
    ensures Minute("12:05 AM") == Success(5)
  {
    MinuteOfDigits("12:05 AM", '1', '2', '0', '5', 'A', 'M');
  }

  /** The hour 12 PM is noon, in any case of "pm". */
  lemma MinuteAfterNoon()
    ensures Minute("12:15 pm") == Success(735)
  {
    MinuteOfDigits("12:15 pm", '1', '2', '1', '5', 'p', 'm');
  }

  /** A number 0..99 as two digits with a leading zero. */
  function TwoDigits(n: nat): (r: string)
    requires n < 100
    ensures |r| == 2 && AllDigits(r) && DecimalValue(r) == n
  {
    var r := [('0' as int + n / 10) as char, ('0' as int + n % 10) as char];
    DecimalTwo(r);
    r
  }

  /** The zero-padded 12-hour clock text of minute `m` of the day, as
      `time(m // 60, m % 60).strftime('%I:%M')` gives it; a minute outside
      the day is rejected, as `time` rejects an hour outside 0..23. */
  function Clock(m: int): (r: Result<string>)
    ensures r.Success? <==> 0 <= m < 1440
    ensures r.Success? ==> |r.value| == 5 && r.value[2] == ':'
  {
    if 0 <= m < 1440 then
      var hour := m / 60;
      var h12 := if hour % 12 == 0 then 12 else hour % 12;
      Success(TwoDigits(h12) + ":" + TwoDigits(m % 60))
    else Failure(TimeOutOfRange(m))
  }

  /** The half of the day minute `m` falls in, as `%p` writes it. */
  function Meridiem(m: int): string {
    if m / 60 < 12 then "AM" else "PM"
  }

  /** Formatting a minute of the day and writing its half of the day after
      it gives a label that parses back to the same minute. */
  lemma ClockRoundTrip(m: int)
    requires 0 <= m < 1440
    ensures Minute(Clock(m).value + " " + Meridiem(m)) == Success(m)
  {
    var h12 := ClockLabel(m, Clock(m).value + " " + Meridiem(m));
    HourOfClock(m);
  }

  /** The formatted label parses to its 12-hour hour, its half of the day
      and its minute. */
  lemma ClockLabel(m: int, t: string) returns (h12: int)
    requires 0 <= m < 1440 && t == Clock(m).value + " " + Meridiem(m)
    ensures h12 == if (m / 60) % 12 == 0 then 12 else (m / 60) % 12
    ensures Minute(t) == Success(Hour24(h12, m / 60 >= 12) * 60 + m % 60)
  {
    h12 := if (m / 60) % 12 == 0 then 12 else (m / 60) % 12;
    var hs, ms := ClockDigits(m, h12);
    var p := Meridiem(m);
    MeridiemShape(m);
    ClockSpelled(hs, ms, p);
    MinuteOfDigits(t, hs[0], hs[1], ms[0], ms[1], p[0], p[1]);
  }

  /** The two digit pairs of a formatted clock text and their values. */
  lemma ClockDigits(m: int, h12: int) returns (hs: string, ms: string)
    requires 0 <= m < 1440 && h12 == if (m / 60) % 12 == 0 then 12 else (m / 60) % 12
    ensures Clock(m).value == hs + ":" + ms && |hs| == 2 && |ms| == 2
    ensures IsDigit(hs[0]) && IsDigit(hs[1]) && DigitValue(hs[0]) * 10 + DigitValue(hs[1]) == h12
    ensures IsDigit(ms[0]) && IsDigit(ms[1]) && DigitValue(ms[0]) * 10 + DigitValue(ms[1]) == m % 60
  {
    hs, ms := TwoDigits(h12), TwoDigits(m % 60);
    DecimalTwo(hs);
    DecimalTwo(ms);
  }

  lemma MeridiemShape(m: int)
    ensures var p := Meridiem(m);
      |p| == 2 && IsMeridiem([p[0], p[1]]) && (IsAfternoon([p[0], p[1]]) <==> m / 60 >= 12)
  {
  }

  lemma ClockSpelled(hs: string, ms: string, p: string)
    requires |hs| == 2 && |ms| == 2 && |p| == 2
    ensures hs + ":" + ms + " " + p == [hs[0], hs[1], ':', ms[0], ms[1], ' ', p[0], p[1]]
  {
  }

  /** The 12-hour hour and the half of the day give back the 24-hour hour. */
  lemma HourOfClock(m: int)
    requires 0 <= m < 1440
    ensures
      var hour := m / 60;
      var h12 := if hour % 12 == 0 then 12 else hour % 12;
      1 <= h12 <= 12 && Hour24(h12, hour >= 12) * 60 + m % 60 == m
  {
    var hour := m / 60;
    assert 0 <= hour < 24;
    assert hour * 60 + m % 60 == m;
    if hour >= 12 {
      assert hour % 12 == hour - 12;
    } else {
      assert hour % 12 == hour;
    }
  }
}
