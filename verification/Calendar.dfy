/** The Gregorian calendar by its own rules, and `http_date` of
    benchmark/readbench/src/netsim.rs, which prints an instant as the IMF-fixdate of
    section 5.6.7 of RFC 9110 with no calendar tables. */
module Calendar {
  import opened Options
  import opened Decimal

  // ----- the calendar

  predicate IsLeap(y: nat) {
    y % 4 == 0 && (y % 100 != 0 || y % 400 == 0)
  }

  function YearLength(y: nat): nat {
    if IsLeap(y) then 366 else 365
  }

  function MonthLength(y: nat, m: nat): nat {
    match m
    case 4 => 30
    case 6 => 30
    case 9 => 30
    case 11 => 30
    case 2 => if IsLeap(y) then 29 else 28
    case _ => 31
  }

  datatype Date = Date(year: nat, month: nat, day: nat)

  predicate IsDate(d: Date) {
    1970 <= d.year && 1 <= d.month <= 12 && 1 <= d.day <= MonthLength(d.year, d.month)
  }

  /** Days from 1 January 1970 to 1 January of year `y`. */
  function DaysBeforeYear(y: nat): nat {
    if y <= 1970 then 0 else DaysBeforeYear(y - 1) + YearLength(y - 1)
  }

  /** Days from 1 January to the first of month `m` in year `y`. */
  function DaysBeforeMonth(y: nat, m: nat): nat {
    if m <= 1 then 0 else DaysBeforeMonth(y, m - 1) + MonthLength(y, m - 1)
  }

  function DayNumber(d: Date): int {
    DaysBeforeYear(d.year) + DaysBeforeMonth(d.year, d.month) + d.day - 1
  }

  // ----- the arithmetic of the code

  /** Year of the 400-year era, counted from 1 March. */
  function YearOfEra(doe: nat): int {
    (doe - doe / 1460 + doe / 36524 - doe / 146096) / 365
  }

  /** `civil_from_days`. */
  function Civil(days: nat): (int, int, int) {
    var z := days + 719468;
    var era := z / 146097;
    var doe := z - era * 146097;
    var yoe := YearOfEra(doe);
    var doy := doe - (365 * yoe + yoe / 4 - yoe / 100);
    var mp := (5 * doy + 2) / 153;
    var d := doy - (153 * mp + 2) / 5 + 1;
    var m := if mp < 10 then mp + 3 else mp - 9;
    var y := yoe + era * 400 + if m <= 2 then 1 else 0;
    (y, m, d)
  }

  // ----- years that begin in March

  /** Days from 1 March of year 0 to 1 March of year `y`. */
  function MarchDays(y: nat): int {
    365 * y + y / 4 - y / 100 + y / 400
  }

  /** A day of the era splits into centuries, four-year cycles, years and days. */
  lemma SplitEra(doe: nat) returns (c: nat, q: nat, t: nat, v: nat)
    requires doe < 146097
    ensures c <= 3 && q <= 24 && t <= 3 && v <= 365
    ensures doe == 36524 * c + 1461 * q + 365 * t + v
    ensures v == 365 ==> t == 3 && (q < 24 || c == 3)
  {
    c := if doe / 36524 == 4 then 3 else doe / 36524;
    var r := doe - 36524 * c;
    q := r / 1461;
    var u := r - 1461 * q;
    t := if u / 365 == 4 then 3 else u / 365;
    v := u - 365 * t;
  }

  lemma YearOfEraIs(c: nat, q: nat, t: nat, v: nat)
    requires c <= 3 && q <= 24 && t <= 3 && v <= 365
    requires v == 365 ==> t == 3 && (q < 24 || c == 3)
    ensures YearOfEra(36524 * c + 1461 * q + 365 * t + v) == 100 * c + 4 * q + t
  {
    var doe := 36524 * c + 1461 * q + 365 * t + v;
    var e := if 24 * c + q + 365 * t + v >= 1460 then 1 else 0;
    assert doe == 1460 * (25 * c + q) + (24 * c + q + 365 * t + v);
    assert doe / 1460 == 25 * c + q + e;
    assert doe / 36524 - doe / 146096 == c;
    assert doe - doe / 1460 + c == 365 * (100 * c + 4 * q + t) + (v - e);
  }

  lemma MarchDaysOf(era: nat, c: nat, q: nat, t: nat)
    requires c <= 3 && q <= 24 && t <= 3
    ensures MarchDays(400 * era + (100 * c + 4 * q + t)) == 146097 * era + 36524 * c + 1461 * q + 365 * t
  {
    var yoe := 100 * c + 4 * q + t;
    var y := 400 * era + yoe;
    assert yoe / 4 == 25 * c + q && yoe / 100 == c && yoe / 400 == 0;
    assert y / 4 == 100 * era + yoe / 4;
    assert y / 100 == 4 * era + yoe / 100;
    assert y / 400 == era + yoe / 400;
  }

  lemma LeapAtEra(k: nat)
    ensures IsLeap(400 * k)
  {
    assert (400 * k) % 4 == 0;
  }

  lemma LeapInCentury(j: nat, r: nat)
    requires 0 < r < 25
    ensures IsLeap(100 * j + 4 * r)
  {
    assert (100 * j + 4 * r) % 100 == 4 * r;
    assert (100 * j + 4 * r) % 4 == 0;
  }

  lemma LongMarchYear(era: nat, c: nat, q: nat)
    requires c <= 3 && q <= 24 && (q < 24 || c == 3)
    ensures IsLeap(400 * era + (100 * c + 4 * q + 3) + 1)
  {
    hide IsLeap;
    if q == 24 {
      LeapAtEra(era + 1);
    } else {
      LeapInCentury(4 * era + c, q + 1);
    }
  }

  /** The March year and the day of it, for every day. */
  lemma MarchYear(z: nat) returns (era: nat, yoe: nat, doy: nat)
    ensures era == z / 146097
    ensures var doe := z - era * 146097;
      yoe == YearOfEra(doe) && doy == doe - (365 * yoe + yoe / 4 - yoe / 100)
    ensures yoe < 400 && z == MarchDays(400 * era + yoe) + doy
    ensures doy <= 365 && (doy == 365 ==> IsLeap(400 * era + yoe + 1))
  {
    era := z / 146097;
    var doe: nat := z - era * 146097;
    var c, q, t, v := SplitEra(doe);
    YearOfEraIs(c, q, t, v);
    yoe := 100 * c + 4 * q + t;
    doy := v;
    assert yoe / 4 == 25 * c + q && yoe / 100 == c;
    MarchDaysOf(era, c, q, t);
    if v == 365 { LongMarchYear(era, c, q); }
    hide YearOfEra, MarchDays, IsLeap;
  }

  lemma {:induction false} YearsAdd(y: nat)
    requires y >= 1970
    ensures DaysBeforeYear(y) == MarchDays(y - 1) + 306 - 719468
  {
    if y > 1970 {
      YearsAdd(y - 1);
      LeapStep(y - 1);
    }
  }

  lemma LeapStep(y: nat)
    requires y > 0
    ensures MarchDays(y) == MarchDays(y - 1) + YearLength(y)
  {
    assert y / 4 == (y - 1) / 4 + if y % 4 == 0 then 1 else 0;
    assert y / 100 == (y - 1) / 100 + if y % 100 == 0 then 1 else 0;
    assert y / 400 == (y - 1) / 400 + if y % 400 == 0 then 1 else 0;
    assert y % 400 == 0 ==> y % 100 == 0;
    assert y % 100 == 0 ==> y % 4 == 0;
  }

  /** The days of the months before `m`, added up. */
  lemma MonthsAdd(y: nat, m: nat)
    requires 1 <= m <= 12
    ensures var leap := if IsLeap(y) then 1 else 0;
      DaysBeforeMonth(y, m) ==
        [0, 31, 59 + leap, 90 + leap, 120 + leap, 151 + leap, 181 + leap, 212 + leap, 243 + leap,
         273 + leap, 304 + leap, 334 + leap][m - 1]
  {
    if m > 1 { MonthsAdd(y, m - 1); }
  }

  /** Where the code's month arithmetic puts day `doy` of a March year: in a month of the
      same year, or in January or February of the next. */
  lemma MonthOfMarchYear(y: nat, doy: nat)
    requires doy <= 365 && (doy == 365 ==> IsLeap(y + 1))
    ensures var mp := (5 * doy + 2) / 153;
      var d := doy - (153 * mp + 2) / 5 + 1;
      var m := if mp < 10 then mp + 3 else mp - 9;
      var year := if m <= 2 then y + 1 else y;
      && 1 <= m <= 12 && 1 <= d <= MonthLength(year, m)
      && (if m <= 2 then DaysBeforeMonth(year, m) + d - 1 == doy - 306
          else DaysBeforeMonth(year, m) + d - 1 == doy + if IsLeap(year) then 60 else 59)
  {
    var mp := (5 * doy + 2) / 153;
    var m := if mp < 10 then mp + 3 else mp - 9;
    assert 0 <= mp <= 11;
    MonthsAdd(if m <= 2 then y + 1 else y, m);
  }

  /** The date of day `doy` of the March year `y`. */
  function FromMarch(y: nat, doy: nat): (int, int, int) {
    var mp := (5 * doy + 2) / 153;
    var m := if mp < 10 then mp + 3 else mp - 9;
    (y + if m <= 2 then 1 else 0, m, doy - (153 * mp + 2) / 5 + 1)
  }

  lemma FromMarchIsTheDate(y: nat, doy: nat)
    requires doy <= 365 && (doy == 365 ==> IsLeap(y + 1))
    requires MarchDays(y) + doy >= 719468
    ensures var (year, m, d) := FromMarch(y, doy);
      year >= 1970 && m >= 0 && d >= 0
      && IsDate(Date(year, m, d)) && DayNumber(Date(year, m, d)) == MarchDays(y) + doy - 719468
  {
    MonthOfMarchYear(y, doy);
    YearIsLate(y, doy);
    if (5 * doy + 2) / 153 < 10 {
      assert y >= 1970;
      YearsAdd(y);
      LeapStep(y);
    } else {
      YearsAdd(y + 1);
    }
    hide MarchDays, DaysBeforeYear, DaysBeforeMonth, IsLeap;
  }

  /** For every day from 1970 on, the code's arithmetic yields a date of the Gregorian
      calendar, and counting years and months up to that date gives the day back. */
  lemma CivilIsTheDate(days: nat)
    ensures var (y, m, d) := Civil(days);
      y >= 1970 && m >= 0 && d >= 0
      && IsDate(Date(y, m, d)) && DayNumber(Date(y, m, d)) == days
  {
    hide YearOfEra, MarchDays, DaysBeforeYear, DaysBeforeMonth, IsLeap, MonthLength, IsDate, DayNumber;
    var era, yoe, doy := MarchYear(days + 719468);
    CivilOf(days, yoe, doy);
    hide Civil, FromMarch;
    FromMarchIsTheDate(400 * era + yoe, doy);
  }

  /** The code's last steps, once it has the March year and the day of it. */
  lemma CivilOf(days: nat, yoe: nat, doy: nat)
    requires var z := days + 719468; var doe := z - z / 146097 * 146097;
      YearOfEra(doe) == yoe && doy == doe - (365 * yoe + yoe / 4 - yoe / 100)
    ensures Civil(days) == FromMarch(400 * ((days + 719468) / 146097) + yoe, doy)
  {
    hide YearOfEra;
  }

  lemma YearIsLate(y: nat, doy: nat)
    requires doy <= 365 && MarchDays(y) + doy >= 719468
    ensures y >= 1969 && (y == 1969 ==> doy >= 306)
  {
    assert MarchDays(1968) == 718797;
    assert MarchDays(1969) == 719162;
    if y <= 1968 { MarchDaysGrow(y, 1968); }
  }

  lemma {:induction false} MarchDaysGrow(a: nat, b: nat)
    requires a <= b
    ensures MarchDays(a) <= MarchDays(b)
    decreases b - a
  {
    if a < b {
      MarchDaysGrow(a, b - 1);
      LeapStep(b);
    }
  }

  // ----- the printed date

  const WEEKDAYS: seq<string> := ["Thu", "Fri", "Sat", "Sun", "Mon", "Tue", "Wed"]

  const MONTHS: seq<string> :=
    ["Jan", "Feb", "Mar", "Apr", "May", "Jun", "Jul", "Aug", "Sep", "Oct", "Nov", "Dec"]

  function Weekday(days: nat): (s: string)
    ensures |s| == 3
  {
    WEEKDAYS[days % 7]
  }

  function MonthName(m: nat): (s: string)
    requires 1 <= m <= 12
    ensures |s| == 3
  {
    MONTHS[m - 1]
  }

  /** What is printed before the year, and what after it. */
  function Head(weekday: string, d: nat, month: string): string {
    weekday + (", " + (Pad2(d) + (" " + (month + " "))))
  }

  function Tail(h: nat, min: nat, s: nat): string {
    " " + (Pad2(h) + (":" + (Pad2(min) + (":" + (Pad2(s) + " GMT")))))
  }

  function HttpDate(secs: nat): string {
    var days, rem := secs / 86400, secs % 86400;
    var (y, m, d) := Civil(days);
    CivilIsTheDate(days);
    Head(Weekday(days), d, MonthName(m)) + Show(y) + Tail(rem / 3600, rem % 3600 / 60, rem % 60)
  }

  /** The day after the one named, in the order of the week. */
  function NextDay(name: string): string {
    if name == "Sun" then "Mon"
    else if name == "Mon" then "Tue"
    else if name == "Tue" then "Wed"
    else if name == "Wed" then "Thu"
    else if name == "Thu" then "Fri"
    else if name == "Fri" then "Sat"
    else "Sun"
  }

  /** 1 January 1970 was a Thursday, and the days of the week follow each other. */
  function DayName(days: nat): string {
    if days == 0 then "Thu" else NextDay(DayName(days - 1))
  }

  /** Which month a name stands for. */
  function MonthNumber(name: string): Option<nat> {
    if name == "Jan" then Some(1)
    else if name == "Feb" then Some(2)
    else if name == "Mar" then Some(3)
    else if name == "Apr" then Some(4)
    else if name == "May" then Some(5)
    else if name == "Jun" then Some(6)
    else if name == "Jul" then Some(7)
    else if name == "Aug" then Some(8)
    else if name == "Sep" then Some(9)
    else if name == "Oct" then Some(10)
    else if name == "Nov" then Some(11)
    else if name == "Dec" then Some(12)
    else None
  }

  /** The number that the two digits `s` stand for. */
  function TwoDigits(s: string): Option<nat> {
    if AllDigits(s) && |s| == 2 then Some(Value(s)) else None
  }

  /** The weekday, the day and the month that the part before a year names. */
  function ReadHead(s: string): Option<(string, nat, nat)>
    requires |s| == 12
  {
    var day, month := TwoDigits(s[5..7]), MonthNumber(s[8..11]);
    if s[3..5] != ", " || s[7] != ' ' || s[11] != ' ' || day.None? || month.None? then None
    else Some((s[..3], day.value, month.value))
  }

  /** The second of the day that the part after a year names. */
  function ReadTail(s: string): Option<nat>
    requires |s| == 13
  {
    var h, min, sec := TwoDigits(s[1..3]), TwoDigits(s[4..6]), TwoDigits(s[7..9]);
    if s[0] != ' ' || s[3] != ':' || s[6] != ':' || s[9..] != " GMT" || h.None? || min.None? || sec.None? then None
    else if h.value >= 24 || min.value >= 60 || sec.value >= 60 then None
    else Some(3600 * h.value + 60 * min.value + sec.value)
  }

  /** A reader of dates that knows only the calendar: it takes the fields apart, checks that
      they name a day with its weekday and a time of that day, and counts the seconds from
      the beginning of 1970. */
  function Decode(s: string): Option<nat> {
    if |s| < 26 || !AllDigits(s[12..|s| - 13]) then None
    else
      var head, time := ReadHead(s[..12]), ReadTail(s[|s| - 13..]);
      if head.None? || time.None? then None
      else
        var (weekday, day, month) := head.value;
        var date := Date(Value(s[12..|s| - 13]), month, day);
        if !IsDate(date) then None
        else
          var days := DaysBeforeYear(date.year) + DaysBeforeMonth(date.year, month) + day - 1;
          if weekday != DayName(days) then None else Some(86400 * days + time.value)
  }

  lemma NextInTable(k: nat)
    requires k < 7
    ensures NextDay(WEEKDAYS[k]) == WEEKDAYS[if k == 6 then 0 else k + 1]
  {
    var name := WEEKDAYS[k];
    assert [name[0], name[1], name[2]] == name;
  }

  lemma NextWeekday(days: nat)
    ensures Weekday(0) == "Thu" && NextDay(Weekday(days)) == Weekday(days + 1)
  {
    hide NextDay;
    NextInTable(days % 7);
    assert (days + 1) % 7 == if days % 7 == 6 then 0 else days % 7 + 1;
  }

  /** The table of the code holds the days in the order of the week. */
  lemma {:induction false} WeekdayIsDayName(days: nat)
    ensures Weekday(days) == DayName(days)
  {
    hide NextDay, Weekday;
    NextWeekday(0);
    if days > 0 {
      WeekdayIsDayName(days - 1);
      NextWeekday(days - 1);
    }
  }

  lemma MonthIndex(m: nat)
    requires 1 <= m <= 12
    ensures MonthNumber(MonthName(m)) == Some(m)
  {
    var name := MonthName(m);
    assert [name[0], name[1], name[2]] == name;
  }

  lemma ReadTwoDigits(n: nat)
    requires n < 100
    ensures TwoDigits(Pad2(n)) == Some(n)
  {
    ValueOfPad2(n);
  }

  lemma HeadFields(weekday: string, d: nat, month: string)
    requires |weekday| == 3 && |month| == 3 && d < 100
    ensures var s := Head(weekday, d, month);
      && |s| == 12 && s[..3] == weekday && s[3..5] == ", " && s[5..7] == Pad2(d)
      && s[7] == ' ' && s[8..11] == month && s[11] == ' '
  {
    hide Pad2;
  }

  lemma ReadOfHead(weekday: string, d: nat, m: nat)
    requires |weekday| == 3 && d < 100 && 1 <= m <= 12
    ensures var s := Head(weekday, d, MonthName(m));
      |s| == 12 && ReadHead(s) == Some((weekday, d, m))
  {
    hide Pad2, TwoDigits, MonthNumber, MonthName, Head;
    MonthIndex(m);
    HeadFields(weekday, d, MonthName(m));
    ReadTwoDigits(d);
  }

  lemma ReadOfTail(time: nat)
    requires time < 86400
    ensures var s := Tail(time / 3600, time % 3600 / 60, time % 60);
      |s| == 13 && ReadTail(s) == Some(time)
  {
    var h, min, sec := time / 3600, time % 3600 / 60, time % 60;
    ReadTwoDigits(h);
    ReadTwoDigits(min);
    ReadTwoDigits(sec);
    hide Pad2, TwoDigits;
    var s := Tail(h, min, sec);
    assert s[1..3] == Pad2(h);
    assert s[4..6] == Pad2(min);
    assert s[7..9] == Pad2(sec);
    assert s[9..] == " GMT";
    assert time == 3600 * h + 60 * min + sec;
  }

  lemma HttpDateParts(secs: nat) returns (days: nat, rem: nat, date: Date)
    ensures rem < 86400 && secs == 86400 * days + rem
    ensures IsDate(date) && DayNumber(date) == days && 1 <= date.month <= 12
    ensures HttpDate(secs) == Head(Weekday(days), date.day, MonthName(date.month)) + Show(date.year)
              + Tail(rem / 3600, rem % 3600 / 60, rem % 60)
  {
    hide Civil, Head, Tail, DayNumber, Show, Weekday, MonthName;
    days, rem := secs / 86400, secs % 86400;
    var (y, m, d) := Civil(days);
    CivilIsTheDate(days);
    date := Date(y, m, d);
    DayBelow(date);
  }

  /** Reading a printed date returns the second it was printed for. */
  lemma DecodeOfHttpDate(secs: nat)
    ensures Decode(HttpDate(secs)) == Some(secs)
  {
    hide Civil, HttpDate, Head, Tail, ReadHead, ReadTail, Weekday, MonthName, IsDate, DayNumber, Show, Value, Decode;
    var days, rem, date := HttpDateParts(secs);
    DayBelow(date);
    ReadOfHead(Weekday(days), date.day, date.month);
    ReadOfTail(rem);
    ValueOfShow(date.year);
    DecodeParts(Head(Weekday(days), date.day, MonthName(date.month)), Show(date.year),
                Tail(rem / 3600, rem % 3600 / 60, rem % 60), days, rem, date);
  }

  lemma DayBelow(d: Date)
    requires IsDate(d)
    ensures d.day < 100 && 1 <= d.month <= 12
  {
  }

  lemma DecodeParts(head: string, year: string, tail: string, days: nat, time: nat, date: Date)
    requires |head| == 12 && |tail| == 13 && year != [] && AllDigits(year) && Value(year) == date.year
    requires ReadHead(head) == Some((Weekday(days), date.day, date.month)) && ReadTail(tail) == Some(time)
    requires IsDate(date) && DayNumber(date) == days
    ensures Decode(head + year + tail) == Some(86400 * days + time)
  {
    WeekdayIsDayName(days);
    hide ReadHead, ReadTail, Value, IsDate, DaysBeforeYear, DaysBeforeMonth, Weekday, DayName;
    var s := head + year + tail;
    assert s[..12] == head;
    assert s[12..|s| - 13] == year;
    assert s[|s| - 13..] == tail;
  }

  /** The printed date has the fixed length of an IMF-fixdate exactly up to the end of the year 9999. */
  lemma FixedLength(secs: nat)
    ensures |HttpDate(secs)| == 29 <==> secs < 253402300800
  {
    hide Civil, HttpDate, Head, Tail, Weekday, MonthName, IsDate, DayNumber, Show;
    var days, rem, date := HttpDateParts(secs);
    DayBelow(date);
    ReadOfHead(Weekday(days), date.day, date.month);
    ReadOfTail(rem);
    ShowLength(date.year, 4);
    ShowLength(date.year, 3);
    YearEnds(date, days);
  }

  lemma YearEnds(date: Date, days: nat)
    requires IsDate(date) && DayNumber(date) == days
    ensures Power(3) <= date.year && (date.year < Power(4) <==> days < 2932897)
  {
    assert Power(3) == 1000 && Power(4) == 10000 by { assert Power(1) == 10; assert Power(2) == 100; }
    YearsAdd(10000);
    assert DaysBeforeYear(10000) == 2932897;
    YearsAdd(date.year);
    hide DaysBeforeYear, DaysBeforeMonth;
    DayInYear(date);
    if date.year < 10000 {
      YearsAdd(date.year + 1);
      LeapStep(date.year);
      MarchDaysGrow(date.year, 9999);
    } else {
      MarchDaysGrow(9999, date.year - 1);
    }
  }

  lemma DayInYear(date: Date)
    requires IsDate(date)
    ensures 0 <= DaysBeforeMonth(date.year, date.month) + date.day - 1 < YearLength(date.year)
  {
    MonthsAdd(date.year, date.month);
  }
}
