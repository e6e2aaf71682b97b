/** Days since the epoch as a Gregorian date, and the SOA serials made from it. */
module Calendars {

  const TWO_32 := 0x1_0000_0000
  const MAX_U32 := TWO_32 - 1

  type u32 = x: int | 0 <= x < TWO_32

  datatype Date = Date(year: int, month: int, day: int)

  // -------------------------------------------------- the Gregorian calendar

  predicate IsLeap(year: int) {
    year % 4 == 0 && (year % 100 != 0 || year % 400 == 0)
  }

  function DaysInMonth(year: int, month: int): int {
    if month == 2 then (if IsLeap(year) then 29 else 28)
    else if month in {4, 6, 9, 11} then 30 else 31
  }

  predicate ValidDate(d: Date) {
    1 <= d.month <= 12 && 1 <= d.day <= DaysInMonth(d.year, d.month)
  }

  function NextDay(d: Date): Date {
    if d.day < DaysInMonth(d.year, d.month) then Date(d.year, d.month, d.day + 1)
    else if d.month < 12 then Date(d.year, d.month + 1, 1)
    else Date(d.year + 1, 1, 1)
  }

  /** Counting forward, one day at a time, from 1970-01-01. */
  function DateAfter(days: nat): (d: Date)
    ensures ValidDate(d) && d.year >= 1970
  {
    if days == 0 then Date(1970, 1, 1) else NextDay(DateAfter(days - 1))
  }

  // ------------------------------------------------------ the closed formula

  function YearOfEra(doe: int): int {
    (doe - doe / 1_460 + doe / 36_524 - doe / 146_096) / 365
  }

  /** The day of the era on which year `y` of it begins, each year from 1 March. */
  function YearStart(y: int): int {
    365 * y + y / 4 - y / 100 + y / 400
  }

  /** The day of that year on which its month `mp` begins, March being 0. */
  function MonthStart(mp: int): int {
    (153 * mp + 2) / 5
  }

  function CivilFromEra(era: int, yoe: int, doy: int): Date {
    var mp := (5 * doy + 2) / 153;
    var d := doy - (153 * mp + 2) / 5 + 1;
    var m := if mp < 10 then mp + 3 else mp - 9;
    var y := yoe + era * 400;
    Date(if m <= 2 then y + 1 else y, m, d)
  }

  function CivilFromDays(days: nat): Date {
    var z := days + 719_468;
    var era, doe := z / 146_097, z % 146_097;
    var yoe := YearOfEra(doe);
    CivilFromEra(era, yoe, doe - (365 * yoe + yoe / 4 - yoe / 100))
  }

  /** Packed into 32 bits; the casts and the sum wrap. */
  function YmdFromUnixDays(days: nat): u32 {
    var c := CivilFromDays(days);
    (c.year % TWO_32 * 10_000 + c.month * 100 + c.day) % TWO_32
  }

  function Pack(d: Date): int {
    d.year * 10_000 + d.month * 100 + d.day
  }

  // -------------------------------------------------------- the year is right

  /** A day of an era as a century of it, a four-year cycle of that, a year of that and a day of that. */
  predicate IsDay(doe: int, a: int, b: int, e: int, j: int) {
    && 0 <= a <= 3 && 0 <= b <= 24 && 0 <= e <= 3
    && doe == 36_524 * a + 1_461 * b + 365 * e + j
    && 0 <= j < (if e == 3 && (b < 24 || a == 3) then 366 else 365)
  }

  lemma DayParts(doe: int) returns (a: int, b: int, e: int, j: int)
    requires 0 <= doe < 146_097
    ensures IsDay(doe, a, b, e, j)
  {
    a := if doe / 36_524 > 3 then 3 else doe / 36_524;
    var inCentury := doe - 36_524 * a;
    b := inCentury / 1_461;
    var inCycle := inCentury - 1_461 * b;
    e := if inCycle / 365 > 3 then 3 else inCycle / 365;
    j := inCycle - 365 * e;
  }

  lemma YearParts(a: int, b: int, e: int)
    requires 0 <= a <= 3 && 0 <= b <= 24 && 0 <= e <= 3
    ensures var y := 100 * a + 4 * b + e;
            y / 4 == 25 * a + b && y / 100 == a && y / 400 == 0 && YearStart(y) == 36_524 * a + 1_461 * b + 365 * e
  {
  }

  /** The divisions by 1460, 36524 and 146096 take out exactly the leap days before the year. */
  lemma YearOfParts(doe: int, a: int, b: int, e: int, j: int)
    requires IsDay(doe, a, b, e, j)
    ensures YearOfEra(doe) == 100 * a + 4 * b + e
  {
    var rest := 24 * a + b + 365 * e + j;
    assert doe == 1_460 * (25 * a + b) + rest;
    var late := if rest >= 1_460 then 1 else 0;
    assert doe / 1_460 == 25 * a + b + late;
    if j == 365 && b == 24 {
      assert doe == 146_096;
    } else {
      assert doe / 36_524 == a;
      assert doe / 146_096 == 0;
      assert doe - doe / 1_460 + doe / 36_524 - doe / 146_096 == 365 * (100 * a + 4 * b + e) + (j - late);
      assert 0 <= j - late < 365;
    }
  }

  /** The formula's year is the one the day falls in. */
  lemma YearOfEraIsRight(doe: int)
    requires 0 <= doe < 146_097
    ensures 0 <= YearOfEra(doe) < 400
    ensures YearStart(YearOfEra(doe)) <= doe < YearStart(YearOfEra(doe)) + YearLength(YearOfEra(doe))
  {
    var a, b, e, j := DayParts(doe);
    YearOfParts(doe, a, b, e, j);
    YearParts(a, b, e);
    LeapParts(a, b, e);
  }

  lemma LeapParts(a: int, b: int, e: int)
    requires 0 <= a <= 3 && 0 <= b <= 24 && 0 <= e <= 3
    ensures IsLeap(100 * a + 4 * b + e + 1) <==> e == 3 && (b < 24 || a == 3)
  {
    var y := 100 * a + 4 * b + e + 1;
    assert y % 4 == 0 <==> e == 3;
    if e == 3 {
      assert y == 100 * a + 4 * (b + 1);
      assert y % 100 == 0 <==> b == 24;
    }
  }

  lemma {:induction false} YearStartGrows(y: int, k: int)
    requires 0 <= y < k
    ensures YearStart(y) < YearStart(k)
    decreases k
  {
    if y < k - 1 { YearStartGrows(y, k - 1); }
  }

  /** And no other year has the day. */
  lemma YearOfEraIsOnly(doe: int, y: int)
    requires 0 <= doe < 146_097 && 0 <= y < 400 && YearStart(y) <= doe < YearStart(y) + YearLength(y)
    ensures YearOfEra(doe) == y
  {
    YearOfEraIsRight(doe);
    var yoe := YearOfEra(doe);
    YearStartStep(y);
    YearStartStep(yoe);
    if yoe < y { if yoe + 1 < y { YearStartGrows(yoe + 1, y); } }
    if y < yoe { if y + 1 < yoe { YearStartGrows(y + 1, yoe); } }
  }

  /** A March year is as long as the February that ends it makes it. */
  function YearLength(y: int): int {
    if IsLeap(y + 1) then 366 else 365
  }

  lemma YearStartStep(y: int)
    requires 0 <= y < 400
    ensures YearStart(y + 1) == YearStart(y) + YearLength(y)
  {
    var a, b, e := y / 100, y % 100 / 4, y % 4;
    assert y == 100 * a + 4 * b + e;
    YearParts(a, b, e);
    LeapParts(a, b, e);
    NextYearParts(a, b, e);
  }

  lemma NextYearParts(a: int, b: int, e: int)
    requires 0 <= a <= 3 && 0 <= b <= 24 && 0 <= e <= 3
    ensures YearStart(100 * a + 4 * b + e + 1)
         == 36_524 * a + 1_461 * b + 365 * e + if e == 3 && (b < 24 || a == 3) then 366 else 365
  {
    if e < 3 {
      YearParts(a, b, e + 1);
    } else if b < 24 {
      YearParts(a, b + 1, 0);
    } else if a < 3 {
      YearParts(a + 1, 0, 0);
    }
  }

  // ------------------------------------------------------- one day to the next

  lemma ModShift(x: int, k: int, m: int)
    requires m == 4 || m == 100 || m == 400
    ensures (x + k * m) % m == x % m
  {
  }

  lemma LeapByEra(era: int, yoe: int)
    ensures IsLeap(yoe + era * 400 + 1) <==> IsLeap(yoe + 1)
  {
    ModShift(yoe + 1, 100 * era, 4);
    ModShift(yoe + 1, 4 * era, 100);
    ModShift(yoe + 1, era, 400);
  }

  lemma MonthOfDay(doy: int, mp: int)
    requires 0 <= mp <= 11 && MonthStart(mp) <= doy < MonthStart(mp + 1)
    ensures (5 * doy + 2) / 153 == mp
  {
  }

  /** A day of a March year as a month of it and a day of that. */
  lemma InMonth(era: int, yoe: int, doy: int, mp: int)
    requires 0 <= mp <= 11 && MonthStart(mp) <= doy < MonthStart(mp + 1)
    ensures CivilFromEra(era, yoe, doy)
         == Date(yoe + era * 400 + if mp < 10 then 0 else 1, if mp < 10 then mp + 3 else mp - 9, doy - MonthStart(mp) + 1)
  {
    MonthOfDay(doy, mp);
  }

  /** The months from March on are as long as the calendar says, February as long as the year leaves it. */
  lemma MonthLength(y: int, mp: int)
    requires 0 <= mp <= 11
    ensures mp < 11 ==> MonthStart(mp + 1) - MonthStart(mp) == DaysInMonth(if mp < 10 then y else y + 1, if mp < 10 then mp + 3 else mp - 9)
    ensures mp == 11 ==> MonthStart(mp) == 337 && DaysInMonth(y + 1, 2) == (if IsLeap(y + 1) then 29 else 28)
  {
  }

  lemma SomeMonth(doy: int) returns (mp: int)
    requires 0 <= doy < 366
    ensures 0 <= mp <= 11 && MonthStart(mp) <= doy < MonthStart(mp + 1)
  {
    mp := (5 * doy + 2) / 153;
  }

  /** Within a March year. */
  lemma NextInYear(era: int, yoe: int, doy: int)
    requires 0 <= yoe < 400 && 0 <= doy && doy + 1 < YearLength(yoe)
    ensures CivilFromEra(era, yoe, doy + 1) == NextDay(CivilFromEra(era, yoe, doy))
  {
    LeapByEra(era, yoe);
    var mp := SomeMonth(doy);
    InMonth(era, yoe, doy, mp);
    MonthLength(yoe + era * 400, mp);
    if doy + 1 < MonthStart(mp + 1) {
      InMonth(era, yoe, doy + 1, mp);
    } else {
      InMonth(era, yoe, doy + 1, mp + 1);
    }
  }

  /** From its last day to the first of the next. */
  lemma NextYear(era: int, yoe: int)
    requires 0 <= yoe < 400
    ensures NextDay(CivilFromEra(era, yoe, YearLength(yoe) - 1)) == Date(yoe + era * 400 + 1, 3, 1)
    ensures CivilFromEra(era, yoe, 0) == Date(yoe + era * 400, 3, 1)
  {
    LeapByEra(era, yoe);
  }

  lemma DayOfYear(days: nat, era: int, yoe: int, doy: int)
    requires FallsOn(days, era, yoe, doy)
    ensures CivilFromDays(days) == CivilFromEra(era, yoe, doy)
  {
    var doe := YearStart(yoe) + doy;
    assert 0 <= YearStart(yoe);
    assert (days + 719_468) / 146_097 == era && (days + 719_468) % 146_097 == doe;
    YearOfEraIsOnly(doe, yoe);
    assert yoe / 400 == 0;
  }

  lemma YearEnds(yoe: int)
    requires 0 <= yoe < 400
    ensures YearStart(yoe) + YearLength(yoe) <= 146_097
    ensures yoe == 399 ==> YearStart(yoe) + YearLength(yoe) == 146_097
  {
    YearStartStep(yoe);
    if yoe < 399 { YearStartGrows(yoe + 1, 400); }
  }

  /** A day as an era, a year of it and a day of that. */
  predicate FallsOn(days: nat, era: int, yoe: int, doy: int) {
    && 0 <= yoe < 400 && 0 <= doy < YearLength(yoe) && YearStart(yoe) + doy < 146_097
    && days + 719_468 == 146_097 * era + YearStart(yoe) + doy
  }

  lemma SomeDay(days: nat) returns (era: int, yoe: int, doy: int)
    ensures FallsOn(days, era, yoe, doy)
  {
    var z := days + 719_468;
    era := z / 146_097;
    YearOfEraIsRight(z % 146_097);
    yoe := YearOfEra(z % 146_097);
    doy := z % 146_097 - YearStart(yoe);
  }

  /** The day after, by the same parts. */
  lemma DayAfter(days: nat, era: int, yoe: int, doy: int) returns (era': int, yoe': int, doy': int)
    requires FallsOn(days, era, yoe, doy)
    ensures FallsOn(days + 1, era', yoe', doy')
    ensures CivilFromEra(era', yoe', doy') == NextDay(CivilFromEra(era, yoe, doy))
  {
    YearEnds(yoe);
    if doy + 1 < YearLength(yoe) {
      era', yoe', doy' := era, yoe, doy + 1;
      NextInYear(era, yoe, doy);
    } else {
      era', yoe', doy' := if yoe < 399 then era else era + 1, if yoe < 399 then yoe + 1 else 0, 0;
      NextYear(era, yoe);
      NextYear(era', yoe');
      YearStartStep(yoe);
      YearEnds(yoe');
    }
  }

  /** The formula moves on a day at a time. */
  lemma CivilStep(days: nat)
    ensures CivilFromDays(days + 1) == NextDay(CivilFromDays(days))
  {
    var era, yoe, doy := SomeDay(days);
    var era', yoe', doy' := DayAfter(days, era, yoe, doy);
    DayOfYear(days, era, yoe, doy);
    DayOfYear(days + 1, era', yoe', doy');
  }

  lemma Epoch()
    ensures CivilFromDays(0) == Date(1970, 1, 1)
  {
  }

  /** Whatever starts at the epoch and moves on a day at a time is the calendar. */
  lemma {:induction false} CountingIsUnique(f: nat -> Date, days: nat)
    requires f(0) == Date(1970, 1, 1) && forall d: nat :: f(d + 1) == NextDay(f(d))
    ensures f(days) == DateAfter(days)
  {
    if days > 0 {
      CountingIsUnique(f, days - 1);
      ghost var before: nat := days - 1;
      assert f(before + 1) == NextDay(f(before));
    }
  }

  // ---------------------------------------------------------------- theorems

  /** The formula is the calendar: day by day from 1970-01-01. */
  lemma CivilIsCounting(days: nat)
    ensures CivilFromDays(days) == DateAfter(days)
  {
    var f := (d: nat) => CivilFromDays(d);
    Epoch();
    forall d: nat ensures f(d + 1) == NextDay(f(d)) { CivilStep(d); }
    CountingIsUnique(f, days);
  }

  /** For every day that fits the packed form is the date; the year 429497 is where it stops. */
  lemma YmdIsTheDate(days: nat)
    ensures YmdFromUnixDays(days) == Pack(DateAfter(days)) <==> Pack(DateAfter(days)) <= MAX_U32
  {
    CivilIsCounting(days);
    var c := DateAfter(days);
    PackWraps(c.year, c.month * 100 + c.day);
  }

  lemma PackWraps(year: int, rest: int)
    requires 0 <= year && 0 <= rest
    ensures (year % TWO_32 * 10_000 + rest) % TWO_32 == year * 10_000 + rest <==> year * 10_000 + rest <= MAX_U32
  {
    if year * 10_000 + rest <= MAX_U32 { assert year % TWO_32 == year; }
  }

  lemma PackGrows(d: Date)
    requires ValidDate(d)
    ensures Pack(NextDay(d)) > Pack(d)
  {
  }

  lemma {:induction false} DatesGrow(early: nat, late: nat)
    requires early < late
    ensures Pack(DateAfter(early)) < Pack(DateAfter(late))
    decreases late
  {
    PackGrows(DateAfter(late - 1));
    if early < late - 1 { DatesGrow(early, late - 1); }
  }

  /** So it is strictly increasing as long as it fits. */
  lemma YmdIncreases(early: nat, late: nat)
    requires early < late && Pack(DateAfter(late)) <= MAX_U32
    ensures YmdFromUnixDays(early) < YmdFromUnixDays(late)
  {
    DatesGrow(early, late);
    YmdIsTheDate(early);
    YmdIsTheDate(late);
  }

  // --------------------------------------------------------------- the serial

  datatype Option<+T> = None | Some(value: T)

  function SaturatingMul100(x: u32): u32 {
    if x * 100 > MAX_U32 then MAX_U32 else x * 100
  }

  /** A release build's `+` on `u32`. */
  function WrappingAdd(x: u32, y: u32): u32 {
    (x + y) % TWO_32
  }

  function NextSerial(previous: Option<u32>, today: u32): u32 {
    var base := SaturatingMul100(today);
    match previous
    case Some(prev) =>
      if prev >= base && prev < WrappingAdd(base, 99) then WrappingAdd(prev, 1)
      else if prev >= base then prev
      else WrappingAdd(base, 1)
    case None => WrappingAdd(base, 1)
  }

  /** The last `today` whose hundred serials all fit. */
  const LAST_DAY: u32 := 42_949_671

  /** A serial never decreases, and increases until the day's ninety-ninth. */
  lemma SerialAdvances(prev: u32, today: u32)
    requires today <= LAST_DAY
    ensures NextSerial(Some(prev), today) >= prev
    ensures NextSerial(Some(prev), today) > prev <==> prev < today * 100 + 99
    ensures NextSerial(Some(prev), today) > today * 100
  {
  }

  /** Whether a serial may go back at all: exactly when the hundredfold date saturates and the serial is between. */
  lemma SerialGoesBackIff(prev: u32, today: u32)
    ensures NextSerial(Some(prev), today) < prev <==> today * 100 > MAX_U32 && 0 < prev < MAX_U32
  {
  }

  /** So on 1 January 4295, the first date past the limit, the serial 4294123199 goes back to 0. */
  lemma SerialGoesBackIn4295()
    ensures Pack(NextDay(Date(4294, 12, 31))) == 42_950_101
    ensures NextSerial(Some(4_294_123_199), 42_941_231) == 4_294_123_199
    ensures NextSerial(Some(4_294_123_199), 42_950_101) == 0
  {
    SerialGoesBackIff(4_294_123_199, 42_950_101);
  }

  /** Edits on nondecreasing days. */
  function AfterEdits(previous: Option<u32>, days: seq<u32>): Option<u32> {
    if days == [] then previous
    else Some(NextSerial(AfterEdits(previous, days[..|days| - 1]), days[|days| - 1]))
  }

  lemma {:induction false} SerialsNeverGoBack(prev: u32, days: seq<u32>)
    requires forall i | 0 <= i < |days| :: days[i] <= LAST_DAY
    ensures AfterEdits(Some(prev), days).value >= prev
  {
    if days != [] {
      SerialsNeverGoBack(prev, days[..|days| - 1]);
      SerialAdvances(AfterEdits(Some(prev), days[..|days| - 1]).value, days[|days| - 1]);
    }
  }

  function Repeat(day: u32, n: nat): (r: seq<u32>)
    ensures |r| == n
  {
    if n == 0 then [] else Repeat(day, n - 1) + [day]
  }

  lemma OneMoreEdit(previous: Option<u32>, days: seq<u32>, day: u32)
    ensures AfterEdits(previous, days + [day]) == Some(NextSerial(AfterEdits(previous, days), day))
  {
    assert (days + [day])[..|days|] == days;
  }

  function NthSerial(day: u32, n: nat): nat {
    day * 100 + if n < 99 then n else 99
  }

  lemma SameDaySerial(day: u32, n: nat)
    requires day <= LAST_DAY && n > 0
    ensures NextSerial(Some(NthSerial(day, n)), day) == NthSerial(day, n + 1)
  {
  }

  lemma FirstSerial(previous: Option<u32>, day: u32)
    requires day <= LAST_DAY && (previous.Some? ==> previous.value < day * 100)
    ensures NextSerial(previous, day) == NthSerial(day, 1)
  {
  }

  predicate IsSerial(s: Option<u32>, serial: nat) {
    s.Some? && s.value == serial
  }

  /** The `n`th edit of a day is its `n`th serial, up to ninety-nine, from any serial of an earlier day or none. */
  lemma {:induction false} NthEditOfADay(previous: Option<u32>, day: u32, n: nat)
    requires day <= LAST_DAY && n > 0 && (previous.Some? ==> previous.value < day * 100)
    ensures IsSerial(AfterEdits(previous, Repeat(day, n)), NthSerial(day, n))
  {
    OneMoreEdit(previous, Repeat(day, n - 1), day);
    if n == 1 {
      assert Repeat(day, 0) == [];
      FirstSerial(previous, day);
    } else {
      NthEditOfADay(previous, day, n - 1);
      SameDaySerial(day, n - 1);
    }
  }

  lemma NextDaySerial(prev: u32, before: nat, today: u32)
    requires prev <= before * 100 + 99 && before < today <= LAST_DAY
    ensures NextSerial(Some(prev), today) == today * 100 + 1 > prev
  {
  }

  /** By the real calendar: the first serial of a later day is above every serial of an earlier one. */
  lemma SerialsFollowTheCalendar(prev: u32, before: nat, today: nat)
    requires before < today && Pack(DateAfter(today)) <= LAST_DAY
    requires prev <= Pack(DateAfter(before)) * 100 + 99
    ensures NextSerial(Some(prev), YmdFromUnixDays(today)) == Pack(DateAfter(today)) * 100 + 1 > prev
  {
    YmdIsTheDate(today);
    DatesGrow(before, today);
    NextDaySerial(prev, Pack(DateAfter(before)), Pack(DateAfter(today)));
  }
}
