// SafeDate: a calendar date that can only hold a day that exists, its
// YYYY-MM-DD text form, and expiry against a clock reading supplied by the
// caller. `mktime`'s normalisation test becomes the Gregorian calendar rule.

module SafeDates {
  import opened Errors
  import opened Text

  datatype Date = Date(year: Int32, month: Int32, day: Int32)

  predicate IsLeapYear(y: int) {
    (y % 4 == 0 && y % 100 != 0) || y % 400 == 0
  }

  function DaysInMonth(y: int, m: int): (n: int)
    requires 1 <= m <= 12
    ensures 28 <= n <= 31
    ensures n == 29 <==> m == 2 && IsLeapYear(y)
  {
    if m == 2 then (if IsLeapYear(y) then 29 else 28)
    else if m == 4 || m == 6 || m == 9 || m == 11 then 30
    else 31
  }

  /** A date the SafeDate constructor accepts. */
  predicate IsValid(d: Date) {
    d.year >= 1900 && 1 <= d.month <= 12 && 1 <= d.day <= DaysInMonth(d.year, d.month)
  }

  /** What a SafeDate object can hold. The witness is the date the default
      MedicalProduct is given. */
  type SafeDate = d: Date | IsValid(d) witness Date(2025, 12, 31)

  /** `SafeDate(year, month, day)`: the range checks, then the check that
      `mktime` did not move the day (which fails exactly for days past the
      end of their month). The getters give back the arguments. */
  function Make(year: Int32, month: Int32, day: Int32): (r: Result<Date>)
    ensures r.Ok? <==> year >= 1900 && 1 <= month <= 12 && 1 <= day <= DaysInMonth(year, month)
    ensures r.Ok? ==> IsValid(r.value)
    ensures r.Ok? ==> r.value.year == year && r.value.month == month && r.value.day == day
    ensures r.Fail? ==> r.error == InvalidArgument
  {
    if year < 1900 then Fail(InvalidArgument)
    else if month < 1 || month > 12 then Fail(InvalidArgument)
    else if day < 1 || day > 31 then Fail(InvalidArgument)
    else if day > DaysInMonth(year, month) then Fail(InvalidArgument)
    else Ok(Date(year, month, day))
  }

  lemma NoFebruary29In2023()
    ensures Make(2023, 2, 29).Fail?
    ensures Make(2024, 2, 29).Ok?
    ensures Make(2024, 4, 31).Fail?
    ensures Make(1900, 2, 29).Fail?
    ensures Make(2000, 2, 29).Ok?
  {
  }

  /** The shape of `YYYY-MM-DD`: a dash before the two digits of the month
      and another before the two digits of the day. */
  predicate Dashed(s: string) {
    |s| >= 7 && s[|s| - 6] == '-' && s[|s| - 3] == '-'
  }

  /** `strftime("%Y-%m-%d")`. */
  function ToString(d: Date): (r: string)
    requires IsValid(d)
    ensures Dashed(r)
  {
    IntToString(d.year) + "-" + Pad2(d.month) + "-" + Pad2(d.day)
  }

  /** `iss >> year >> dash1 >> month >> dash2 >> day`. */
  function ScanDate(s: string): Option<(Int32, char, Int32, char, Int32)>
  {
    match ReadInt(s)
    case None => None
    case Some((y, r1)) =>
      match ReadChar(r1)
      case None => None
      case Some((c1, r2)) =>
        match ReadInt(r2)
        case None => None
        case Some((m, r3)) =>
          match ReadChar(r3)
          case None => None
          case Some((c2, r4)) =>
            match ReadInt(r4)
            case None => None
            case Some((d, _)) => Some((y, c1, m, c2, d))
  }

  /** `SafeDate::fromString`: any text after the day is ignored. */
  function FromString(s: string): (r: Result<Date>)
    ensures r.Ok? ==> IsValid(r.value)
    ensures r.Fail? ==> r.error == InvalidArgument
    ensures r.Ok? <==> ScanDate(s).Some? && ScanDate(s).value.1 == '-' && ScanDate(s).value.3 == '-'
                       && Make(ScanDate(s).value.0, ScanDate(s).value.2, ScanDate(s).value.4).Ok?
  {
    match ScanDate(s)
    case None => Fail(InvalidArgument)
    case Some((y, c1, m, c2, d)) =>
      if c1 == '-' && c2 == '-' then Make(y, m, d) else Fail(InvalidArgument)
  }

  lemma {:induction false} ReadCharDash(rest: string)
    ensures ReadChar("-" + rest) == Some(('-', rest))
  {
    var s := "-" + rest;
    SkipSpacesNone(s);
    assert s[1..] == rest;
  }

  lemma {:induction false} ReadIntPad2(n: nat, tail: string)
    requires n < 100 && (|tail| == 0 || !IsDigit(tail[0]))
    ensures ReadInt(Pad2(n) + tail) == Some((n as Int32, tail))
  {
    ReadIntOfPad2(n, tail);
  }

  lemma {:induction false} ScanDateSteps(s: string, y: Int32, r1: string, r2: string, m: Int32,
                                         r3: string, r4: string, d: Int32)
    requires ReadInt(s) == Some((y, r1)) && ReadChar(r1) == Some(('-', r2))
    requires ReadInt(r2) == Some((m, r3)) && ReadChar(r3) == Some(('-', r4))
    requires ReadInt(r4) == Some((d, ""))
    ensures ScanDate(s) == Some((y, '-', m, '-', d))
  {
  }

  lemma {:induction false} FromStringOfScan(s: string, d: Date)
    requires IsValid(d) && ScanDate(s) == Some((d.year, '-', d.month, '-', d.day))
    ensures FromString(s) == Ok(d)
  {
    assert Make(d.year, d.month, d.day) == Ok(d);
  }

  /** Reading back what `toString` wrote gives the same date. */
  lemma {:induction false} FromStringToString(d: Date)
    requires IsValid(d)
    ensures FromString(ToString(d)) == Ok(d)
  {
    ScanToString(d);
    FromStringOfScan(ToString(d), d);
  }

  lemma {:induction false} ScanToString(d: Date)
    requires IsValid(d)
    ensures ScanDate(ToString(d)) == Some((d.year, '-', d.month, '-', d.day))
  {
    var dd := Pad2(d.day as nat);
    var r3 := "-" + dd;
    var r2 := Pad2(d.month as nat) + r3;
    var r1 := "-" + r2;
    ToStringParts(d);
    ReadParts(d.year, d.month, d.day);
    ScanDateSteps(IntToString(d.year) + r1, d.year, r1, r2, d.month, r3, dd, d.day);
  }

  /** Each read the scan makes of a year, then a dash and two digits
      twice, takes its own number or dash. */
  lemma {:induction false} ReadParts(year: Int32, month: Int32, day: Int32)
    requires 0 <= month < 100 && 0 <= day < 100
    ensures var dd := Pad2(day as nat);
            var r3 := "-" + dd;
            var r2 := Pad2(month as nat) + r3;
            var r1 := "-" + r2;
            && ReadInt(IntToString(year) + r1) == Some((year, r1)) && ReadChar(r1) == Some(('-', r2))
            && ReadInt(r2) == Some((month, r3)) && ReadChar(r3) == Some(('-', dd))
            && ReadInt(dd) == Some((day, ""))
  {
    var dd := Pad2(day as nat);
    var r3 := "-" + dd;
    var r2 := Pad2(month as nat) + r3;
    var r1 := "-" + r2;
    ReadIntOfString(year, r1);
    ReadCharDash(r2);
    ReadIntPad2(month as nat, r3);
    ReadCharDash(dd);
    assert dd + "" == dd;
    ReadIntPad2(day as nat, "");
  }

  lemma ToStringParts(d: Date)
    requires IsValid(d)
    ensures ToString(d) == IntToString(d.year) + ("-" + (Pad2(d.month) + ("-" + Pad2(d.day))))
  {
  }

  /** Calendar order. */
  predicate Before(a: Date, b: Date) {
    a.year < b.year
    || (a.year == b.year && a.month < b.month)
    || (a.year == b.year && a.month == b.month && a.day < b.day)
  }

  /** A reading of the local clock: the current date and the seconds elapsed
      since its midnight. */
  datatype Clock = Clock(today: Date, secondsIntoDay: nat)

  /** `isExpired`: the clock is past midnight at the start of the date. */
  predicate IsExpired(d: Date, now: Clock) {
    Before(d, now.today) || (d == now.today && now.secondsIntoDay > 0)
  }

  /** A number per day that grows with the calendar: a year spans thirteen
      months, a month thirty-two days. */
  function DayKey(d: Date): int {
    (d.year * 13 + d.month) * 32 + d.day
  }

  /** For valid dates, calendar order is the order of their day numbers. */
  lemma BeforeByDayKey(a: Date, b: Date)
    requires IsValid(a) && IsValid(b)
    ensures Before(a, b) <==> DayKey(a) < DayKey(b)
    ensures a == b <==> DayKey(a) == DayKey(b)
  {
  }

  /** `isExpired` compares instants: the clock's, its day's number in
      seconds plus the seconds into that day, is later than the date's
      midnight. */
  lemma IsExpiredByInstants(d: Date, now: Clock)
    requires IsValid(d) && IsValid(now.today) && now.secondsIntoDay < 86400
    ensures IsExpired(d, now) <==> DayKey(now.today) * 86400 + now.secondsIntoDay > DayKey(d) * 86400
  {
    BeforeByDayKey(d, now.today);
  }
}
