/** The proleptic Gregorian calendar in UTC, and decimal texts. */
module Calendar {
  import opened Keyset

  predicate Leap(y: int) { y % 4 == 0 && (y % 100 != 0 || y % 400 == 0) }

  function DaysInMonth(y: int, m: int): int {
    if m == 2 then (if Leap(y) then 29 else 28)
    else if m == 4 || m == 6 || m == 9 || m == 11 then 30 else 31
  }

  predicate ValidDate(y: int, m: int, d: int) {
    1 <= m <= 12 && 1 <= d <= DaysInMonth(y, m)
  }

  /** The days of all years before `y`, counted from the first day of the year 1. */
  function DaysBeforeYear(y: int): int {
    var z := y - 1;
    365 * z + z / 4 - z / 100 + z / 400
  }

  function DaysBeforeMonth(y: int, m: int): int
    requires 1 <= m <= 13
  {
    if m == 1 then 0 else DaysBeforeMonth(y, m - 1) + DaysInMonth(y, m - 1)
  }

  function Days(y: int, m: int, d: int): int
    requires 1 <= m <= 13
  {
    DaysBeforeYear(y) + DaysBeforeMonth(y, m) + d - 1
  }

  /** A moment, by its UTC fields. */
  datatype Moment = Moment(year: int, month: int, day: int, hour: int, minute: int, second: int, micro: int)
  {
    predicate Valid() {
      ValidDate(year, month, day) && 0 <= hour < 24 && 0 <= minute < 60 && 0 <= second < 60 && 0 <= micro < 1000000
    }

    /** Field by field, the largest unit first. */
    predicate Before(other: Moment) {
      if year != other.year then year < other.year
      else if month != other.month then month < other.month
      else if day != other.day then day < other.day
      else if hour != other.hour then hour < other.hour
      else if minute != other.minute then minute < other.minute
      else if second != other.second then second < other.second
      else micro < other.micro
    }
  }

  function SecondsOfDay(t: Moment): int {
    t.hour * 3600 + t.minute * 60 + t.second
  }

  const EPOCH_DAYS := 719162

  /** Microseconds since the Unix epoch. */
  function Micros(t: Moment): int
    requires t.Valid()
  {
    ((Days(t.year, t.month, t.day) - EPOCH_DAYS) * 86400 + SecondsOfDay(t)) * 1000000 + t.micro
  }

  /** Milliseconds since the Unix epoch, of a moment at a full second. */
  function Millis(t: Moment): int
    requires t.Valid()
  {
    ((Days(t.year, t.month, t.day) - EPOCH_DAYS) * 86400 + SecondsOfDay(t)) * 1000
  }

  // ------------------------------------------------------------ counting days

  lemma EpochIsDayZero()
    ensures Days(1970, 1, 1) == EPOCH_DAYS
  {
  }

  lemma YearStep(y: int)
    ensures DaysBeforeYear(y + 1) == DaysBeforeYear(y) + if Leap(y) then 366 else 365
  {
    var z := y - 1;
    assert y / 4 - z / 4 == if y % 4 == 0 then 1 else 0;
    assert y / 100 - z / 100 == if y % 100 == 0 then 1 else 0;
    assert y / 400 - z / 400 == if y % 400 == 0 then 1 else 0;
    assert y % 400 == 0 ==> y % 100 == 0 by { Divides(y, 100, 4); }
    assert y % 100 == 0 ==> y % 4 == 0 by { Divides(y, 4, 25); }
  }

  lemma Divides(n: int, d: int, k: int)
    requires (d == 100 && k == 4) || (d == 4 && k == 25)
    ensures n % (d * k) == 0 ==> n % d == 0
  {
  }

  lemma YearLength(y: int)
    ensures DaysBeforeMonth(y, 13) == if Leap(y) then 366 else 365
  {
    var february := if Leap(y) then 29 else 28;
    assert DaysBeforeMonth(y, 1) == 0;
    assert DaysBeforeMonth(y, 2) == 31;
    assert DaysBeforeMonth(y, 3) == 31 + february;
    assert DaysBeforeMonth(y, 4) == 62 + february;
    assert DaysBeforeMonth(y, 5) == 92 + february;
    assert DaysBeforeMonth(y, 6) == 123 + february;
    assert DaysBeforeMonth(y, 7) == 153 + february;
    assert DaysBeforeMonth(y, 8) == 184 + february;
    assert DaysBeforeMonth(y, 9) == 215 + february;
    assert DaysBeforeMonth(y, 10) == 245 + february;
    assert DaysBeforeMonth(y, 11) == 276 + february;
    assert DaysBeforeMonth(y, 12) == 306 + february;
  }

  /** The day after a date. */
  function NextDate(y: int, m: int, d: int): (int, int, int) {
    if d < DaysInMonth(y, m) then (y, m, d + 1) else if m < 12 then (y, m + 1, 1) else (y + 1, 1, 1)
  }

  /** Counting days follows the calendar: the next date is one day later. */
  lemma NextDateIsNextDay(y: int, m: int, d: int)
    requires ValidDate(y, m, d)
    ensures var (y', m', d') := NextDate(y, m, d); ValidDate(y', m', d') && Days(y', m', d') == Days(y, m, d) + 1
  {
    hide DaysBeforeYear;
    if d == DaysInMonth(y, m) && m == 12 {
      YearStep(y);
      YearLength(y);
    }
  }

  /** The second after a moment, counted on like a clock with a calendar. */
  function NextSecond(t: Moment): Moment {
    if t.second < 59 then t.(second := t.second + 1)
    else if t.minute < 59 then t.(minute := t.minute + 1, second := 0)
    else if t.hour < 23 then t.(hour := t.hour + 1, minute := 0, second := 0)
    else
      var (year, month, day) := NextDate(t.year, t.month, t.day);
      t.(year := year, month := month, day := day, hour := 0, minute := 0, second := 0)
  }

  lemma NextSecondIsValid(t: Moment)
    requires t.Valid()
    ensures NextSecond(t).Valid()
    ensures var next := NextSecond(t);
            (Days(next.year, next.month, next.day) - Days(t.year, t.month, t.day)) * 86400
            + SecondsOfDay(next) - SecondsOfDay(t) == 1
    ensures NextSecond(t).micro == t.micro
  {
    NextDateIsNextDay(t.year, t.month, t.day);
    hide Days, DaysInMonth;
  }

  /** Time runs at a thousand milliseconds a second, second by second and day by day. */
  lemma NextSecondIsLater(t: Moment)
    requires t.Valid() && NextSecond(t).Valid()
    ensures Millis(NextSecond(t)) == Millis(t) + 1000 && Micros(NextSecond(t)) == Micros(t) + 1000000
  {
    NextSecondIsValid(t);
    hide Days, DaysInMonth, NextSecond, SecondsOfDay, Moment.Valid;
  }

  /** ... and both clocks start at the epoch, the finer one counting on within a second. */
  lemma ClocksStartAtEpoch(t: Moment)
    requires t.Valid()
    ensures t == Moment(1970, 1, 1, 0, 0, 0, 0) ==> Millis(t) == 0 && Micros(t) == 0
    ensures 0 <= Micros(t) - 1000 * Millis(t) < 1000000 && Micros(t) - 1000 * Millis(t) == t.micro
  {
    EpochIsDayZero();
    hide Days, DaysInMonth;
  }

  lemma {:induction false} MonthsRise(y: int, m: int, n: int)
    requires 1 <= m < n <= 13
    ensures DaysBeforeMonth(y, m) + DaysInMonth(y, m) <= DaysBeforeMonth(y, n)
    decreases n
  {
    if m + 1 < n { MonthsRise(y, m, n - 1); }
  }

  lemma {:induction false} YearsRise(y: int, z: int)
    requires y < z
    ensures DaysBeforeYear(y) + DaysBeforeMonth(y, 13) <= DaysBeforeYear(z)
    decreases z - y
  {
    hide DaysBeforeYear, DaysBeforeMonth;
    YearLength(y);
    YearLength(z - 1);
    YearStep(z - 1);
    if y + 1 < z { YearsRise(y, z - 1); }
  }

  lemma {:induction false} MonthsStart(y: int, m: int)
    requires 1 <= m <= 13
    ensures DaysBeforeMonth(y, m) >= 0
  {
    if m > 1 { MonthsStart(y, m - 1); }
  }

  /** An earlier date has a smaller number. */
  lemma DatesRise(y: int, m: int, d: int, y': int, m': int, d': int)
    requires ValidDate(y, m, d) && ValidDate(y', m', d')
    requires y < y' || (y == y' && (m < m' || (m == m' && d < d')))
    ensures Days(y, m, d) < Days(y', m', d')
  {
    hide DaysBeforeYear, DaysBeforeMonth, DaysInMonth;
    if y < y' {
      YearsRise(y, y');
      MonthsRise(y, m, 13);
      MonthsStart(y', m');
    } else if m < m' {
      MonthsRise(y, m, m');
    }
  }

  lemma MicrosRise(t: Moment, u: Moment)
    requires t.Valid() && u.Valid() && t.Before(u)
    ensures Micros(t) < Micros(u)
  {
    var a, b := Days(t.year, t.month, t.day), Days(u.year, u.month, u.day);
    if t.year != u.year || t.month != u.month || t.day != u.day {
      DatesRise(t.year, t.month, t.day, u.year, u.month, u.day);
      assert a + 1 <= b;
    }
    hide Days, DaysInMonth;
    assert 0 <= SecondsOfDay(t) < 86400 && 0 <= SecondsOfDay(u) < 86400;
  }

  /** The order of moments is the order of their fields, and different fields are different moments. */
  lemma FieldOrderIsTimeOrder(t: Moment, u: Moment)
    requires t.Valid() && u.Valid()
    ensures Micros(t) < Micros(u) <==> t.Before(u)
    ensures Micros(t) == Micros(u) <==> t == u
  {
    hide Micros;
    if t.Before(u) { MicrosRise(t, u); }
    if u.Before(t) { MicrosRise(u, t); }
  }

  /** At full seconds milliseconds order moments as microseconds do. */
  lemma MillisAreMicros(t: Moment)
    requires t.Valid() && t.micro == 0
    ensures Micros(t) == 1000 * Millis(t)
  {
    hide Days;
  }

  // ------------------------------------------------------------ decimal texts

  predicate IsDigit(c: char) { '0' <= c <= '9' }

  function DigitValue(c: char): (v: nat)
    requires IsDigit(c)
    ensures v <= 9
  {
    c as int - '0' as int
  }

  predicate AllDigits(text: string) { forall c <- text :: IsDigit(c) }

  function Number(text: string): nat
    requires AllDigits(text)
  {
    if text == "" then 0 else 10 * Number(text[..|text| - 1]) + DigitValue(text[|text| - 1])
  }

  function Power(n: nat): nat { if n == 0 then 1 else 10 * Power(n - 1) }

  /** `n` in decimal, with leading zeros up to a width. */
  function Padded(n: nat, width: nat): (text: string)
    ensures |text| == width && AllDigits(text)
  {
    if width == 0 then "" else Padded(n / 10, width - 1) + ['0' + (n % 10) as char]
  }

  lemma {:induction false} NumberOfPadded(n: nat, width: nat)
    requires n < Power(width)
    ensures Number(Padded(n, width)) == n
  {
    if width > 0 {
      NumberOfPadded(n / 10, width - 1);
      var text := Padded(n, width);
      assert text[..|text| - 1] == Padded(n / 10, width - 1);
    }
  }

  lemma {:induction false} PaddedNumber(text: string)
    requires AllDigits(text)
    ensures Padded(Number(text), |text|) == text
  {
    if text != "" {
      var rest, last := text[..|text| - 1], text[|text| - 1];
      assert last in text;
      PaddedNumber(rest);
      assert Number(text) / 10 == Number(rest) && Number(text) % 10 == DigitValue(last);
      assert text == rest + [last];
    }
  }

  lemma {:induction false} NumberIsSmall(text: string)
    requires AllDigits(text)
    ensures Number(text) < Power(|text|)
  {
    if text != "" {
      NumberIsSmall(text[..|text| - 1]);
      assert text[|text| - 1] in text;
    }
  }

  /** Texts compared code unit by code unit. */
  predicate TextBefore(a: string, b: string) {
    if b == "" then false
    else if a == "" then true
    else if a[0] != b[0] then a[0] < b[0]
    else TextBefore(a[1..], b[1..])
  }

  lemma {:induction false} TextOrderIsTotal(a: string, b: string)
    ensures !TextBefore(a, a)
    ensures a == b || TextBefore(a, b) || TextBefore(b, a)
    ensures !(TextBefore(a, b) && TextBefore(b, a))
  {
    if a != "" { TextOrderIsTotal(a[1..], if b == "" then "" else b[1..]); }
    if a != "" && b != "" && a[0] == b[0] {
      assert a == [a[0]] + a[1..] && b == [b[0]] + b[1..];
    }
  }

  lemma {:induction false} TextOrderIsTransitive(a: string, b: string, c: string)
    requires TextBefore(a, b) && TextBefore(b, c)
    ensures TextBefore(a, c)
  {
    if a != "" && b != "" && c != "" && a[0] == b[0] == c[0] { TextOrderIsTransitive(a[1..], b[1..], c[1..]); }
  }

  lemma TextOrderIsTotalOrder()
    ensures TotalOrder(TextBefore)
  {
    hide TextBefore;
    forall a: string ensures !TextBefore(a, a) { TextOrderIsTotal(a, a); }
    forall a: string, b: string ensures a == b || TextBefore(a, b) || TextBefore(b, a) { TextOrderIsTotal(a, b); }
    forall a: string, b: string, c: string | TextBefore(a, b) && TextBefore(b, c) ensures TextBefore(a, c) {
      TextOrderIsTransitive(a, b, c);
    }
  }

  /** The first part decides, if it differs. */
  lemma {:induction false} TextOrderOfParts(a: string, b: string, c: string, d: string)
    requires |a| == |c|
    ensures TextBefore(a + b, c + d) <==> TextBefore(a, c) || (a == c && TextBefore(b, d))
  {
    if a == "" {
      assert a + b == b && c + d == d && c == "";
    } else {
      assert (a + b)[1..] == a[1..] + b && (c + d)[1..] == c[1..] + d;
      assert a == [a[0]] + a[1..] && c == [c[0]] + c[1..];
      TextOrderOfParts(a[1..], b, c[1..], d);
      if a[0] == c[0] { TextOrderIsTotal(a[1..], c[1..]); }
    }
  }

  /** Digits of equal length are ordered like the numbers they spell. */
  lemma {:induction false} DigitOrderIsNumberOrder(a: string, b: string)
    requires |a| == |b| && AllDigits(a) && AllDigits(b)
    ensures TextBefore(a, b) <==> Number(a) < Number(b)
    ensures a == b <==> Number(a) == Number(b)
  {
    if a != "" {
      var a', b', x, y := a[..|a| - 1], b[..|b| - 1], a[|a| - 1..], b[|b| - 1..];
      DigitOrderIsNumberOrder(a', b');
      assert a == a' + x && b == b' + y;
      TextOrderOfParts(a', x, b', y);
      assert x == [a[|a| - 1]] && y == [b[|b| - 1]];
      assert a[|a| - 1] in a && b[|b| - 1] in b;
      LastDigits(a[|a| - 1], b[|b| - 1]);
      assert Number(a) == 10 * Number(a') + DigitValue(a[|a| - 1])
             && Number(b) == 10 * Number(b') + DigitValue(b[|b| - 1]);
    }
  }

  lemma LastDigits(x: char, y: char)
    requires IsDigit(x) && IsDigit(y)
    ensures TextBefore([x], [y]) <==> DigitValue(x) < DigitValue(y)
    ensures x == y <==> DigitValue(x) == DigitValue(y)
  {
  }
}
