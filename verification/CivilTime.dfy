/** Epoch days and seconds to civil dates and RFC 3339 text, against the Gregorian calendar. */
module CivilTime {
  import opened Common
  import opened Numerals

  datatype Date = Date(year: int, month: int, day: int)

  /** Rust's `/` on `i64`: towards zero. */
  function TruncDiv(a: int, b: int): int
    requires b > 0
  {
    if a >= 0 then a / b else -(-a / b)
  }

  /** Hinnant's `civil_from_days`. */
  function CivilFromDays(days: int): Date {
    var z := days + 719_468;
    var era := TruncDiv(if z >= 0 then z else z - 146_096, 146_097);
    var doe := z - era * 146_097;
    var yoe := TruncDiv(doe - TruncDiv(doe, 1460) + TruncDiv(doe, 36_524) - TruncDiv(doe, 146_096), 365);
    var y := yoe + era * 400;
    var doy := doe - (365 * yoe + TruncDiv(yoe, 4) - TruncDiv(yoe, 100));
    var mp := TruncDiv(5 * doy + 2, 153);
    var d := doy - TruncDiv(153 * mp + 2, 5) + 1;
    var m := if mp < 10 then mp + 3 else mp - 9;
    Date(y + (if m <= 2 then 1 else 0), m, d)
  }

  // ---------------------------------------------------------------- the calendar

  predicate Leap(y: int) {
    y % 4 == 0 && (y % 100 != 0 || y % 400 == 0)
  }

  function DaysInMonth(y: int, m: int): int {
    if m == 2 then (if Leap(y) then 29 else 28)
    else if m == 4 || m == 6 || m == 9 || m == 11 then 30
    else 31
  }

  predicate ValidDate(d: Date) {
    1 <= d.month <= 12 && 1 <= d.day <= DaysInMonth(d.year, d.month)
  }

  /** The day after. */
  function Next(d: Date): Date {
    if d.day < DaysInMonth(d.year, d.month) then d.(day := d.day + 1)
    else if d.month < 12 then Date(d.year, d.month + 1, 1)
    else Date(d.year + 1, 1, 1)
  }

  predicate Before(a: Date, b: Date) {
    a.year < b.year || (a.year == b.year && (a.month < b.month || (a.month == b.month && a.day < b.day)))
  }

  // ---------------------------------------------------------------- counting days

  /** Days before March 1 of year `y`, counted from March 1 of year 0. */
  function YearStart(y: int): int {
    365 * y + y / 4 - y / 100 + y / 400
  }

  /** Days from March 1 to the start of the month `mp` months later. */
  function MonthStart(mp: int): int {
    if mp == 0 then 0 else if mp == 1 then 31 else if mp == 2 then 61 else if mp == 3 then 92
    else if mp == 4 then 122 else if mp == 5 then 153 else if mp == 6 then 184 else if mp == 7 then 214
    else if mp == 8 then 245 else if mp == 9 then 275 else if mp == 10 then 306 else 337
  }

  /** The year that starts in March. */
  function MarchYear(d: Date): int { if d.month <= 2 then d.year - 1 else d.year }

  function MarchMonth(d: Date): int { if d.month <= 2 then d.month + 9 else d.month - 3 }

  /** The day number of a date; 1970-01-01 is day 0. */
  function DaysFromCivil(d: Date): int {
    YearStart(MarchYear(d)) + MonthStart(MarchMonth(d)) + d.day - 1 - 719_468
  }

  // ---------------------------------------------------------------- the year of an era

  lemma DivStep(y: int, k: int)
    requires k > 0
    ensures (y + 1) / k == y / k + (if (y + 1) % k == 0 then 1 else 0)
  {
    var q, r := y / k, y % k;
    assert y == q * k + r;
    if r + 1 == k {
      DivUnique(y + 1, k, q + 1, 0);
    } else {
      DivUnique(y + 1, k, q, r + 1);
    }
  }

  lemma SmallMultiple(a: int, k: int)
    requires k > 0 && -k < a * k < k
    ensures a == 0
  {
    assert a >= 1 ==> (a - 1) * k >= 0;
    assert a <= -1 ==> (-a - 1) * k >= 0;
  }

  lemma DivUnique(n: int, k: int, q: int, r: int)
    requires k > 0 && n == q * k + r && 0 <= r < k
    ensures n / k == q && n % k == r
  {
    var p, m := n / k, n % k;
    assert n == p * k + m && 0 <= m < k;
    assert (p - q) * k == p * k - q * k;
    SmallMultiple(p - q, k);
  }

  lemma YearLength(y: int)
    ensures YearStart(y + 1) - YearStart(y) == if Leap(y + 1) then 366 else 365
  {
    DivStep(y, 4);
    DivStep(y, 100);
    DivStep(y, 400);
    assert (y + 1) % 400 == 0 ==> (y + 1) % 100 == 0;
    assert (y + 1) % 100 == 0 ==> (y + 1) % 4 == 0;
  }

  lemma EraShift(era: int, y: int)
    ensures YearStart(y + era * 400) == YearStart(y) + era * 146_097
  {
    assert (y + era * 400) / 4 == y / 4 + era * 100;
    assert (y + era * 400) / 100 == y / 100 + era * 4;
    assert (y + era * 400) / 400 == y / 400 + era;
  }

  /** Inside one century: four-year cycles of 1461 days, the last year of each taking the extra day. */
  lemma YearOfCentury(b: int, x: int) returns (w: int)
    requires 0 <= b <= 3 && 0 <= x < 36_524
    ensures 0 <= w <= 99
    ensures 365 * w + w / 4 <= x && (w < 99 ==> x < 365 * (w + 1) + (w + 1) / 4)
    ensures 365 * w <= x - (24 * b + x) / 1460 < 365 * (w + 1)
  {
    var q, r := x / 1461, x % 1461;
    var s := if r == 1460 then 3 else r / 365;
    var t := r - 365 * s;
    w := 4 * q + s;
    assert x == 1461 * q + 365 * s + t;
    assert 0 <= s <= 3 && 0 <= t <= 365 && (t == 365 ==> s == 3) && 0 <= q <= 24;
    assert w / 4 == q && (w + 1) / 4 == q + (if s == 3 then 1 else 0);
    var u := 24 * b + q + 365 * s + t;
    assert 24 * b + x == 1460 * q + u;
    var e := if u >= 1460 then 1 else 0;
    DivUnique(24 * b + x, 1460, q + e, u - 1460 * e);
  }

  /** The estimate of the year of the era is exact. */
  lemma YearOfEra(doe: int)
    requires 0 <= doe < 146_097
    ensures var yoe := (doe - doe / 1460 + doe / 36_524 - doe / 146_096) / 365;
            0 <= yoe < 400 && YearStart(yoe) <= doe < YearStart(yoe + 1)
  {
    if doe < 146_096 {
      var b := doe / 36_524;
      var x := doe - 36_524 * b;
      var w := YearOfCentury(b, x);
      EraEstimate(doe, b, x, w);
      CenturyYears(b, w);
      if w < 99 {
        CenturyYears(b, w + 1);
      }
    }
  }

  lemma EraEstimate(doe: int, b: int, x: int, w: int)
    requires 0 <= doe < 146_096 && 0 <= b <= 3 && doe == 36_524 * b + x && 0 <= x < 36_524
    requires 365 * w <= x - (24 * b + x) / 1460 < 365 * (w + 1)
    ensures (doe - doe / 1460 + doe / 36_524 - doe / 146_096) / 365 == 100 * b + w
  {
    var e := (24 * b + x) / 1460;
    DivUnique(doe, 1460, 25 * b + e, (24 * b + x) % 1460);
    DivUnique(doe, 36_524, b, x);
    DivUnique(36_500 * b + (x - e), 365, 100 * b + w, x - e - 365 * w);
  }

  lemma CenturyYears(b: int, w: int)
    requires 0 <= b <= 3 && 0 <= w <= 99
    ensures YearStart(100 * b + w) == 36_524 * b + 365 * w + w / 4
    ensures YearStart(100 * b + 100) >= 36_524 * (b + 1)
  {
    assert (100 * b + w) / 4 == 25 * b + w / 4;
    assert (100 * b + w) / 100 == b;
    assert (100 * b + w) / 400 == 0;
    assert (100 * b + 100) / 4 == 25 * b + 25 && (100 * b + 100) / 100 == b + 1;
  }

  // ---------------------------------------------------------------- the month of a year

  lemma MonthOfYear(doy: int)
    requires 0 <= doy <= 365
    ensures var mp := (5 * doy + 2) / 153;
            && 0 <= mp <= 11 && (153 * mp + 2) / 5 == MonthStart(mp)
            && MonthStart(mp) <= doy && (mp < 11 ==> doy < MonthStart(mp + 1))
  {
  }

  // ---------------------------------------------------------------- the two directions

  /** Floor division, although the source divides towards zero. */
  lemma EraIsFloor(z: int)
    ensures TruncDiv(if z >= 0 then z else z - 146_096, 146_097) == z / 146_097
  {
    if z < 0 {
      var q, r := z / 146_097, z % 146_097;
      DivUnique(146_096 - z, 146_097, -q, 146_096 - r);
    }
  }

  /** March year and day of that year. */
  lemma MarchForm(n: int) returns (y: int, doy: int)
    ensures 0 <= doy < YearStart(y + 1) - YearStart(y) && YearStart(y) + doy == n + 719_468
    ensures CivilFromDays(n) == var mp := (5 * doy + 2) / 153;
                                var m := if mp < 10 then mp + 3 else mp - 9;
                                Date(y + (if m <= 2 then 1 else 0), m, doy - (153 * mp + 2) / 5 + 1)
  {
    hide YearStart;
    var z := n + 719_468;
    EraIsFloor(z);
    var era := z / 146_097;
    var doe := z - era * 146_097;
    YearOfEra(doe);
    var yoe := (doe - doe / 1460 + doe / 36_524 - doe / 146_096) / 365;
    y, doy := yoe + era * 400, doe - YearStart(yoe);
    EraShift(era, yoe);
    EraShift(era, yoe + 1);
    assert yoe + 1 + era * 400 == y + 1;
    YearInEra(yoe);
    CivilParts(n, era, doe, yoe, doy);
  }

  lemma YearInEra(yoe: int)
    requires 0 <= yoe < 400
    ensures YearStart(yoe) == 365 * yoe + yoe / 4 - yoe / 100
  {
  }

  /** The source's straight-line computation, once the era is known. */
  lemma CivilParts(n: int, era: int, doe: int, yoe: int, doy: int)
    requires era == TruncDiv(if n + 719_468 >= 0 then n + 719_468 else n + 719_468 - 146_096, 146_097)
    requires doe == n + 719_468 - era * 146_097 && 0 <= doe < 146_097
    requires yoe == (doe - doe / 1460 + doe / 36_524 - doe / 146_096) / 365 && 0 <= yoe < 400
    requires doy == doe - (365 * yoe + yoe / 4 - yoe / 100) && doy >= 0
    ensures CivilFromDays(n) == var mp := (5 * doy + 2) / 153;
                                var m := if mp < 10 then mp + 3 else mp - 9;
                                Date(yoe + era * 400 + (if m <= 2 then 1 else 0), m, doy - (153 * mp + 2) / 5 + 1)
  {
    hide TruncDiv;
    TruncOfNat(doe, 1460);
    TruncOfNat(doe, 36_524);
    TruncOfNat(doe, 146_096);
    TruncOfNat(doe - doe / 1460 + doe / 36_524 - doe / 146_096, 365);
    TruncOfNat(yoe, 4);
    TruncOfNat(yoe, 100);
    TruncOfNat(5 * doy + 2, 153);
    TruncOfNat(153 * ((5 * doy + 2) / 153) + 2, 5);
  }

  lemma TruncOfNat(a: int, b: int)
    requires a >= 0 && b > 0
    ensures TruncDiv(a, b) == a / b
  {
  }

  /** Every day number names a valid date, and that date has that day number. */
  lemma CivilIsValid(n: int)
    ensures ValidDate(CivilFromDays(n)) && DaysFromCivil(CivilFromDays(n)) == n
  {
    hide CivilFromDays, YearStart, Leap;
    var y, doy := MarchForm(n);
    YearLength(y);
    MonthOfYear(doy);
  }

  // ---------------------------------------------------------------- order

  lemma {:induction false} YearsLater(y: int, k: nat)
    ensures YearStart(y) + 365 * k <= YearStart(y + k)
    decreases k
  {
    hide YearStart;
    if k > 0 {
      YearsLater(y, k - 1);
      YearLength(y + k - 1);
    } else {
      assert y + k == y;
    }
  }

  /** Where a valid date lies in its March year. */
  lemma DayOfMarchYear(d: Date)
    requires ValidDate(d)
    ensures var doy := MonthStart(MarchMonth(d)) + d.day - 1;
            0 <= doy < YearStart(MarchYear(d) + 1) - YearStart(MarchYear(d))
  {
    hide YearStart, Leap;
    YearLength(MarchYear(d));
  }

  /** Earlier dates have smaller day numbers. */
  lemma DaysIncrease(a: Date, b: Date)
    requires ValidDate(a) && ValidDate(b) && Before(a, b)
    ensures DaysFromCivil(a) < DaysFromCivil(b)
  {
    hide YearStart, Leap;
    DayOfMarchYear(a);
    DayOfMarchYear(b);
    var ya, yb := MarchYear(a), MarchYear(b);
    if ya < yb {
      YearsLater(ya + 1, yb - ya - 1);
      assert ya + 1 + (yb - ya - 1) == yb;
    }
  }

  /** The two functions are inverse bijections between the integers and the valid dates. */
  lemma CivilOfDays(d: Date)
    requires ValidDate(d)
    ensures CivilFromDays(DaysFromCivil(d)) == d
  {
    hide CivilFromDays, DaysFromCivil, DaysInMonth;
    var n := DaysFromCivil(d);
    var c := CivilFromDays(n);
    CivilIsValid(n);
    if Before(c, d) {
      DaysIncrease(c, d);
    } else if Before(d, c) {
      DaysIncrease(d, c);
    }
  }

  lemma CivilIncreases(m: int, n: int)
    ensures m < n <==> Before(CivilFromDays(m), CivilFromDays(n))
  {
    hide CivilFromDays, DaysFromCivil, DaysInMonth;
    CivilIsValid(m);
    CivilIsValid(n);
    var a, b := CivilFromDays(m), CivilFromDays(n);
    if Before(a, b) {
      DaysIncrease(a, b);
    } else if Before(b, a) {
      DaysIncrease(b, a);
    }
  }

  /** Day 0 is 1970-01-01, and each next day is the calendar successor. */
  lemma CivilSuccessor(n: int)
    ensures CivilFromDays(0) == Date(1970, 1, 1)
    ensures CivilFromDays(n + 1) == Next(CivilFromDays(n))
  {
    var d := CivilFromDays(n);
    CivilIsValid(n);
    hide CivilFromDays;
    NextIsOneLater(d);
    CivilOfDays(Next(d));
    CivilOfDays(Date(1970, 1, 1));
    assert DaysFromCivil(Date(1970, 1, 1)) == 0;
  }

  lemma NextIsOneLater(d: Date)
    requires ValidDate(d)
    ensures ValidDate(Next(d)) && DaysFromCivil(Next(d)) == DaysFromCivil(d) + 1
  {
    hide YearStart, Leap;
    YearLength(MarchYear(d));
  }

  // ---------------------------------------------------------------- RFC 3339 text

  function ZeroPad(s: string, w: nat): string
    decreases w - |s|
  {
    if |s| < w then ZeroPad("0" + s, w) else s
  }

  /** The `{:0w}` format: zeros go between the sign and the digits. */
  function Pad(n: int, w: nat): string
    requires w > 0
  {
    if n < 0 then "-" + ZeroPad(Decimal(-n), w - 1) else ZeroPad(Decimal(n), w)
  }

  function SplitDaysAndSod(secs: int): (int, int) {
    (secs / 86_400, secs % 86_400)
  }

  function FormatSecs(secs: int): string {
    var (days, sod) := SplitDaysAndSod(secs);
    var date := CivilFromDays(days);
    Pad(date.year, 4) + "-" + Pad(date.month, 2) + "-" + Pad(date.day, 2) + "T"
    + Pad(sod / 3600, 2) + ":" + Pad(sod % 3600 / 60, 2) + ":" + Pad(sod % 60, 2) + "Z"
  }

  function DigitAt(s: string, i: nat): int
    requires i < |s|
  {
    s[i] as int - 48
  }

  function Two(s: string, i: nat): int
    requires i + 2 <= |s|
  {
    10 * DigitAt(s, i) + DigitAt(s, i + 1)
  }

  function Four(s: string): int
    requires 4 <= |s|
  {
    100 * Two(s, 0) + Two(s, 2)
  }

  function DateOf(s: string): Date
    requires |s| == 20
  {
    Date(Four(s), Two(s, 5), Two(s, 8))
  }

  predicate DigitPosition(k: nat) {
    k < 19 && k != 4 && k != 7 && k != 10 && k != 13 && k != 16
  }

  /** A UTC timestamp of section 5.6 of RFC 3339, without fraction. */
  predicate IsTimestamp(s: string) {
    && |s| == 20
    && (forall k :: 0 <= k < 20 && DigitPosition(k) ==> '0' <= s[k] <= '9')
    && s[4] == '-' && s[7] == '-' && s[10] == 'T' && s[13] == ':' && s[16] == ':' && s[19] == 'Z'
    && ValidDate(DateOf(s))
    && Two(s, 11) < 24 && Two(s, 14) < 60 && Two(s, 17) < 60
  }

  function SecondsOf(s: string): int
    requires |s| == 20
  {
    DaysFromCivil(DateOf(s)) * 86_400 + Two(s, 11) * 3600 + Two(s, 14) * 60 + Two(s, 17)
  }

  /** 0000-01-01T00:00:00Z and the second after 9999-12-31T23:59:59Z. */
  const FIRST_SECOND := -62_167_219_200
  const PAST_LAST_SECOND := 253_402_300_800

  /** The last `w` decimal digits. */
  function Fixed(n: nat, w: nat): (s: string)
    ensures |s| == w
    decreases w
  {
    if w == 0 then "" else Fixed(n / 10, w - 1) + [Digit(n % 10)]
  }

  lemma {:induction false} ZeroPadStep(s: string, w: nat, c: char)
    requires |s| <= w
    ensures ZeroPad(s + [c], w + 1) == ZeroPad(s, w) + [c]
    decreases w - |s|
  {
    if |s| < w {
      ZeroPadStep("0" + s, w, c);
      assert "0" + (s + [c]) == ("0" + s) + [c];
    }
  }

  lemma {:induction false} FixedZero(w: nat)
    requires w > 0
    ensures Fixed(0, w) == ZeroPad("0", w)
  {
    if w > 1 {
      FixedZero(w - 1);
      ZeroPadStep("", w - 1, '0');
      assert "" + ['0'] == "0" && Digit(0) == '0';
      if w > 1 { assert ZeroPad("", w - 1) == ZeroPad("0", w - 1) by { assert "0" + "" == "0"; } }
    }
  }

  function Pow10(w: nat): nat { if w == 0 then 1 else 10 * Pow10(w - 1) }

  lemma PadDigit(n: nat, w: nat)
    requires w > 0 && n < 10
    ensures ZeroPad([Digit(n)], w) == Fixed(n, w)
  {
    hide Digit;
    if w > 1 {
      FixedZero(w - 1);
      ZeroPadStep("", w - 1, Digit(n));
      assert "" + [Digit(n)] == [Digit(n)];
      assert ZeroPad("", w - 1) == ZeroPad("0", w - 1) by { assert "0" + "" == "0"; }
    } else {
      assert Fixed(n, 1) == Fixed(n / 10, 0) + [Digit(n)];
    }
  }

  /** A number that fits is padded to exactly its last digits. */
  lemma {:induction false} PadIsFixed(n: nat, w: nat)
    requires w > 0 && n < Pow10(w)
    ensures ZeroPad(Decimal(n), w) == Fixed(n, w) && |Decimal(n)| <= w
    decreases w
  {
    hide Digit, ZeroPad;
    assert Pow10(1) == 10 * Pow10(0);
    if n < 10 {
      PadDigit(n, w);
    } else {
      PadIsFixed(n / 10, w - 1);
      ZeroPadStep(Decimal(n / 10), w - 1, Digit(n % 10));
    }
  }

  lemma PadTwo(n: int)
    requires 0 <= n < 100
    ensures Pad(n, 2) == [Digit(n / 10), Digit(n % 10)]
  {
    assert Pow10(2) == 100 by { assert Pow10(1) == 10; }
    PadIsFixed(n, 2);
    assert Fixed(n / 10, 1) == Fixed(n / 10 / 10, 0) + [Digit(n / 10)];
  }

  lemma PadFour(n: int)
    requires 0 <= n < 10_000
    ensures Pad(n, 4) == [Digit(n / 1000), Digit(n / 100 % 10), Digit(n / 10 % 10), Digit(n % 10)]
  {
    assert Pow10(4) == 10_000 by { assert Pow10(1) == 10; assert Pow10(2) == 100; assert Pow10(3) == 1000; }
    PadIsFixed(n, 4);
    assert n / 10 / 10 == n / 100 && n / 100 / 10 == n / 1000;
    assert Fixed(n / 1000, 1) == Fixed(n / 1000 / 10, 0) + [Digit(n / 1000)];
    assert Fixed(n / 100, 2) == [Digit(n / 1000), Digit(n / 100 % 10)];
    assert Fixed(n / 10, 3) == [Digit(n / 1000), Digit(n / 100 % 10), Digit(n / 10 % 10)];
  }

  /** The years 0 to 9999, in seconds. */
  lemma YearRange(secs: int)
    ensures 0 <= CivilFromDays(secs / 86_400).year <= 9999 <==> FIRST_SECOND <= secs < PAST_LAST_SECOND
  {
    hide CivilFromDays;
    var first, last := Date(0, 1, 1), Date(9999, 12, 31);
    var n := secs / 86_400;
    assert DaysFromCivil(first) == -719_528 && DaysFromCivil(last) == 2_932_896;
    CivilOfDays(first);
    CivilOfDays(last);
    CivilIsValid(n);
    CivilIncreases(n, -719_528);
    CivilIncreases(2_932_896, n);
  }

  /** Outside those years the text is not a timestamp: a minus sign, or a fifth digit of the year. */
  lemma PadOverflow(n: int)
    requires n < 0 || n > 9999
    ensures Pad(n, 4) != "" && (Pad(n, 4)[0] == '-' || |Pad(n, 4)| > 4)
  {
    if n > 9999 {
      LongDecimal(n);
    }
  }

  lemma LongDecimal(n: nat)
    requires n > 9999
    ensures |Decimal(n)| > 4
  {
    assert |Decimal(n / 1000)| >= 2 by { assert n / 1000 >= 10; }
    assert n / 10 / 10 == n / 100 && n / 100 / 10 == n / 1000;
    assert |Decimal(n / 100)| >= 3;
    assert |Decimal(n / 10)| >= 4;
  }

  /** Where the fields lie once each has its width. */
  lemma Fields(y: string, m: string, d: string, h: string, n: string, c: string)
    requires |y| == 4 && |m| == |d| == |h| == |n| == |c| == 2
    ensures var s := y + "-" + m + "-" + d + "T" + h + ":" + n + ":" + c + "Z";
            && |s| == 20 && s[0..4] == y && s[5..7] == m && s[8..10] == d && s[11..13] == h && s[14..16] == n && s[17..19] == c
            && s[4] == '-' && s[7] == '-' && s[10] == 'T' && s[13] == ':' && s[16] == ':' && s[19] == 'Z'
  {
  }

  lemma TwoReads(s: string, i: nat, n: int)
    requires 0 <= n < 100 && i + 2 <= |s| && s[i..i + 2] == Pad(n, 2)
    ensures Two(s, i) == n && '0' <= s[i] <= '9' && '0' <= s[i + 1] <= '9'
  {
    hide Pad;
    PadTwo(n);
    assert s[i] == s[i..i + 2][0] && s[i + 1] == s[i..i + 2][1];
  }

  lemma FourReads(s: string, n: int)
    requires 0 <= n < 10_000 && 4 <= |s| && s[0..4] == Pad(n, 4)
    ensures Four(s) == n && forall k :: 0 <= k < 4 ==> '0' <= s[k] <= '9'
  {
    hide Pad;
    PadFour(n);
    assert s[0] == s[0..4][0] && s[1] == s[0..4][1] && s[2] == s[0..4][2] && s[3] == s[0..4][3];
    FourDigits(n);
  }

  lemma FourDigits(n: nat)
    ensures n == 100 * (10 * (n / 1000) + n / 100 % 10) + (10 * (n / 10 % 10) + n % 10)
  {
    var a, b := n / 10, n / 100;
    assert a / 10 == b && b / 10 == n / 1000;
    assert n == 10 * a + n % 10 && a == 10 * b + a % 10;
  }

  lemma PadWidth(n: int)
    ensures 0 <= n < 100 ==> |Pad(n, 2)| == 2
    ensures 0 <= n < 10_000 ==> |Pad(n, 4)| == 4
  {
    hide Pad;
    if 0 <= n < 100 { PadTwo(n); }
    if 0 <= n < 10_000 { PadFour(n); }
  }

  /** The text of a moment in the years 0 to 9999, field by field. */
  lemma FormatFields(secs: int)
    requires FIRST_SECOND <= secs < PAST_LAST_SECOND
    ensures var s := FormatSecs(secs);
            var date, sod := CivilFromDays(secs / 86_400), secs % 86_400;
            && |s| == 20 && (forall k :: 0 <= k < 20 && DigitPosition(k) ==> '0' <= s[k] <= '9')
            && s[4] == '-' && s[7] == '-' && s[10] == 'T' && s[13] == ':' && s[16] == ':' && s[19] == 'Z'
            && DateOf(s) == date && Two(s, 11) == sod / 3600 && Two(s, 14) == sod % 3600 / 60 && Two(s, 17) == sod % 60
  {
    hide CivilFromDays, Pad, Leap, Two, Four;
    var s := FormatSecs(secs);
    var date, sod := CivilFromDays(secs / 86_400), secs % 86_400;
    YearRange(secs);
    CivilIsValid(secs / 86_400);
    var hh, mm, ss := sod / 3600, sod % 3600 / 60, sod % 60;
    PadWidth(date.year); PadWidth(date.month); PadWidth(date.day); PadWidth(hh); PadWidth(mm); PadWidth(ss);
    Fields(Pad(date.year, 4), Pad(date.month, 2), Pad(date.day, 2), Pad(hh, 2), Pad(mm, 2), Pad(ss, 2));
    hide FormatSecs;
    FourReads(s, date.year);
    TwoReads(s, 5, date.month);
    TwoReads(s, 8, date.day);
    TwoReads(s, 11, hh);
    TwoReads(s, 14, mm);
    TwoReads(s, 17, ss);
  }

  /** A minus sign for negative numbers, the digits, and before them as many zeros as the width asks for. */
  ghost predicate Padded(t: string, n: int, w: nat) {
    var sign, digits := (if n < 0 then "-" else ""), Decimal(if n < 0 then -n else n);
    exists zeros: string ::
      && t == sign + (zeros + digits) && (forall k :: 0 <= k < |zeros| ==> zeros[k] == '0')
      && |t| >= w && (zeros != "" ==> |t| == w)
  }

  lemma {:induction false} ZeroPadForm(s: string, w: nat) returns (zeros: string)
    ensures ZeroPad(s, w) == zeros + s && forall k :: 0 <= k < |zeros| ==> zeros[k] == '0'
    ensures |zeros + s| >= w && (zeros != "" ==> |zeros + s| == w)
    decreases w - |s|
  {
    if |s| < w {
      var more := ZeroPadForm("0" + s, w);
      zeros := more + "0";
      assert more + ("0" + s) == zeros + s;
    } else {
      zeros := "";
      assert "" + s == s;
    }
  }

  lemma PadForm(n: int, w: nat)
    requires w > 0
    ensures Padded(Pad(n, w), n, w)
  {
    hide Decimal, ZeroPad;
    if n < 0 {
      var zeros := ZeroPadForm(Decimal(-n), w - 1);
      assert Pad(n, w) == "-" + (zeros + Decimal(-n));
    } else {
      var zeros := ZeroPadForm(Decimal(n), w);
      assert Pad(n, w) == "" + (zeros + Decimal(n));
    }
  }

  /** The year takes what the other fields leave. */
  lemma FieldsAfterYear(y: string, m: string, d: string, h: string, n: string, c: string)
    requires |m| == |d| == |h| == |n| == |c| == 2
    ensures var s := y + "-" + m + "-" + d + "T" + h + ":" + n + ":" + c + "Z";
            var k := |y|;
            && |s| == k + 16 && s[..k] == y && s[k] == '-' && s[k + 3] == '-' && s[k + 6] == 'T' && s[k + 9] == ':'
            && s[k + 12] == ':' && s[k + 15] == 'Z' && s[k + 1..k + 3] == m && s[k + 4..k + 6] == d
            && s[k + 7..k + 9] == h && s[k + 10..k + 12] == n && s[k + 13..k + 15] == c
  {
    var rest := "-" + m + "-" + d + "T" + h + ":" + n + ":" + c + "Z";
    assert y + "-" + m + "-" + d + "T" + h + ":" + n + ":" + c + "Z" == y + rest;
    assert rest[1..3] == m && rest[4..6] == d && rest[7..9] == h && rest[10..12] == n && rest[13..15] == c;
    SlicesAfter(y, rest);
  }

  lemma SlicesAfter(y: string, rest: string)
    requires |rest| == 16
    ensures var s, k := y + rest, |y|;
            && |s| == k + 16 && s[..k] == y && forall i, j :: 0 <= i <= j <= 16 ==> s[k + i..k + j] == rest[i..j]
    ensures forall i :: 0 <= i < 16 ==> (y + rest)[|y| + i] == rest[i]
  {
  }

  /** The fields of the text of a moment, read after `k` characters of the year. */
  predicate Reads(s: string, k: nat, d: Date, sod: int)
    requires |s| == k + 16
  {
    && s[k] == '-' && s[k + 3] == '-' && s[k + 6] == 'T' && s[k + 9] == ':' && s[k + 12] == ':' && s[k + 15] == 'Z'
    && Two(s, k + 1) == d.month && Two(s, k + 4) == d.day
    && Two(s, k + 7) == sod / 3600 && Two(s, k + 10) == sod % 3600 / 60 && Two(s, k + 13) == sod % 60
  }

  /**
   For every moment, before year 0 and after 9999 too: the text is the year of its date, signed and padded to four
   characters, and then month, day and time in two digits each.
   */
  lemma FormatAnyYear(secs: int)
    ensures var s := FormatSecs(secs);
            exists d: Date ::
              && ValidDate(d) && DaysFromCivil(d) == secs / 86_400
              && |s| >= 16 && Padded(s[..|s| - 16], d.year, 4) && Reads(s, |s| - 16, d, secs % 86_400)
  {
    hide CivilFromDays, Pad, Leap, Two, DaysFromCivil, Padded;
    var date, sod := CivilFromDays(secs / 86_400), secs % 86_400;
    CivilIsValid(secs / 86_400);
    var hh, mm, ss := sod / 3600, sod % 3600 / 60, sod % 60;
    PadForm(date.year, 4);
    PadWidth(date.month); PadWidth(date.day); PadWidth(hh); PadWidth(mm); PadWidth(ss);
    FieldsAfterYear(Pad(date.year, 4), Pad(date.month, 2), Pad(date.day, 2), Pad(hh, 2), Pad(mm, 2), Pad(ss, 2));
    var s, k := FormatSecs(secs), |Pad(date.year, 4)|;
    hide FormatSecs;
    TwoReads(s, k + 1, date.month);
    TwoReads(s, k + 4, date.day);
    TwoReads(s, k + 7, hh);
    TwoReads(s, k + 10, mm);
    TwoReads(s, k + 13, ss);
    assert ValidDate(date) && Reads(s, k, date, sod);
  }

  /**
   The formatter writes a timestamp exactly for the years 0 to 9999, and then the timestamp denotes
   the moment it was made from.
   */
  lemma FormatReadsBack(secs: int)
    ensures IsTimestamp(FormatSecs(secs)) <==> FIRST_SECOND <= secs < PAST_LAST_SECOND
    ensures FIRST_SECOND <= secs < PAST_LAST_SECOND ==> SecondsOf(FormatSecs(secs)) == secs
  {
    hide CivilFromDays, FormatSecs, DaysFromCivil, DaysInMonth, Four, Two;
    CivilIsValid(secs / 86_400);
    if FIRST_SECOND <= secs < PAST_LAST_SECOND {
      FormatFields(secs);
    } else {
      FormatOutside(secs);
    }
  }

  lemma FormatOutside(secs: int)
    requires !(FIRST_SECOND <= secs < PAST_LAST_SECOND)
    ensures !IsTimestamp(FormatSecs(secs))
  {
    hide CivilFromDays, Pad, DaysInMonth, Leap;
    YearRange(secs);
    var s, date := FormatSecs(secs), CivilFromDays(secs / 86_400);
    var year := Pad(date.year, 4);
    PadOverflow(date.year);
    assert s[0] == year[0];
    if year[0] != '-' {
      assert s[4] == year[4];
      PadNonnegDigits(date.year, 4);
    }
  }

  lemma PadNonnegDigits(n: int, w: nat)
    requires w > 0 && Pad(n, w) != "" && Pad(n, w)[0] != '-'
    ensures forall k :: 0 <= k < |Pad(n, w)| ==> '0' <= Pad(n, w)[k] <= '9'
  {
    forall k | 0 <= k < |Pad(n, w)| ensures '0' <= Pad(n, w)[k] <= '9' {
      ZeroPadDigits(Decimal(n), w);
      assert Pad(n, w)[k] in Pad(n, w);
    }
  }

  lemma {:induction false} ZeroPadDigits(s: string, w: nat)
    requires forall c :: c in s ==> '0' <= c <= '9'
    ensures forall c :: c in ZeroPad(s, w) ==> '0' <= c <= '9'
    decreases w - |s|
  {
    if |s| < w {
      ZeroPadDigits("0" + s, w);
    }
  }

  // ---------------------------------------------------------------- order of timestamps

  /** Byte order of equally long strings: the first difference decides. */
  ghost predicate TextBefore(s: string, t: string) {
    |s| == |t| && exists k :: 0 <= k < |s| && s[..k] == t[..k] && s[k] < t[k]
  }

  lemma FirstDifference(s: string, t: string)
    requires IsTimestamp(s) && IsTimestamp(t) && TextBefore(s, t)
    ensures SecondsOf(s) < SecondsOf(t)
  {
    hide DaysFromCivil, DaysInMonth;
    var k :| 0 <= k < |s| && s[..k] == t[..k] && s[k] < t[k];
    assert forall j :: 0 <= j < k ==> s[j] == s[..k][j] == t[j];
    if k < 10 {
      assert Before(DateOf(s), DateOf(t));
      DaysIncrease(DateOf(s), DateOf(t));
    } else {
      assert DateOf(s) == DateOf(t);
      if k < 13 {
        assert Two(s, 11) < Two(t, 11);
      } else if k < 16 {
        assert Two(s, 11) == Two(t, 11) && Two(s, 14) < Two(t, 14);
      } else {
        assert Two(s, 11) == Two(t, 11) && Two(s, 14) == Two(t, 14) && Two(s, 17) < Two(t, 17);
      }
    }
  }

  /** Strings of one length that differ somewhere are ordered one way or the other. */
  lemma {:induction false} TextTotal(s: string, t: string, k: nat, j: nat)
    requires |s| == |t| && k <= j < |s| && s[j] != t[j] && s[..k] == t[..k]
    ensures TextBefore(s, t) || TextBefore(t, s)
    decreases j - k
  {
    if s[k] == t[k] {
      assert s[..k + 1] == s[..k] + [s[k]] && t[..k + 1] == t[..k] + [t[k]];
      TextTotal(s, t, k + 1, j);
    }
  }

  /** In the years 0 to 9999, text order is time order. */
  lemma OrderPreserved(a: int, b: int)
    requires FIRST_SECOND <= a < PAST_LAST_SECOND && FIRST_SECOND <= b < PAST_LAST_SECOND
    ensures a < b <==> TextBefore(FormatSecs(a), FormatSecs(b))
  {
    hide FormatSecs, IsTimestamp, SecondsOf;
    var s, t := FormatSecs(a), FormatSecs(b);
    FormatReadsBack(a);
    FormatReadsBack(b);
    assert |s| == |t| by { FormatFields(a); FormatFields(b); }
    if TextBefore(s, t) {
      FirstDifference(s, t);
    } else if s != t {
      var j :| 0 <= j < |s| && s[j] != t[j];
      TextTotal(s, t, 0, j);
      FirstDifference(t, s);
    }
  }

  /** Every `i64` number of seconds goes through without overflowing `i64`. */
  lemma NoOverflow(secs: i64)
    ensures var z := secs / 86_400 + 719_468;
            var era := z / 146_097;
            && -0x8000_0000_0000_0000 <= z - 146_096 && z < 0x8000_0000_0000_0000
            && -0x8000_0000_0000_0000 <= era * 146_097 <= z
            && -0x8000_0000_0000_0000 <= CivilFromDays(secs / 86_400).year < 0x8000_0000_0000_0000
  {
    hide CivilFromDays, YearStart;
    var n := secs / 86_400;
    var y, doy := MarchForm(n);
    YearStartRange(y);
    YearLength(y);
  }

  lemma YearStartRange(y: int)
    ensures y >= 0 ==> YearStart(y) >= y
    ensures y < 0 ==> YearStart(y) <= y
  {
  }
}
