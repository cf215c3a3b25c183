/** The three timestamp renderings of the store and what their string order
    means. Instants are microseconds since 0001-01-01T00:00:00Z. */
module Timestamps {
  import opened Text

  const SECOND: int := 1_000_000
  const DAY_SECONDS: int := 86_400
  const FUTURE_SLACK: int := 300 * SECOND

  // ----- The proleptic Gregorian calendar -----

  /** The fields of a `datetime`, without its zone. */
  datatype Civil = Civil(year: int, month: int, day: int, hour: int, minute: int, second: int, micro: int)

  predicate IsLeap(y: int) {
    y % 4 == 0 && (y % 100 != 0 || y % 400 == 0)
  }

  function DaysBeforeYear(y: int): int {
    365 * (y - 1) + (y - 1) / 4 - (y - 1) / 100 + (y - 1) / 400
  }

  function DaysInMonth(y: int, m: int): (d: int)
    ensures 28 <= d <= 31
  {
    if m == 2 then (if IsLeap(y) then 29 else 28)
    else if m == 4 || m == 6 || m == 9 || m == 11 then 30 else 31
  }

  function DaysBeforeMonth(y: int, m: int): (d: int)
    ensures d >= 0
    decreases m
  {
    if m <= 1 then 0 else DaysBeforeMonth(y, m - 1) + DaysInMonth(y, m - 1)
  }

  predicate ValidDate(y: int, m: int, d: int) {
    1 <= y <= 9999 && 1 <= m <= 12 && 1 <= d <= DaysInMonth(y, m)
  }

  predicate ValidCivil(c: Civil) {
    && ValidDate(c.year, c.month, c.day)
    && 0 <= c.hour < 24 && 0 <= c.minute < 60 && 0 <= c.second < 60 && 0 <= c.micro < SECOND
  }

  /** Day number, 1 for 0001-01-01. */
  function Ordinal(y: int, m: int, d: int): int {
    DaysBeforeYear(y) + DaysBeforeMonth(y, m) + d
  }

  function Seconds(c: Civil): int {
    (Ordinal(c.year, c.month, c.day) - 1) * DAY_SECONDS + c.hour * 3600 + c.minute * 60 + c.second
  }

  function Instant(c: Civil): int {
    Seconds(c) * SECOND + c.micro
  }

  const END_OF_TIME: int := DaysBeforeYear(10000) * DAY_SECONDS * SECOND

  lemma CountMultiples(y: int, k: int)
    requires k == 4 || k == 100 || k == 400
    ensures y / k == (y - 1) / k + (if y % k == 0 then 1 else 0)
  {
  }

  lemma CenturiesNest(y: int)
    ensures y % 100 == 0 ==> y % 4 == 0
    ensures y % 400 == 0 ==> y % 100 == 0
  {
    if y % 100 == 0 {
      Multiples(y, 25 * (y / 100));
    }
    if y % 400 == 0 {
      Multiples(y, 4 * (y / 400));
    }
  }

  lemma Multiples(y: int, k: int)
    ensures y == 4 * k ==> y % 4 == 0
    ensures y == 100 * k ==> y % 100 == 0
  {
  }

  lemma YearLength(y: int)
    ensures DaysBeforeYear(y + 1) == DaysBeforeYear(y) + (if IsLeap(y) then 366 else 365)
  {
    CountMultiples(y, 4);
    CountMultiples(y, 100);
    CountMultiples(y, 400);
    CenturiesNest(y);
  }

  lemma {:induction false} YearsAscend(a: int, b: int)
    requires a <= b
    ensures DaysBeforeYear(a) + 365 * (b - a) <= DaysBeforeYear(b)
    decreases b - a
  {
    if a < b {
      YearsAscend(a, b - 1);
      YearLength(b - 1);
    }
  }

  lemma {:induction false} MonthsAscend(y: int, a: int, b: int)
    requires 1 <= a < b
    ensures DaysBeforeMonth(y, a) + DaysInMonth(y, a) <= DaysBeforeMonth(y, b)
    decreases b - a
  {
    if a < b - 1 {
      MonthsAscend(y, a, b - 1);
    }
  }

  lemma MonthsFillYear(y: int)
    ensures DaysBeforeMonth(y, 13) == (if IsLeap(y) then 366 else 365)
  {
    var m := 1;
    assert DaysBeforeMonth(y, 3) == 31 + DaysInMonth(y, 2);
    assert DaysBeforeMonth(y, 5) == DaysBeforeMonth(y, 3) + 61;
    assert DaysBeforeMonth(y, 7) == DaysBeforeMonth(y, 5) + 61;
    assert DaysBeforeMonth(y, 9) == DaysBeforeMonth(y, 7) + 62;
    assert DaysBeforeMonth(y, 11) == DaysBeforeMonth(y, 9) + 61;
  }

  lemma OrdinalInYear(y: int, m: int, d: int)
    requires ValidDate(y, m, d)
    ensures DaysBeforeYear(y) < Ordinal(y, m, d) <= DaysBeforeYear(y + 1)
  {
    MonthsAscend(y, m, 13);
    MonthsFillYear(y);
    YearLength(y);
  }

  predicate DateBelow(a: Civil, b: Civil) {
    || a.year < b.year
    || (a.year == b.year && (a.month < b.month || (a.month == b.month && a.day < b.day)))
  }

  /** Later calendar date, later day number. */
  lemma DatesAscend(a: Civil, b: Civil)
    requires ValidCivil(a) && ValidCivil(b)
    ensures DateBelow(a, b) <==> Ordinal(a.year, a.month, a.day) < Ordinal(b.year, b.month, b.day)
    ensures (a.year, a.month, a.day) == (b.year, b.month, b.day)
       <==> Ordinal(a.year, a.month, a.day) == Ordinal(b.year, b.month, b.day)
  {
    DatesAscendOneWay(a, b);
    DatesAscendOneWay(b, a);
  }

  lemma DatesAscendOneWay(a: Civil, b: Civil)
    requires ValidCivil(a) && ValidCivil(b)
    ensures DateBelow(a, b) ==> Ordinal(a.year, a.month, a.day) < Ordinal(b.year, b.month, b.day)
  {
    if a.year < b.year {
      OrdinalInYear(a.year, a.month, a.day);
      OrdinalInYear(b.year, b.month, b.day);
      YearsAscend(a.year + 1, b.year);
    } else if a.year == b.year && a.month < b.month {
      MonthsAscend(a.year, a.month, b.month);
    }
  }

  // ----- From an instant back to its UTC fields (`astimezone(UTC)`) -----

  function YearFrom(n: int, y: int): (r: int)
    requires DaysBeforeYear(y) < n
    ensures DaysBeforeYear(r) < n <= DaysBeforeYear(r + 1) && y <= r
    decreases n - DaysBeforeYear(y)
  {
    if n <= DaysBeforeYear(y + 1) then y else (YearLength(y); YearFrom(n, y + 1))
  }

  function MonthFrom(y: int, d: int, m: int): (r: int)
    requires 1 <= m <= 12 && DaysBeforeMonth(y, m) < d <= DaysBeforeMonth(y, 13)
    ensures m <= r <= 12 && DaysBeforeMonth(y, r) < d <= DaysBeforeMonth(y, r + 1)
    decreases 13 - m
  {
    if d <= DaysBeforeMonth(y, m + 1) then m else MonthFrom(y, d, m + 1)
  }

  function DateFrom(n: int): (d: (int, int, int))
    requires 1 <= n <= DaysBeforeYear(10000)
    ensures ValidDate(d.0, d.1, d.2) && Ordinal(d.0, d.1, d.2) == n
  {
    var y := YearFrom(n, 1);
    assert y <= 9999 by {
      if y >= 10000 { YearsAscend(10000, y); }
    }
    var d := n - DaysBeforeYear(y);
    assert d <= DaysBeforeMonth(y, 13) by { YearLength(y); MonthsFillYear(y); }
    var m := MonthFrom(y, d, 1);
    (y, m, d - DaysBeforeMonth(y, m))
  }

  function UtcFields(t: int): (c: Civil)
    requires 0 <= t < END_OF_TIME
    ensures ValidCivil(c) && Instant(c) == t
  {
    var secs := t / SECOND;
    var (n, s) := (secs / DAY_SECONDS, secs % DAY_SECONDS);
    var (y, m, d) := DateFrom(n + 1);
    var r := s % 3600;
    Civil(y, m, d, s / 3600, r / 60, r % 60, t % SECOND)
  }

  // ----- Rendering -----

  /** `Y-m-dTH:M:S` with a `w`-digit year, followed by `rest`. */
  function Stamped(w: nat, c: Civil, rest: string): string
    requires ValidCivil(c)
  {
    Padded(c.year, w) + ("-" + (Padded(c.month, 2) + ("-" + (Padded(c.day, 2) + ("T" + Clock(c, rest))))))
  }

  function Clock(c: Civil, rest: string): string
    requires ValidCivil(c)
  {
    Padded(c.hour, 2) + (":" + (Padded(c.minute, 2) + (":" + (Padded(c.second, 2) + rest))))
  }

  /** `strftime("%Y-%m-%dT%H:%M:%S.%fZ")`; `%Y` prints the year without padding. */
  function Canonical(c: Civil): string
    requires ValidCivil(c)
  {
    Stamped(|Decimal(c.year)|, c, "." + Padded(c.micro, 6) + "Z")
  }

  /** `isoformat()`: the year always has four digits, a zero fraction is dropped. */
  function IsoWith(c: Civil, zone: string): string
    requires ValidCivil(c)
  {
    Stamped(4, c, Fraction(c, zone))
  }

  /** What rows and cursors store and SQLite compares. */
  function IsoUtc(c: Civil): string
    requires ValidCivil(c)
  {
    IsoWith(c, "+00:00")
  }

  /** `_memory_timestamp`: the same with `Z` for the offset. */
  function MemoryTimestamp(c: Civil): string
    requires ValidCivil(c)
  {
    IsoWith(c, "Z")
  }

  // ----- String order against time order -----

  lemma FieldOrder(n: nat, m: nat, w: nat, x: string, y: string)
    requires n < Pow10(w) && m < Pow10(w)
    ensures Below(Padded(n, w) + x, Padded(m, w) + y) <==> n < m || (n == m && Below(x, y))
  {
    if n == m {
      BelowCommonPrefix(Padded(n, w), x, y);
    } else {
      PaddedOrder(if n < m then n else m, if n < m then m else n, w);
      BelowTrichotomy(Padded(n, w), Padded(m, w));
      BelowField(Padded(n, w), x, Padded(m, w), y);
    }
  }

  function TimeOfDay(c: Civil): int {
    c.hour * 3600 + c.minute * 60 + c.second
  }

  lemma ClockOrder(a: Civil, x: string, b: Civil, y: string)
    requires ValidCivil(a) && ValidCivil(b)
    ensures Below(Clock(a, x), Clock(b, y))
       <==> TimeOfDay(a) < TimeOfDay(b) || (TimeOfDay(a) == TimeOfDay(b) && Below(x, y))
  {
    var (sa, sb) := (Padded(a.second, 2) + x, Padded(b.second, 2) + y);
    var (ma, mb) := (Padded(a.minute, 2) + (":" + sa), Padded(b.minute, 2) + (":" + sb));
    assert Pow10(2) == 100;
    FieldOrder(a.second, b.second, 2, x, y);
    BelowCommonPrefix(":", sa, sb);
    FieldOrder(a.minute, b.minute, 2, ":" + sa, ":" + sb);
    BelowCommonPrefix(":", ma, mb);
    FieldOrder(a.hour, b.hour, 2, ":" + ma, ":" + mb);
  }

  /** With years of one width, the first 15 + w characters decide by the second
      and what follows decides within the second. */
  lemma StampedOrder(w: nat, a: Civil, x: string, b: Civil, y: string)
    requires ValidCivil(a) && ValidCivil(b) && a.year < Pow10(w) && b.year < Pow10(w)
    ensures Below(Stamped(w, a, x), Stamped(w, b, y))
       <==> Seconds(a) < Seconds(b) || (Seconds(a) == Seconds(b) && Below(x, y))
  {
    var (ca, cb) := (Clock(a, x), Clock(b, y));
    var (da, db) := (Padded(a.day, 2) + ("T" + ca), Padded(b.day, 2) + ("T" + cb));
    var (ma, mb) := (Padded(a.month, 2) + ("-" + da), Padded(b.month, 2) + ("-" + db));
    assert Pow10(2) == 100;
    ClockOrder(a, x, b, y);
    BelowCommonPrefix("T", ca, cb);
    FieldOrder(a.day, b.day, 2, "T" + ca, "T" + cb);
    BelowCommonPrefix("-", da, db);
    FieldOrder(a.month, b.month, 2, "-" + da, "-" + db);
    BelowCommonPrefix("-", ma, mb);
    FieldOrder(a.year, b.year, w, "-" + ma, "-" + mb);
    DatesAscend(a, b);
  }

  lemma {:induction false} DecimalWidth(n: nat)
    ensures n < Pow10(|Decimal(n)|)
    ensures Decimal(n) == Padded(n, |Decimal(n)|)
    decreases n
  {
    var w := |Decimal(n)|;
    if n >= 10 {
      DecimalWidth(n / 10);
      assert Pow10(w) == 10 * Pow10(w - 1);
    } else {
      assert Pow10(1) == 10;
      assert Padded(n, 1) == Padded(n / 10, 0) + [Digit(n % 10)];
    }
  }

  lemma FourDigitYear(y: int)
    requires 1000 <= y <= 9999
    ensures |Decimal(y)| == 4
  {
    assert |Decimal(y / 1000)| == 1;
    assert |Decimal(y / 100)| == 2;
    assert |Decimal(y / 10)| == 3;
  }

  /** The canonical form sorts as time whenever the two years print in the same
      number of digits, so on all of 1000-9999. */
  lemma CanonicalOrder(a: Civil, b: Civil)
    requires ValidCivil(a) && ValidCivil(b) && |Decimal(a.year)| == |Decimal(b.year)|
    ensures Below(Canonical(a), Canonical(b)) <==> Instant(a) < Instant(b)
    ensures Canonical(a) == Canonical(b) <==> Instant(a) == Instant(b)
  {
    CanonicalOrderOneWay(a, b);
    CanonicalOrderOneWay(b, a);
    BelowTrichotomy(Canonical(a), Canonical(b));
    if Instant(a) == Instant(b) {
      InstantInjective(a, b);
    }
  }

  lemma CanonicalOrderOneWay(a: Civil, b: Civil)
    requires ValidCivil(a) && ValidCivil(b) && |Decimal(a.year)| == |Decimal(b.year)|
    ensures Below(Canonical(a), Canonical(b)) <==> Instant(a) < Instant(b)
  {
    DecimalWidth(a.year);
    DecimalWidth(b.year);
    var (x, y) := (Padded(a.micro, 6) + "Z", Padded(b.micro, 6) + "Z");
    assert "." + Padded(a.micro, 6) + "Z" == "." + x && "." + Padded(b.micro, 6) + "Z" == "." + y;
    StampedOrder(|Decimal(a.year)|, a, "." + x, b, "." + y);
    BelowCommonPrefix(".", x, y);
    MicroOrder(a, "Z", b);
  }

  lemma MicroOrder(a: Civil, z: string, b: Civil)
    requires ValidCivil(a) && ValidCivil(b)
    ensures Below(Padded(a.micro, 6) + z, Padded(b.micro, 6) + z) <==> a.micro < b.micro
  {
    assert Pow10(3) == 1000;
    assert Pow10(6) == SECOND;
    FieldOrder(a.micro, b.micro, 6, z, z);
    BelowTrichotomy(z, z);
  }

  lemma InstantInjective(a: Civil, b: Civil)
    requires ValidCivil(a) && ValidCivil(b) && Instant(a) == Instant(b)
    ensures a == b
  {
    assert Seconds(a) == Instant(a) / SECOND && Seconds(b) == Instant(b) / SECOND;
    assert Ordinal(a.year, a.month, a.day) - 1 == Seconds(a) / DAY_SECONDS;
    assert Ordinal(b.year, b.month, b.day) - 1 == Seconds(b) / DAY_SECONDS;
    DatesAscend(a, b);
  }

  /** The unpadded `%Y` breaks the order across a change of width. */
  lemma ShortYearsSortWrongly()
    ensures var (a, b) := (Civil(999, 1, 1, 0, 0, 0, 0), Civil(1000, 1, 1, 0, 0, 0, 0));
      && ValidCivil(a) && ValidCivil(b) && Instant(a) < Instant(b)
      && Below(Canonical(b), Canonical(a))
  {
    var (a, b) := (Civil(999, 1, 1, 0, 0, 0, 0), Civil(1000, 1, 1, 0, 0, 0, 0));
    DatesAscend(a, b);
    DecimalWidth(999);
    DecimalWidth(1000);
    assert Decimal(99)[0] == '9' && Decimal(100)[0] == '1';
    assert Decimal(999)[0] == '9' && Decimal(1000)[0] == '1';
    assert Canonical(a)[0] == '9' && Canonical(b)[0] == '1';
  }

  /** Different numbers behind a character below the digits compare as they print. */
  lemma {:induction false} DigitsBeforeDash(x: string, s: string, y: string, t: string)
    requires forall i :: 0 <= i < |x| ==> IsDigit(x[i])
    requires forall i :: 0 <= i < |y| ==> IsDigit(y[i])
    requires x != y
    ensures Below(x + ("-" + s), y + ("-" + t)) <==> Below(x, y)
  {
    var (xs, yt) := (x + ("-" + s), y + ("-" + t));
    if x != "" && y != "" {
      assert xs[1..] == x[1..] + ("-" + s) && yt[1..] == y[1..] + ("-" + t);
      if x[0] == y[0] {
        assert x == [x[0]] + x[1..] && y == [y[0]] + y[1..];
        DigitsBeforeDash(x[1..], s, y[1..], t);
      }
    } else {
      assert xs[0] == (if x == "" then '-' else x[0]) && yt[0] == (if y == "" then '-' else y[0]);
    }
  }

  function AfterYear(c: Civil): string
    requires ValidCivil(c)
  {
    Padded(c.month, 2) + ("-" + (Padded(c.day, 2) + ("T" + Clock(c, "." + (Padded(c.micro, 6) + "Z")))))
  }

  lemma CanonicalByYear(c: Civil)
    requires ValidCivil(c)
    ensures Canonical(c) == Decimal(c.year) + ("-" + AfterYear(c))
  {
    DecimalWidth(c.year);
  }

  lemma YearsDecide(a: Civil, b: Civil)
    requires ValidCivil(a) && ValidCivil(b) && a.year != b.year
    ensures Below(Canonical(a), Canonical(b)) <==> Below(Decimal(a.year), Decimal(b.year))
    ensures Instant(a) < Instant(b) <==> a.year < b.year
  {
    CanonicalByYear(a);
    CanonicalByYear(b);
    DecimalValue(a.year);
    DecimalValue(b.year);
    DigitsBeforeDash(Decimal(a.year), AfterYear(a), Decimal(b.year), AfterYear(b));
    DatesAscend(a, b);
  }

  predicate PrintedInOrder(x: nat, y: nat) {
    x == y || (Below(Decimal(x), Decimal(y)) <==> x < y)
  }

  /** For every pair: canonical strings coincide with the instants, and compare as they do
      if and only if the two years are one, or sort as unpadded text the way they sort
      as numbers. */
  lemma CanonicalOrderExactly(a: Civil, b: Civil)
    requires ValidCivil(a) && ValidCivil(b)
    ensures (Below(Canonical(a), Canonical(b)) <==> Instant(a) < Instant(b)) <==> PrintedInOrder(a.year, b.year)
    ensures Canonical(a) == Canonical(b) <==> Instant(a) == Instant(b)
  {
    hide Below, Canonical;
    if a.year == b.year {
      CanonicalOrder(a, b);
    } else {
      YearsDecide(a, b);
      YearsDecide(b, a);
      DecimalValue(a.year);
      DecimalValue(b.year);
      BelowTrichotomy(Decimal(a.year), Decimal(b.year));
      BelowTrichotomy(Canonical(a), Canonical(b));
    }
  }

  /** `n` without its last `k` digits. */
  function Leading(n: nat, k: nat): nat {
    if k == 0 then n else Leading(n / 10, k - 1)
  }

  lemma {:induction false} LeadingDigits(n: nat, w: nat, k: nat)
    ensures Padded(n, w + k)[..w] == Padded(Leading(n, k), w)
    ensures n < Pow10(w + k) ==> Leading(n, k) < Pow10(w)
  {
    if k == 0 {
      assert Padded(n, w)[..w] == Padded(n, w);
    } else {
      LeadingDigits(n / 10, w, k - 1);
      assert Padded(n, w + k)[..w] == Padded(n / 10, w + k - 1)[..w];
    }
  }

  lemma TenTimes(x: nat, p: nat)
    ensures x * (10 * p) == 10 * (x * p)
  {
  }

  lemma {:induction false} LeadingScales(x: nat, n: nat, k: nat)
    ensures x * Pow10(k) <= n <==> x <= Leading(n, k)
  {
    if k > 0 {
      LeadingScales(x, n / 10, k - 1);
      var p := Pow10(k - 1);
      TenTimes(x, p);
      var m := x * p;
      assert 10 * m <= n <==> m <= n / 10;
    }
  }

  lemma {:induction false} PowersAscend(v: nat, w: nat)
    requires v <= w
    ensures Pow10(v) <= Pow10(w)
  {
    if v < w {
      PowersAscend(v, w - 1);
    }
  }

  lemma {:induction false} WidthIsTight(n: nat)
    requires n > 0
    ensures Pow10(|Decimal(n)| - 1) <= n < Pow10(|Decimal(n)|)
    decreases n
  {
    DecimalWidth(n);
    if n >= 10 {
      WidthIsTight(n / 10);
    }
  }

  lemma WiderIsGreater(x: nat, y: nat)
    requires x > 0 && y > 0 && |Decimal(x)| < |Decimal(y)|
    ensures x < y
  {
    WidthIsTight(x);
    WidthIsTight(y);
    PowersAscend(|Decimal(x)|, |Decimal(y)| - 1);
  }

  lemma BelowExtended(a: string, b: string, rest: string)
    requires |a| == |b|
    ensures Below(a, b + rest) <==> Below(a, b) || (a == b && rest != "")
  {
    assert a + "" == a;
    BelowTrichotomy(a, b);
    if a == b {
      BelowCommonPrefix(a, "", rest);
    } else {
      BelowField(a, "", b, rest);
    }
  }

  lemma PaddedCompares(x: nat, z: nat, w: nat)
    requires x < Pow10(w) && z < Pow10(w)
    ensures Below(Padded(x, w), Padded(z, w)) <==> x < z
    ensures Padded(x, w) == Padded(z, w) <==> x == z
  {
    FieldOrder(x, z, w, "", "");
    assert Padded(x, w) + "" == Padded(x, w) && Padded(z, w) + "" == Padded(z, w);
    PaddedValue(x, w);
    PaddedValue(z, w);
  }

  /** In numbers: the lesser year, filled up with zeros to the width of the greater,
      must not exceed it. */
  lemma PrintedInOrderExactly(x: nat, y: nat)
    requires 0 < x < y
    ensures |Decimal(x)| <= |Decimal(y)|
    ensures PrintedInOrder(x, y) <==> x * Pow10(|Decimal(y)| - |Decimal(x)|) <= y
  {
    hide Below, Decimal, Padded, Pow10;
    if |Decimal(y)| < |Decimal(x)| {
      WiderIsGreater(y, x);
    } else {
      PaddedInOrderExactly(x, y, |Decimal(x)|, |Decimal(y)| - |Decimal(x)|);
    }
  }

  lemma PaddedInOrderExactly(x: nat, y: nat, w: nat, k: nat)
    requires w == |Decimal(x)| && w + k == |Decimal(y)|
    ensures Below(Decimal(x), Decimal(y)) <==> x * Pow10(k) <= y && (x != y || k > 0)
  {
    hide Below, Decimal, Padded, Pow10;
    DecimalWidth(x);
    DecimalWidth(y);
    LeadingDigits(y, w, k);
    LeadingScales(x, y, k);
    var (head, rest) := (Decimal(y)[..w], Decimal(y)[w..]);
    assert Decimal(y) == head + rest;
    BelowExtended(Decimal(x), head, rest);
    PaddedCompares(x, Leading(y, k), w);
  }

  /** `isoformat` in UTC sorts as time for every pair, dropped fraction or not,
      because `+` comes before `.`. */
  lemma IsoUtcOrder(a: Civil, b: Civil)
    requires ValidCivil(a) && ValidCivil(b)
    ensures Below(IsoUtc(a), IsoUtc(b)) <==> Instant(a) < Instant(b)
  {
    IsoOrder(a, b, "+00:00");
    FractionOrder(a, b, "+00:00");
  }

  /** With `Z` it does so exactly when the earlier of two stamps in one second
      keeps its fraction, because `Z` comes after `.`. */
  lemma MemoryTimestampOrder(a: Civil, b: Civil)
    requires ValidCivil(a) && ValidCivil(b) && Instant(a) < Instant(b)
    ensures Below(MemoryTimestamp(a), MemoryTimestamp(b)) <==> !(a.micro == 0 && Seconds(a) == Seconds(b))
  {
    IsoOrder(a, b, "Z");
    FractionOrder(a, b, "Z");
  }

  /** ...00.500000Z sorts before ...00Z of the same second. */
  lemma HalfSecondSortsWrongly()
    ensures
      var a := Civil(2026, 1, 1, 0, 0, 0, 0);
      var b := a.(micro := 500_000);
      && ValidCivil(a) && ValidCivil(b) && Instant(a) < Instant(b)
      && Below(MemoryTimestamp(b), MemoryTimestamp(a))
  {
    hide Below, IsoWith, MemoryTimestamp;
    var a := Civil(2026, 1, 1, 0, 0, 0, 0);
    var b := a.(micro := 500_000);
    MemoryTimestampOrder(a, b);
    MemoryTimestampTellsApart(a, b);
  }

  lemma MemoryTimestampTellsApart(a: Civil, b: Civil)
    requires ValidCivil(a) && ValidCivil(b) && a.micro == 0 && b.micro != 0
    ensures Below(MemoryTimestamp(a), MemoryTimestamp(b)) || Below(MemoryTimestamp(b), MemoryTimestamp(a))
  {
    hide Below;
    BelowTrichotomy(MemoryTimestamp(a), MemoryTimestamp(b));
    WidthsDiffer(a, b);
  }

  lemma WidthsDiffer(a: Civil, b: Civil)
    requires ValidCivil(a) && ValidCivil(b) && a.micro == 0 && b.micro != 0
    ensures |MemoryTimestamp(a)| < |MemoryTimestamp(b)|
  {
  }

  function Fraction(c: Civil, z: string): string
    requires ValidCivil(c)
  {
    (if c.micro == 0 then "" else "." + Padded(c.micro, 6)) + z
  }

  lemma FractionOrder(a: Civil, b: Civil, z: string)
    requires ValidCivil(a) && ValidCivil(b) && z != "" && z[0] != '.'
    ensures Below(Fraction(a, z), Fraction(b, z)) <==>
      if (a.micro == 0) == (b.micro == 0) then a.micro < b.micro else (a.micro == 0) == (z[0] < '.')
  {
    var (fa, fb) := (Fraction(a, z), Fraction(b, z));
    if a.micro != 0 && b.micro != 0 {
      var (x, y) := (Padded(a.micro, 6) + z, Padded(b.micro, 6) + z);
      assert fa == "." + x && fb == "." + y;
      BelowCommonPrefix(".", x, y);
      MicroOrder(a, z, b);
    } else if a.micro == 0 && b.micro == 0 {
      assert fa == fb;
      BelowTrichotomy(fa, fb);
    } else {
      assert fa[0] == (if a.micro == 0 then z[0] else '.') && fb[0] == (if b.micro == 0 then z[0] else '.');
    }
  }

  lemma IsoOrder(a: Civil, b: Civil, z: string)
    requires ValidCivil(a) && ValidCivil(b) && z != "" && z[0] != '.'
    ensures Below(IsoWith(a, z), IsoWith(b, z)) <==>
      || Seconds(a) < Seconds(b)
      || (Seconds(a) == Seconds(b) && Below(Fraction(a, z), Fraction(b, z)))
  {
    assert Pow10(4) == 10_000;
    StampedOrder(4, a, Fraction(a, z), b, Fraction(b, z));
  }
}
