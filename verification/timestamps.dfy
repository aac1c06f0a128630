/** The fixed-width UTC timestamp text that range queries compare as strings. */
module Timestamps {
  import opened Config
  import opened Decimal

  /** A UTC time broken down by the proleptic Gregorian calendar. */
  datatype Civil = Civil(year: nat, month: nat, day: nat, hour: nat, minute: nat, second: nat, nanos: nat)
  {
    predicate Valid() {
      && year <= 9999 && 1 <= month <= 12 && 1 <= day <= DaysIn(year, month)
      && hour < 24 && minute < 60 && second < 60 && nanos < 1_000_000_000
    }
  }

  predicate Leap(y: nat) { y % 4 == 0 && (y % 100 != 0 || y % 400 == 0) }

  function DaysIn(y: nat, m: nat): nat {
    if m == 2 then (if Leap(y) then 29 else 28)
    else if m == 4 || m == 6 || m == 9 || m == 11 then 30
    else 31
  }

  function DaysBeforeMonth(y: nat, m: nat): nat {
    if m <= 1 then 0 else DaysBeforeMonth(y, m - 1) + DaysIn(y, m - 1)
  }

  function DaysBeforeYear(y: nat): nat {
    if y == 0 then 0 else DaysBeforeYear(y - 1) + if Leap(y - 1) then 366 else 365
  }

  function DayNumber(c: Civil): int {
    DaysBeforeYear(c.year) + DaysBeforeMonth(c.year, c.month) + c.day - 1
  }

  /** Nanoseconds since the start of year 0: the chronological position. */
  function Instant(c: Civil): int {
    (((DayNumber(c) * 24 + c.hour) * 60 + c.minute) * 60 + c.second) * 1_000_000_000 + c.nanos
  }

  // ----- the calendar is chronological

  lemma {:induction false} MonthsAdd(y: nat, m: nat, n: nat)
    requires 1 <= m < n <= 13
    ensures DaysBeforeMonth(y, m) + DaysIn(y, m) <= DaysBeforeMonth(y, n)
  {
    if m + 1 < n { MonthsAdd(y, m, n - 1); }
  }

  lemma YearLength(y: nat)
    ensures DaysBeforeMonth(y, 13) == if Leap(y) then 366 else 365
  {
    var february := DaysIn(y, 2);
    assert DaysBeforeMonth(y, 2) == 31;
    assert DaysBeforeMonth(y, 3) == 31 + february;
    assert DaysBeforeMonth(y, 5) == 92 + february;
    assert DaysBeforeMonth(y, 7) == 153 + february;
    assert DaysBeforeMonth(y, 9) == 215 + february;
    assert DaysBeforeMonth(y, 11) == 276 + february;
  }

  lemma {:induction false} YearsAdd(y: nat, z: nat)
    requires y < z
    ensures DaysBeforeYear(y) + (if Leap(y) then 366 else 365) <= DaysBeforeYear(z)
  {
    if y + 1 < z { YearsAdd(y, z - 1); }
  }

  lemma LaterDate(a: Civil, b: Civil)
    requires a.Valid() && b.Valid()
    requires a.year < b.year || (a.year == b.year && a.month < b.month)
    ensures DayNumber(a) < DayNumber(b)
  {
    if a.year < b.year {
      YearsAdd(a.year, b.year);
      YearLength(a.year);
      MonthsAdd(a.year, a.month, 13);
    } else {
      MonthsAdd(a.year, a.month, b.month);
    }
  }

  /** The multiples of `p` from 0 on and before `y`. */
  function MultiplesBefore(y: nat, p: nat): nat
    requires p > 0
  {
    (y + p - 1) / p
  }

  lemma OneMoreYear(y: nat, p: nat)
    requires p == 4 || p == 100 || p == 400
    ensures MultiplesBefore(y + 1, p) == MultiplesBefore(y, p) + if y % p == 0 then 1 else 0
  {
    var q, r := y / p, y % p;
    assert y == p * q + r;
    if p == 4 { assert y == 4 * q + r; } else if p == 100 { assert y == 100 * q + r; } else { assert y == 400 * q + r; }
  }

  lemma LeapYears(y: nat)
    ensures y % 100 == 0 ==> y % 4 == 0
    ensures y % 400 == 0 ==> y % 100 == 0
  {
    if y % 100 == 0 { assert y == 4 * (25 * (y / 100)); }
    if y % 400 == 0 { assert y == 100 * (4 * (y / 400)); }
  }

  lemma {:induction false} YearsSum(y: nat)
    ensures DaysBeforeYear(y) == 365 * y + MultiplesBefore(y, 4) - MultiplesBefore(y, 100) + MultiplesBefore(y, 400)
  {
    hide MultiplesBefore;
    if y == 0 {
      NoneBeforeZero();
    } else {
      YearsSum(y - 1);
      LeapYears(y - 1);
      OneMoreYear(y - 1, 4);
      OneMoreYear(y - 1, 100);
      OneMoreYear(y - 1, 400);
    }
  }

  lemma NoneBeforeZero()
    ensures MultiplesBefore(0, 4) == MultiplesBefore(0, 100) == MultiplesBefore(0, 400) == 0
  {
  }

  lemma MonthsSum(y: nat, m: nat)
    requires 1 <= m <= 12
    ensures DaysBeforeMonth(y, m) == if m <= 2 then 31 * (m - 1) else (if Leap(y) then 60 else 59) + (153 * (m - 3) + 2) / 5
  {
    var february := DaysIn(y, 2);
    assert DaysBeforeMonth(y, 2) == 31;
    assert DaysBeforeMonth(y, 3) == 31 + february;
    assert DaysBeforeMonth(y, 5) == 92 + february;
    assert DaysBeforeMonth(y, 7) == 153 + february;
    assert DaysBeforeMonth(y, 9) == 215 + february;
    assert DaysBeforeMonth(y, 11) == 276 + february;
  }

  /** The calendar is the Gregorian one: day numbers agree with the closed form that counts years from
      the first of March. */
  lemma DaysAreGregorian(c: Civil)
    requires 1 <= c.month <= 12
    ensures var y := if c.month <= 2 then c.year - 1 else c.year;
            DayNumber(c) == 60 + 365 * y + y / 4 - y / 100 + y / 400 + (153 * ((c.month + 9) % 12) + 2) / 5 + c.day - 1
  {
    hide DaysBeforeYear, DaysBeforeMonth, MultiplesBefore, Leap;
    assert (c.month + 9) % 12 == if c.month <= 2 then c.month + 9 else c.month - 3;
    MonthsSum(c.year, c.month);
    if c.month <= 2 {
      YearsSum(c.year);
      FloorOfLast(c.year, 4);
      FloorOfLast(c.year, 100);
      FloorOfLast(c.year, 400);
    } else {
      MarchOn(c.year);
    }
  }

  lemma FloorOfLast(y: nat, p: nat)
    requires p == 4 || p == 100 || p == 400
    ensures (y - 1) / p == MultiplesBefore(y, p) - 1
  {
  }

  lemma MarchOn(y: nat)
    ensures DaysBeforeYear(y) + (if Leap(y) then 366 else 365) == 366 + 365 * y + y / 4 - y / 100 + y / 400
  {
    hide MultiplesBefore, Leap;
    YearsSum(y + 1);
    FloorOfLast(y + 1, 4);
    FloorOfLast(y + 1, 100);
    FloorOfLast(y + 1, 400);
  }

  /** Field by field, most significant first. */
  predicate Before(a: Civil, b: Civil) {
    a.year < b.year || (a.year == b.year && (
    a.month < b.month || (a.month == b.month && (
    a.day < b.day || (a.day == b.day && (
    a.hour < b.hour || (a.hour == b.hour && (
    a.minute < b.minute || (a.minute == b.minute && (
    a.second < b.second || (a.second == b.second && a.nanos < b.nanos)))))))))))
  }

  lemma BeforeIsEarlier(a: Civil, b: Civil)
    requires a.Valid() && b.Valid() && Before(a, b)
    ensures Instant(a) < Instant(b)
  {
    if a.year < b.year || (a.year == b.year && a.month < b.month) { LaterDate(a, b); }
    assert DayNumber(a) <= DayNumber(b);
  }

  lemma EarlierIsBefore(a: Civil, b: Civil)
    requires a.Valid() && b.Valid()
    ensures Instant(a) < Instant(b) <==> Before(a, b)
    ensures Instant(a) == Instant(b) <==> a == b
  {
    if Before(a, b) { BeforeIsEarlier(a, b); }
    if Before(b, a) { BeforeIsEarlier(b, a); }
  }

  // ----- formatting

  function TimeOfDay(c: Civil, fraction: string): string {
    Pad(c.hour, 2) + (":" + (Pad(c.minute, 2) + (":" + (Pad(c.second, 2) + fraction))))
  }

  function Stamp(c: Civil, fraction: string): string {
    Pad(c.year, 4) + ("-" + (Pad(c.month, 2) + ("-" + (Pad(c.day, 2) + ("T" + TimeOfDay(c, fraction))))))
  }

  /** The stored form: always nine fractional digits. */
  function Format(c: Civil): string {
    Stamp(c, "." + (Pad(c.nanos, 9) + "Z"))
  }

  /** A stored text has the form 2006-01-02T15:04:05.000000000Z. */
  lemma FormatShape(c: Civil)
    ensures var s := Format(c);
            && |s| == 30 && s[4] == '-' && s[7] == '-' && s[10] == 'T' && s[13] == ':' && s[16] == ':' && s[19] == '.' && s[29] == 'Z'
            && AllDigits(s[..4]) && AllDigits(s[20..29])
  {
    hide Pad;
    assert Format(c)[..4] == Pad(c.year, 4) && Format(c)[20..29] == Pad(c.nanos, 9);
  }

  function Quotient(n: nat, p: nat): nat
    requires p > 0
  {
    n / p
  }

  /** The form a driver may hand back: trailing zeros of the fraction dropped, `k` digits kept. */
  function FormatShort(c: Civil, k: nat): string
    requires k <= 9
  {
    Stamp(c, if k == 0 then "Z" else "." + (Pad(Quotient(c.nanos, Pow10(9 - k)), k) + "Z"))
  }

  lemma TieBreak(sep: string, x: string, y: string)
    requires |sep| == 1
    ensures Less(sep + x, sep + y) <==> Less(x, y)
  {
    LessIrreflexive(sep);
    LessConcat(sep, sep, x, y);
  }

  lemma SameMinute(a: Civil, b: Civil, x: string, y: string)
    requires a.Valid() && b.Valid()
    ensures Less(TimeOfDay(a, x), TimeOfDay(b, y)) <==>
              a.hour < b.hour || (a.hour == b.hour && (a.minute < b.minute || (a.minute == b.minute && (
              a.second < b.second || (a.second == b.second && Less(x, y))))))
  {
    FieldDecides(a.second, b.second, 2, x, y);
    var s, t := Pad(a.second, 2) + x, Pad(b.second, 2) + y;
    TieBreak(":", s, t);
    FieldDecides(a.minute, b.minute, 2, ":" + s, ":" + t);
    TieBreak(":", Pad(a.minute, 2) + (":" + s), Pad(b.minute, 2) + (":" + t));
    FieldDecides(a.hour, b.hour, 2, ":" + (Pad(a.minute, 2) + (":" + s)), ":" + (Pad(b.minute, 2) + (":" + t)));
  }

  lemma SameDay(a: Civil, b: Civil, x: string, y: string)
    requires a.Valid() && b.Valid()
    ensures var s, t := TimeOfDay(a, x), TimeOfDay(b, y);
            Less(Stamp(a, x), Stamp(b, y)) <==>
              a.year < b.year || (a.year == b.year && (a.month < b.month || (a.month == b.month && (
              a.day < b.day || (a.day == b.day && Less(s, t))))))
  {
    var s, t := "T" + TimeOfDay(a, x), "T" + TimeOfDay(b, y);
    TieBreak("T", TimeOfDay(a, x), TimeOfDay(b, y));
    FieldDecides(a.day, b.day, 2, s, t);
    var u, v := Pad(a.day, 2) + s, Pad(b.day, 2) + t;
    TieBreak("-", u, v);
    FieldDecides(a.month, b.month, 2, "-" + u, "-" + v);
    TieBreak("-", Pad(a.month, 2) + ("-" + u), Pad(b.month, 2) + ("-" + v));
    FieldDecides(a.year, b.year, 4, "-" + (Pad(a.month, 2) + ("-" + u)), "-" + (Pad(b.month, 2) + ("-" + v)));
  }

  /** Timestamp strings sort chronologically, for any two UTC times of the years 0 to 9999. */
  lemma TextOrderIsTimeOrder(a: Civil, b: Civil)
    requires a.Valid() && b.Valid()
    ensures Less(Format(a), Format(b)) <==> Instant(a) < Instant(b)
  {
    var x, y := Pad(a.nanos, 9) + "Z", Pad(b.nanos, 9) + "Z";
    LessIrreflexive("Z");
    FieldDecides(a.nanos, b.nanos, 9, "Z", "Z");
    TieBreak(".", x, y);
    SameMinute(a, b, "." + x, "." + y);
    SameDay(a, b, "." + x, "." + y);
    EarlierIsBefore(a, b);
  }

  // ----- parsing

  /** A fixed-width number off the front of a string. */
  function TakeField(s: string, w: nat): Option<(nat, string)> {
    if |s| >= w && AllDigits(s[..w]) then Some((Value(s[..w]), s[w..])) else None
  }

  function TakeMark(s: string, c: char): Option<string> {
    if s != "" && s[0] == c then Some(s[1..]) else None
  }

  function FieldThenMark(s: string, w: nat, c: char): Option<(nat, string)> {
    var f := TakeField(s, w);
    if f.None? then None
    else
      var r := TakeMark(f.value.1, c);
      if r.None? then None else Some((f.value.0, r.value))
  }

  function LeadingDigits(s: string): (n: nat)
    ensures n <= |s| && AllDigits(s[..n])
  {
    if s == "" || !IsDigit(s[0]) then 0 else 1 + LeadingDigits(s[1..])
  }

  /** An optional fraction of any length, digits past the ninth ignored, and the UTC marker. */
  function TakeFraction(s: string): Option<nat> {
    if s == "Z" then Some(0)
    else if |s| < 2 || s[0] != '.' || !IsDigit(s[1]) then None
    else
      var n := LeadingDigits(s[1..]);
      var kept := if n > 9 then 9 else n;
      assert s[1..][..kept] == s[1..][..n][..kept];
      if s[1 + n..] == "Z" then Some(Value(s[1..][..kept]) * Pow10(9 - kept)) else None
  }

  /** Reads the stored form and every form with a shorter fraction. */
  function Parse(s: string): Option<Civil> {
    var y := FieldThenMark(s, 4, '-');
    if y.None? then None else
    var mo := FieldThenMark(y.value.1, 2, '-');
    if mo.None? then None else
    var d := FieldThenMark(mo.value.1, 2, 'T');
    if d.None? then None else
    var h := FieldThenMark(d.value.1, 2, ':');
    if h.None? then None else
    var mi := FieldThenMark(h.value.1, 2, ':');
    if mi.None? then None else
    var sec := TakeField(mi.value.1, 2);
    if sec.None? then None else
    var ns := TakeFraction(sec.value.1);
    if ns.None? then None else
    var c := Civil(y.value.0, mo.value.0, d.value.0, h.value.0, mi.value.0, sec.value.0, ns.value);
    if c.Valid() then Some(c) else None
  }

  lemma ReadsField(n: nat, w: nat, rest: string)
    requires n < Pow10(w)
    ensures TakeField(Pad(n, w) + rest, w) == Some((n, rest))
  {
    PadReadsBack(n, w);
    assert (Pad(n, w) + rest)[..w] == Pad(n, w);
  }

  lemma ReadsFieldThenMark(n: nat, w: nat, c: char, rest: string)
    requires n < Pow10(w)
    ensures FieldThenMark(Pad(n, w) + ([c] + rest), w, c) == Some((n, rest))
  {
    ReadsField(n, w, [c] + rest);
    assert ([c] + rest)[1..] == rest;
  }

  lemma {:induction false} DigitsLead(s: string, rest: string)
    requires AllDigits(s) && (rest == "" || !IsDigit(rest[0]))
    ensures LeadingDigits(s + rest) == |s|
  {
    if s == "" {
      assert s + rest == rest;
    } else {
      assert (s + rest)[1..] == s[1..] + rest;
      DigitsLead(s[1..], rest);
    }
  }

  lemma {:induction false} PowersMultiply(a: nat, b: nat)
    ensures Pow10(a + b) == Pow10(a) * Pow10(b)
  {
    if a > 0 { PowersMultiply(a - 1, b); }
  }

  lemma WholeQuotient(n: nat, p: nat, q: nat)
    requires p > 0 && n % p == 0 && n < q * p
    ensures Quotient(n, p) < q && Quotient(n, p) * p == n
  {
  }

  lemma FractionParts(digits: string)
    requires digits != ""
    ensures var s := "." + (digits + "Z");
            && |s| == |digits| + 2 && s[0] == '.' && s[1] == digits[0]
            && s[1..] == digits + "Z" && s[1..][..|digits|] == digits && s[1 + |digits|..] == "Z"
  {
  }

  lemma FractionOf(digits: string)
    requires AllDigits(digits) && 1 <= |digits| <= 9
    ensures TakeFraction("." + (digits + "Z")) == Some(Value(digits) * Pow10(9 - |digits|))
  {
    hide Value, Pow10, LeadingDigits;
    FractionParts(digits);
    DigitsLead(digits, "Z");
    assert IsDigit(digits[0]);
  }

  lemma ReadsFraction(n: nat, k: nat)
    requires n < Pow10(9) && 1 <= k <= 9 && n % Pow10(9 - k) == 0
    ensures TakeFraction("." + (Pad(Quotient(n, Pow10(9 - k)), k) + "Z")) == Some(n)
  {
    PowersMultiply(k, 9 - k);
    WholeQuotient(n, Pow10(9 - k), Pow10(k));
    FractionOf(Pad(Quotient(n, Pow10(9 - k)), k));
    PadReadsBack(Quotient(n, Pow10(9 - k)), k);
  }

  lemma ReadsStamp(c: Civil, fraction: string)
    requires c.Valid() && TakeFraction(fraction) == Some(c.nanos)
    ensures Parse(Stamp(c, fraction)) == Some(c)
  {
    var sec := Pad(c.second, 2) + fraction;
    var mi := Pad(c.minute, 2) + (":" + sec);
    var h := TimeOfDay(c, fraction);
    var d := Pad(c.day, 2) + ("T" + h);
    var mo := Pad(c.month, 2) + ("-" + d);
    assert DaysIn(c.year, c.month) <= 31;
    ReadsFieldThenMark(c.year, 4, '-', mo);
    ReadsFieldThenMark(c.month, 2, '-', d);
    ReadsFieldThenMark(c.day, 2, 'T', h);
    ReadsFieldThenMark(c.hour, 2, ':', mi);
    ReadsFieldThenMark(c.minute, 2, ':', sec);
    ReadsField(c.second, 2, fraction);
  }

  lemma NineDigits()
    ensures Pow10(9) == 1_000_000_000
  {
    assert Pow10(3) == 1000;
    PowersMultiply(3, 3);
    PowersMultiply(6, 3);
  }

  /** Parsing inverts formatting, also after a driver dropped trailing zeros of the fraction. */
  lemma ParseInvertsFormat(c: Civil, k: nat)
    requires c.Valid() && k <= 9 && c.nanos % Pow10(9 - k) == 0
    ensures Parse(FormatShort(c, k)) == Some(c)
    ensures Parse(Format(c)) == Some(c)
  {
    hide Parse;
    NineDigits();
    if k > 0 {
      ReadsFraction(c.nanos, k);
      ReadsStamp(c, "." + (Pad(Quotient(c.nanos, Pow10(9 - k)), k) + "Z"));
    } else {
      ReadsStamp(c, "Z");
    }
    assert Pow10(0) == 1;
    ReadsFraction(c.nanos, 9);
    assert Quotient(c.nanos, 1) == c.nanos;
    ReadsStamp(c, "." + (Pad(c.nanos, 9) + "Z"));
  }
}
