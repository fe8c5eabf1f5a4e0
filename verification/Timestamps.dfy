/** UTC timestamps and their RFC 3339 text (section 5.6), with nanoseconds whose trailing
    zeros are dropped. */
module Timestamps {
  import opened Base

  datatype Time = Time(year: int, month: int, day: int, hour: int, minute: int, second: int, nanos: int)

  const NANOS: int := 1_000_000_000

  predicate Leap(year: int) {
    year % 4 == 0 && (year % 100 != 0 || year % 400 == 0)
  }

  function DaysIn(year: int, month: int): int {
    if month == 2 then if Leap(year) then 29 else 28
    else if month == 4 || month == 6 || month == 9 || month == 11 then 30
    else 31
  }

  /** A moment on the calendar. */
  predicate Civil(t: Time) {
    && 1 <= t.month <= 12
    && 1 <= t.day <= DaysIn(t.year, t.month)
    && 0 <= t.hour < 24 && 0 <= t.minute < 60 && 0 <= t.second < 60 && 0 <= t.nanos < NANOS
  }

  /** The years the JSON form of a time can express. */
  predicate Expressible(t: Time) {
    0 <= t.year <= 9999
  }

  /** The Gregorian calendar. */
  lemma Calendar(year: int, month: int)
    requires 1 <= month <= 12
    ensures var leap := year % 400 == 0 || (year % 4 == 0 && year % 100 != 0);
            var days := [31, if leap then 29 else 28, 31, 30, 31, 30, 31, 31, 30, 31, 30, 31];
            DaysIn(year, month) == days[month - 1]
  {
    match month {
      case 1 =>
      case 2 =>
      case 3 =>
      case 4 =>
      case 5 =>
      case 6 =>
      case 7 =>
      case 8 =>
      case 9 =>
      case 10 =>
      case 11 =>
      case 12 =>
    }
  }

  /** Every moment of every day is civil, down to the nanosecond, and nothing else is. */
  lemma CivilIff(t: Time)
    ensures Civil(t) <==>
              && 1 <= t.month <= 12 && 1 <= t.day <= DaysIn(t.year, t.month)
              && 0 <= t.hour <= 23 && 0 <= t.minute <= 59 && 0 <= t.second <= 59 && 0 <= t.nanos <= 999_999_999
  {
  }

  /** Go's zero time. */
  const ZERO := Time(1, 1, 1, 0, 0, 0, 0)

  function DayNumber(t: Time): int {
    (t.year * 13 + t.month) * 32 + t.day
  }

  function SecondOfDay(t: Time): int {
    (t.hour * 60 + t.minute) * 60 + t.second
  }

  /** A number that orders civil times as they follow each other. */
  function Instant(t: Time): int {
    (DayNumber(t) * 86400 + SecondOfDay(t)) * NANOS + t.nanos
  }

  /** The first field that differs, from the year down to the nanosecond, is smaller in `t`. */
  predicate Earlier(t: Time, u: Time) {
    if t.year != u.year then t.year < u.year
    else if t.month != u.month then t.month < u.month
    else if t.day != u.day then t.day < u.day
    else if t.hour != u.hour then t.hour < u.hour
    else if t.minute != u.minute then t.minute < u.minute
    else if t.second != u.second then t.second < u.second
    else t.nanos < u.nanos
  }

  /** Two numbers written with a last digit in base `r` compare by that digit last. */
  lemma LastDigitDecidesLast(a: int, x: int, b: int, y: int, r: int)
    requires 0 <= x < r && 0 <= y < r
    ensures a * r + x < b * r + y <==> a < b || (a == b && x < y)
    ensures a * r + x == b * r + y <==> a == b && x == y
  {
    if a < b {
      assert (a + 1) * r <= b * r;
    } else if b < a {
      assert (b + 1) * r <= a * r;
    }
  }

  lemma DaysAreInOrder(t: Time, u: Time)
    requires Civil(t) && Civil(u)
    ensures DayNumber(t) < DayNumber(u) <==>
              t.year < u.year || (t.year == u.year && (t.month < u.month || (t.month == u.month && t.day < u.day)))
    ensures DayNumber(t) == DayNumber(u) <==> t.year == u.year && t.month == u.month && t.day == u.day
  {
    LastDigitDecidesLast(t.year, t.month, u.year, u.month, 13);
    LastDigitDecidesLast(t.year * 13 + t.month, t.day, u.year * 13 + u.month, u.day, 32);
  }

  lemma SecondsAreInOrder(t: Time, u: Time)
    requires Civil(t) && Civil(u)
    ensures 0 <= SecondOfDay(t) < 86400 && 0 <= SecondOfDay(u) < 86400
    ensures SecondOfDay(t) < SecondOfDay(u) <==>
              || t.hour < u.hour
              || (t.hour == u.hour && (t.minute < u.minute || (t.minute == u.minute && t.second < u.second)))
    ensures SecondOfDay(t) == SecondOfDay(u) <==> t.hour == u.hour && t.minute == u.minute && t.second == u.second
  {
    LastDigitDecidesLast(t.hour, t.minute, u.hour, u.minute, 60);
    LastDigitDecidesLast(t.hour * 60 + t.minute, t.second, u.hour * 60 + u.minute, u.second, 60);
  }

  /** Instants compare civil times field by field. */
  lemma InstantsAreInOrder(t: Time, u: Time)
    requires Civil(t) && Civil(u)
    ensures Instant(t) < Instant(u) <==> Earlier(t, u)
    ensures Instant(t) == Instant(u) <==> t == u
  {
    DaysAreInOrder(t, u);
    SecondsAreInOrder(t, u);
    DayThenSecondThenNano(DayNumber(t), SecondOfDay(t), t.nanos, DayNumber(u), SecondOfDay(u), u.nanos);
  }

  lemma DayThenSecondThenNano(d: int, n: int, x: int, d': int, n': int, x': int)
    requires 0 <= n < 86400 && 0 <= n' < 86400 && 0 <= x < NANOS && 0 <= x' < NANOS
    ensures (d * 86400 + n) * NANOS + x < (d' * 86400 + n') * NANOS + x'
            <==> d < d' || (d == d' && (n < n' || (n == n' && x < x')))
    ensures (d * 86400 + n) * NANOS + x == (d' * 86400 + n') * NANOS + x' <==> d == d' && n == n' && x == x'
  {
    LastDigitDecidesLast(d, n, d', n', 86400);
    LastDigitDecidesLast(d * 86400 + n, x, d' * 86400 + n', x', NANOS);
  }

  // ----- Decimal digits -----

  function DigitOf(d: int): (c: char)
    requires 0 <= d < 10
    ensures '0' <= c <= '9' && c as int - 48 == d
  {
    (d + 48) as char
  }

  function Power(w: nat): (p: int)
    ensures p >= 1
  {
    if w == 0 then 1 else 10 * Power(w - 1)
  }

  predicate AllDigits(s: string) {
    forall i :: 0 <= i < |s| ==> '0' <= s[i] <= '9'
  }

  /** The last `w` decimal digits of `n`. */
  function Digits(n: nat, w: nat): (s: string)
    ensures |s| == w
    ensures AllDigits(s)
    decreases w
  {
    if w == 0 then "" else Digits(n / 10, w - 1) + [DigitOf(n % 10)]
  }

  function Number(s: string): int
    requires AllDigits(s)
    decreases |s|
  {
    if s == "" then 0
    else
      Number(s[..|s| - 1]) * 10 + (s[|s| - 1] as int - 48)
  }

  lemma {:induction false} NumberOfDigits(n: nat, w: nat)
    requires n < Power(w)
    ensures Number(Digits(n, w)) == n
    decreases w
  {
    if w > 0 {
      NumberOfDigits(n / 10, w - 1);
      var s := Digits(n, w);
      assert s[..|s| - 1] == Digits(n / 10, w - 1);
    }
  }

  lemma DividingTwice(n: nat, p: int)
    requires p >= 1
    ensures n / 10 / p == n / (10 * p)
  {
    var q := n / 10 / p;
    assert n == 10 * (q * p + n / 10 % p) + n % 10;
    assert 10 * (q * p) == q * (10 * p);
    QuotientIs(n, 10 * p, q, 10 * (n / 10 % p) + n % 10);
  }

  lemma QuotientIs(n: int, d: int, q: int, r: int)
    requires n == q * d + r && 0 <= r < d
    ensures n / d == q
  {
    assert n / d * d <= q * d + r < (n / d + 1) * d;
    LastDigitDecidesLast(q, r, n / d, n % d, d);
  }

  /** Digit `i` of `w` counts the tens to the power `w - 1 - i`. */
  lemma {:induction false} DigitAt(n: nat, w: nat, i: nat)
    requires i < w
    ensures Digits(n, w)[i] as int - 48 == n / Power(w - 1 - i) % 10
    decreases w
  {
    if i < w - 1 {
      DigitAt(n / 10, w - 1, i);
      DividingTwice(n, Power(w - 2 - i));
    }
  }

  // ----- The fraction -----

  function TrimZeros(s: string): (r: string)
    ensures |r| <= |s|
    ensures AllDigits(s) ==> AllDigits(r)
    decreases |s|
  {
    if s != "" && s[|s| - 1] == '0' then TrimZeros(s[..|s| - 1]) else s
  }

  function Zeros(k: nat): string {
    seq(k, _ => '0')
  }

  lemma {:induction false} TrimmedZerosComeBack(s: string)
    ensures TrimZeros(s) + Zeros(|s| - |TrimZeros(s)|) == s
    decreases |s|
  {
    if s != "" && s[|s| - 1] == '0' {
      var front := s[..|s| - 1];
      TrimmedZerosComeBack(front);
      assert Zeros(|s| - |TrimZeros(s)|) == Zeros(|front| - |TrimZeros(front)|) + ['0'];
      assert s == front + ['0'];
    }
  }

  function Fraction(nanos: nat): string {
    if nanos == 0 then "" else "." + TrimZeros(Digits(nanos, 9))
  }

  /** The nanoseconds of a fraction with one to nine digits, or of none. */
  function ParseFraction(s: string): Option<int> {
    if s == "" then Some(0)
    else if s[0] == '.' && 2 <= |s| <= 10 && AllDigits(s[1..]) then
      assert AllDigits(s[1..] + Zeros(10 - |s|));
      Some(Number(s[1..] + Zeros(10 - |s|)))
    else None
  }

  lemma PowerNine()
    ensures Power(9) == NANOS && Power(4) == 10000 && Power(2) == 100
  {
    assert Power(4) == 10 * (10 * (10 * (10 * Power(0))));
    assert Power(9) == 10 * (10 * (10 * (10 * (10 * Power(4)))));
  }

  lemma {:induction false} OnlyZeros(s: string)
    requires AllDigits(s) && TrimZeros(s) == ""
    ensures Number(s) == 0
    decreases |s|
  {
    if s != "" {
      OnlyZeros(s[..|s| - 1]);
    }
  }

  lemma NonzeroIsNotAllZeros(n: nat, w: nat)
    requires 0 < n < Power(w)
    ensures TrimZeros(Digits(n, w)) != ""
  {
    NumberOfDigits(n, w);
    if TrimZeros(Digits(n, w)) == "" {
      OnlyZeros(Digits(n, w));
    }
  }

  lemma FractionIsTrimmed(nanos: nat)
    requires 0 < nanos < NANOS
    ensures var r := TrimZeros(Digits(nanos, 9));
            1 <= |r| <= 9 && AllDigits(r) && r + Zeros(9 - |r|) == Digits(nanos, 9)
  {
    PowerNine();
    NonzeroIsNotAllZeros(nanos, 9);
    TrimmedZerosComeBack(Digits(nanos, 9));
  }

  lemma TrimmedFractionIsRead(r: string)
    requires AllDigits(r) && 1 <= |r| <= 9 && AllDigits(r + Zeros(9 - |r|))
    ensures ParseFraction("." + r) == Some(Number(r + Zeros(9 - |r|)))
  {
    assert ("." + r)[1..] == r;
  }

  lemma FractionRoundTrip(nanos: nat)
    requires nanos < NANOS
    ensures ParseFraction(Fraction(nanos)) == Some(nanos)
  {
    if nanos != 0 {
      var r := TrimZeros(Digits(nanos, 9));
      FractionIsTrimmed(nanos);
      PowerNine();
      NumberOfDigits(nanos, 9);
      TrimmedFractionIsRead(r);
    }
  }

  // ----- The whole stamp -----

  /** Three numbers with a separator. */
  function Triple(a: string, b: string, c: string, sep: char): (s: string)
    ensures |s| == |a| + |b| + |c| + 2
  {
    a + [sep] + b + [sep] + c
  }

  function Joined(date: string, clock: string, fraction: string): string {
    date + "T" + clock + fraction + "Z"
  }

  function Stamp(t: Time): string
    requires Civil(t) && Expressible(t)
  {
    Joined(Triple(Digits(t.year, 4), Digits(t.month, 2), Digits(t.day, 2), '-'),
           Triple(Digits(t.hour, 2), Digits(t.minute, 2), Digits(t.second, 2), ':'),
           Fraction(t.nanos))
  }

  predicate Framed(s: string) {
    && |s| >= 20
    && s[4] == '-' && s[7] == '-' && s[10] == 'T' && s[13] == ':' && s[16] == ':' && s[|s| - 1] == 'Z'
    && AllDigits(s[0..4]) && AllDigits(s[5..7]) && AllDigits(s[8..10])
    && AllDigits(s[11..13]) && AllDigits(s[14..16]) && AllDigits(s[17..19])
  }

  function ParseStamp(s: string): Option<Time> {
    if !Framed(s) then None
    else
      match ParseFraction(s[19..|s| - 1])
      case None => None
      case Some(nanos) =>
        var t := Time(Number(s[0..4]), Number(s[5..7]), Number(s[8..10]),
                      Number(s[11..13]), Number(s[14..16]), Number(s[17..19]), nanos);
        if Civil(t) then Some(t) else None
  }

  lemma DateSlices(year: string, month: string, day: string, clock: string, fraction: string)
    requires |year| == 4 && |month| == 2 && |day| == 2
    ensures var s := Joined(Triple(year, month, day, '-'), clock, fraction);
            && |s| == 12 + |clock| + |fraction|
            && s[0..4] == year && s[4] == '-' && s[5..7] == month && s[7] == '-' && s[8..10] == day && s[10] == 'T'
  {
  }

  lemma ClockSlices(date: string, hour: string, minute: string, second: string, fraction: string)
    requires |date| == 10 && |hour| == 2 && |minute| == 2 && |second| == 2
    ensures var s := Joined(date, Triple(hour, minute, second, ':'), fraction);
            && |s| == 20 + |fraction|
            && s[11..13] == hour && s[13] == ':' && s[14..16] == minute && s[16] == ':' && s[17..19] == second
            && s[19..|s| - 1] == fraction && s[|s| - 1] == 'Z'
  {
  }

  lemma TwoDigits(n: nat)
    requires n < 100
    ensures AllDigits(Digits(n, 2)) && Number(Digits(n, 2)) == n
  {
    PowerNine();
    NumberOfDigits(n, 2);
  }

  lemma FourDigits(n: nat)
    requires n < 10000
    ensures AllDigits(Digits(n, 4)) && Number(Digits(n, 4)) == n
  {
    PowerNine();
    NumberOfDigits(n, 4);
  }

  lemma FieldsAreFramed(year: string, month: string, day: string,
                        hour: string, minute: string, second: string, fraction: string)
    requires |year| == 4 && |month| == 2 && |day| == 2 && |hour| == 2 && |minute| == 2 && |second| == 2
    requires AllDigits(year) && AllDigits(month) && AllDigits(day)
    requires AllDigits(hour) && AllDigits(minute) && AllDigits(second)
    ensures var s := Joined(Triple(year, month, day, '-'), Triple(hour, minute, second, ':'), fraction);
            && Framed(s)
            && s[0..4] == year && s[5..7] == month && s[8..10] == day
            && s[11..13] == hour && s[14..16] == minute && s[17..19] == second
            && s[19..|s| - 1] == fraction
  {
    DateSlices(year, month, day, Triple(hour, minute, second, ':'), fraction);
    ClockSlices(Triple(year, month, day, '-'), hour, minute, second, fraction);
  }

  /** Every civil time in the years 0 to 9999 is read back from its text. */
  lemma StampRoundTrip(t: Time)
    requires Civil(t) && Expressible(t)
    ensures ParseStamp(Stamp(t)) == Some(t)
  {
    FourDigits(t.year);
    TwoDigits(t.month);
    TwoDigits(t.day);
    TwoDigits(t.hour);
    TwoDigits(t.minute);
    TwoDigits(t.second);
    FieldsAreFramed(Digits(t.year, 4), Digits(t.month, 2), Digits(t.day, 2),
                    Digits(t.hour, 2), Digits(t.minute, 2), Digits(t.second, 2), Fraction(t.nanos));
    FractionRoundTrip(t.nanos);
  }

  /** Character `i` of `s` is the digit `d`. */
  predicate DigitIs(s: string, i: nat, d: int) {
    i < |s| && s[i] as int == 48 + d
  }

  lemma TwoDigitsSpell(n: nat)
    requires n < 100
    ensures DigitIs(Digits(n, 2), 0, n / 10) && DigitIs(Digits(n, 2), 1, n % 10)
  {
    SmallPowers();
    DigitAt(n, 2, 0);
    DigitAt(n, 2, 1);
  }

  lemma SmallPowers()
    ensures Power(0) == 1 && Power(1) == 10 && Power(2) == 100 && Power(3) == 1000
  {
  }

  lemma FourDigitsSpell(n: nat)
    requires n < 10000
    ensures var s := Digits(n, 4);
            && DigitIs(s, 0, n / 1000) && DigitIs(s, 1, n / 100 % 10)
            && DigitIs(s, 2, n / 10 % 10) && DigitIs(s, 3, n % 10)
  {
    forall i | 0 <= i < 4 ensures Digits(n, 4)[i] as int == 48 + n / Power(3 - i) % 10 {
      DigitAt(n, 4, i);
    }
    SpelledByPowers(Digits(n, 4), n);
  }

  lemma SpelledByPowers(s: string, n: nat)
    requires n < 10000 && |s| == 4 && forall i :: 0 <= i < 4 ==> s[i] as int == 48 + n / Power(3 - i) % 10
    ensures && DigitIs(s, 0, n / 1000) && DigitIs(s, 1, n / 100 % 10)
            && DigitIs(s, 2, n / 10 % 10) && DigitIs(s, 3, n % 10)
  {
    SmallPowers();
  }

  /** A stamp reads YYYY-MM-DDThh:mm:ss, then the fraction, then Z. */
  lemma StampSpells(t: Time)
    requires Civil(t) && Expressible(t)
    ensures var s := Stamp(t);
            && |s| == 20 + |Fraction(t.nanos)| && s[19..|s| - 1] == Fraction(t.nanos) && s[|s| - 1] == 'Z'
            && DigitIs(s, 0, t.year / 1000) && DigitIs(s, 1, t.year / 100 % 10)
            && DigitIs(s, 2, t.year / 10 % 10) && DigitIs(s, 3, t.year % 10)
            && DigitIs(s, 5, t.month / 10) && DigitIs(s, 6, t.month % 10)
            && DigitIs(s, 8, t.day / 10) && DigitIs(s, 9, t.day % 10)
            && DigitIs(s, 11, t.hour / 10) && DigitIs(s, 12, t.hour % 10)
            && DigitIs(s, 14, t.minute / 10) && DigitIs(s, 15, t.minute % 10)
            && DigitIs(s, 17, t.second / 10) && DigitIs(s, 18, t.second % 10)
            && s[4] == '-' && s[7] == '-' && s[10] == 'T' && s[13] == ':' && s[16] == ':'
  {
    FourDigitsSpell(t.year);
    TwoDigitsSpell(t.month);
    TwoDigitsSpell(t.day);
    TwoDigitsSpell(t.hour);
    TwoDigitsSpell(t.minute);
    TwoDigitsSpell(t.second);
    FieldsSpell(Digits(t.year, 4), Digits(t.month, 2), Digits(t.day, 2),
                Digits(t.hour, 2), Digits(t.minute, 2), Digits(t.second, 2), Fraction(t.nanos));
  }

  lemma FieldsSpell(year: string, month: string, day: string,
                    hour: string, minute: string, second: string, fraction: string)
    requires |year| == 4 && |month| == 2 && |day| == 2 && |hour| == 2 && |minute| == 2 && |second| == 2
    ensures var s := Joined(Triple(year, month, day, '-'), Triple(hour, minute, second, ':'), fraction);
            && |s| == 20 + |fraction|
            && (forall i :: 0 <= i < 4 ==> s[i] == year[i])
            && s[4] == '-' && s[5] == month[0] && s[6] == month[1] && s[7] == '-' && s[8] == day[0] && s[9] == day[1]
            && s[10] == 'T' && s[11] == hour[0] && s[12] == hour[1]
            && s[13] == ':' && s[14] == minute[0] && s[15] == minute[1]
            && s[16] == ':' && s[17] == second[0] && s[18] == second[1]
            && s[19..|s| - 1] == fraction && s[|s| - 1] == 'Z'
  {
  }

  /** Whole seconds have no fraction; any other ends in a digit that is not zero. */
  lemma FractionShape(nanos: nat)
    requires nanos < NANOS
    ensures nanos == 0 <==> Fraction(nanos) == ""
    ensures nanos != 0 ==>
              var f := Fraction(nanos); 2 <= |f| <= 10 && f[0] == '.' && f[|f| - 1] != '0'
  {
    if nanos != 0 {
      FractionIsTrimmed(nanos);
      TrimmedEndsNonzero(Digits(nanos, 9));
    }
  }

  /** Character `j` of the fraction is digit `j` of nine; past its end those digits are zero. */
  lemma FractionSpells(nanos: nat, j: nat)
    requires 0 < nanos < NANOS && 1 <= j <= 9
    ensures if j < |Fraction(nanos)| then DigitIs(Fraction(nanos), j, nanos / Power(9 - j) % 10)
            else nanos / Power(9 - j) % 10 == 0
  {
    var r := TrimZeros(Digits(nanos, 9));
    FractionIsTrimmed(nanos);
    DigitAt(nanos, 9, j - 1);
    assert (r + Zeros(9 - |r|))[j - 1] == if j <= |r| then r[j - 1] else '0';
  }

  lemma {:induction false} TrimmedEndsNonzero(s: string)
    ensures var r := TrimZeros(s); r != "" ==> r[|r| - 1] != '0'
    decreases |s|
  {
    if s != "" && s[|s| - 1] == '0' {
      TrimmedEndsNonzero(s[..|s| - 1]);
    }
  }

  /** The characters a stamp is made of. */
  predicate StampChar(c: char) {
    '0' <= c <= '9' || c == '-' || c == 'T' || c == ':' || c == '.' || c == 'Z'
  }

  lemma JoinedAlphabet(date: string, clock: string, fraction: string)
    requires forall c :: c in date ==> StampChar(c)
    requires forall c :: c in clock ==> StampChar(c)
    requires forall c :: c in fraction ==> StampChar(c)
    ensures forall c :: c in Joined(date, clock, fraction) ==> StampChar(c)
  {
  }

  lemma TripleAlphabet(a: string, b: string, c: string, sep: char)
    requires AllDigits(a) && AllDigits(b) && AllDigits(c) && StampChar(sep)
    ensures forall x :: x in Triple(a, b, c, sep) ==> StampChar(x)
  {
  }

  lemma FractionAlphabet(nanos: nat)
    ensures forall c :: c in Fraction(nanos) ==> StampChar(c)
  {
    var r := TrimZeros(Digits(nanos, 9));
    assert AllDigits(r);
    forall c | c in "." + r ensures StampChar(c) {
      if c != '.' {
        assert c in r;
      }
    }
  }

  lemma StampAlphabet(t: Time)
    requires Civil(t) && Expressible(t)
    ensures forall c :: c in Stamp(t) ==> StampChar(c)
  {
    var date := Triple(Digits(t.year, 4), Digits(t.month, 2), Digits(t.day, 2), '-');
    var clock := Triple(Digits(t.hour, 2), Digits(t.minute, 2), Digits(t.second, 2), ':');
    TripleAlphabet(Digits(t.year, 4), Digits(t.month, 2), Digits(t.day, 2), '-');
    TripleAlphabet(Digits(t.hour, 2), Digits(t.minute, 2), Digits(t.second, 2), ':');
    FractionAlphabet(t.nanos);
    JoinedAlphabet(date, clock, Fraction(t.nanos));
  }
}
