/** The sweep of expired labels compares expiries as text; this relates text
    order to time order for the forms it sweeps. */
module LabelExpiry {
  import opened Wrappers
  import opened SqlText

  /** A UTC timestamp of RFC 3339, section 5.6: fields, the digits of a fraction
      of a second, and whether the offset is written Z. */
  datatype Stamp = Stamp(year: nat, month: nat, day: nat, hour: nat, minute: nat, second: nat,
                         fraction: string, zulu: bool)

  // ---- How a timestamp is written ----

  predicate IsDigit(c: char) { '0' <= c <= '9' }

  function Digit(n: nat): char
    requires n < 10
  {
    (n + '0' as int) as char
  }

  function Pad2(n: nat): string
    requires n < 100
  {
    [Digit(n / 10), Digit(n % 10)]
  }

  function Pad4(n: nat): string
    requires n < 10000
  {
    Pad2(n / 100) + Pad2(n % 100)
  }

  function Offset(zulu: bool): string {
    if zulu then "Z" else "+00:00"
  }

  function Tail(t: Stamp): string {
    (if t.fraction == [] then "" else "." + t.fraction) + Offset(t.zulu)
  }

  predicate Writable(t: Stamp) {
    && t.year < 10000 && t.month < 100 && t.day < 100 && t.hour < 100 && t.minute < 100 && t.second < 100
    && forall i :: 0 <= i < |t.fraction| ==> IsDigit(t.fraction[i])
  }

  function Text(t: Stamp): string
    requires Writable(t)
  {
    Pad4(t.year) + ("-" + (Pad2(t.month) + ("-" + (Pad2(t.day) + ("T" +
      (Pad2(t.hour) + (":" + (Pad2(t.minute) + (":" + (Pad2(t.second) + Tail(t)))))))))))
  }

  // ---- Which instant it is ----

  predicate IsLeap(year: nat) {
    year % 4 == 0 && (year % 100 != 0 || year % 400 == 0)
  }

  function MonthLength(year: nat, month: nat): nat {
    if month == 2 then if IsLeap(year) then 29 else 28
    else if month == 4 || month == 6 || month == 9 || month == 11 then 30 else 31
  }

  /** Days of `year` before its month `month`. */
  function DaysBefore(year: nat, month: nat): nat {
    if month <= 1 then 0 else DaysBefore(year, month - 1) + MonthLength(year, month - 1)
  }

  function DaysBeforeYear(year: nat): nat {
    if year == 0 then 0 else DaysBeforeYear(year - 1) + DaysBefore(year - 1, 13)
  }

  function Minutes(t: Stamp): nat {
    ((DaysBeforeYear(t.year) + DaysBefore(t.year, t.month) + t.day) * 24 + t.hour) * 60 + t.minute
  }

  /** How many leap seconds come before each minute. A minute with one has 61
      seconds. */
  ghost predicate LeapSeconds(leaps: nat -> nat) {
    forall m: nat :: leaps(m) <= leaps(m + 1) <= leaps(m) + 1
  }

  /** A timestamp whose fields are in range. */
  ghost predicate Valid(leaps: nat -> nat, t: Stamp) {
    && Writable(t) && 1 <= t.month <= 12 && 1 <= t.day <= MonthLength(t.year, t.month)
    && t.hour < 24 && t.minute < 60
    && t.second < 60 + leaps(Minutes(t) + 1) - leaps(Minutes(t))
  }

  function Seconds(leaps: nat -> nat, t: Stamp): nat {
    Minutes(t) * 60 + leaps(Minutes(t)) + t.second
  }

  function Value(c: char): nat
    requires IsDigit(c)
  {
    c as int - '0' as int
  }

  function Fraction(digits: string): real
    requires forall i :: 0 <= i < |digits| ==> IsDigit(digits[i])
  {
    if digits == [] then 0.0 else (Value(digits[0]) as real + Fraction(digits[1..])) / 10.0
  }

  ghost function Instant(leaps: nat -> nat, t: Stamp): real
    requires Writable(t)
  {
    Seconds(leaps, t) as real + Fraction(t.fraction)
  }

  // ---- Time order ----

  /** The same second, and an earlier one, field by field. */
  predicate SameSecond(a: Stamp, b: Stamp) {
    a.year == b.year && a.month == b.month && a.day == b.day
    && a.hour == b.hour && a.minute == b.minute && a.second == b.second
  }

  predicate SameMinute(a: Stamp, b: Stamp) {
    a.year == b.year && a.month == b.month && a.day == b.day && a.hour == b.hour && a.minute == b.minute
  }

  predicate EarlierDay(a: Stamp, b: Stamp) {
    a.year < b.year || (a.year == b.year && (a.month < b.month || (a.month == b.month && a.day < b.day)))
  }

  predicate EarlierMinute(a: Stamp, b: Stamp) {
    EarlierDay(a, b) ||
    (a.year == b.year && a.month == b.month && a.day == b.day &&
     (a.hour < b.hour || (a.hour == b.hour && a.minute < b.minute)))
  }

  predicate EarlierSecond(a: Stamp, b: Stamp) {
    EarlierMinute(a, b) || (SameMinute(a, b) && a.second < b.second)
  }

  lemma {:induction false} MonthsGrow(year: nat, m: nat, n: nat)
    requires 1 <= m < n
    ensures DaysBefore(year, m) + MonthLength(year, m) <= DaysBefore(year, n)
  {
    if m + 1 < n { MonthsGrow(year, m, n - 1); }
  }

  lemma {:induction false} YearsGrow(y: nat, z: nat)
    requires y < z
    ensures DaysBeforeYear(y) + DaysBefore(y, 13) <= DaysBeforeYear(z)
  {
    if y + 1 < z { YearsGrow(y, z - 1); }
  }

  lemma {:induction false} DaysInOrder(leaps: nat -> nat, a: Stamp, b: Stamp)
    requires Valid(leaps, a) && Valid(leaps, b) && EarlierDay(a, b)
    ensures DaysBeforeYear(a.year) + DaysBefore(a.year, a.month) + a.day
            < DaysBeforeYear(b.year) + DaysBefore(b.year, b.month) + b.day
  {
    if a.year < b.year {
      YearsGrow(a.year, b.year);
      MonthsGrow(a.year, a.month, 13);
    } else if a.month < b.month {
      MonthsGrow(a.year, a.month, b.month);
    }
  }

  lemma {:induction false} MinutesInOrder(leaps: nat -> nat, a: Stamp, b: Stamp)
    requires Valid(leaps, a) && Valid(leaps, b) && EarlierMinute(a, b)
    ensures Minutes(a) < Minutes(b)
  {
    if EarlierDay(a, b) { DaysInOrder(leaps, a, b); }
  }

  lemma {:induction false} LeapsGrow(leaps: nat -> nat, m: nat, n: nat)
    requires LeapSeconds(leaps) && m <= n
    ensures leaps(m) <= leaps(n)
  {
    if m < n { LeapsGrow(leaps, m, n - 1); }
  }

  lemma SameMinutes(a: Stamp, b: Stamp)
    ensures SameMinute(a, b) ==> Minutes(a) == Minutes(b)
  {
  }

  lemma {:induction false} SecondsInOrder(leaps: nat -> nat, a: Stamp, b: Stamp)
    requires LeapSeconds(leaps) && Valid(leaps, a) && Valid(leaps, b) && EarlierSecond(a, b)
    ensures Seconds(leaps, a) < Seconds(leaps, b)
  {
    hide Minutes;
    SameMinutes(a, b);
    if EarlierMinute(a, b) {
      MinutesInOrder(leaps, a, b);
      LeapsGrow(leaps, Minutes(a) + 1, Minutes(b));
    }
  }

  lemma {:induction false} FractionRange(digits: string)
    requires forall i :: 0 <= i < |digits| ==> IsDigit(digits[i])
    ensures 0.0 <= Fraction(digits) < 1.0
  {
    if digits != [] { FractionRange(digits[1..]); }
  }

  lemma {:induction false} InstantsInOrder(leaps: nat -> nat, a: Stamp, b: Stamp)
    requires LeapSeconds(leaps) && Valid(leaps, a) && Valid(leaps, b)
    ensures EarlierSecond(a, b) ==> Instant(leaps, a) < Instant(leaps, b)
    ensures EarlierSecond(b, a) ==> Instant(leaps, b) < Instant(leaps, a)
    ensures SameSecond(a, b) ==> Instant(leaps, a) - Instant(leaps, b) == Fraction(a.fraction) - Fraction(b.fraction)
    ensures EarlierSecond(a, b) || SameSecond(a, b) || EarlierSecond(b, a)
  {
    hide Minutes;
    SameMinutes(a, b);
    FractionRange(a.fraction);
    FractionRange(b.fraction);
    if EarlierSecond(a, b) { SecondsInOrder(leaps, a, b); }
    if EarlierSecond(b, a) { SecondsInOrder(leaps, b, a); }
  }

  // ---- Text order ----

  lemma {:induction false} LessPad2(m: nat, n: nat, x: string, y: string)
    requires m < 100 && n < 100
    ensures Less(Pad2(m) + x, Pad2(n) + y) <==> m < n || (m == n && Less(x, y))
  {
    LessByPrefix(Pad2(m), Pad2(n), x, y);
    assert Pad2(m)[1..] == [Digit(m % 10)] && Pad2(n)[1..] == [Digit(n % 10)];
    assert Pad2(m) == Pad2(n) <==> m == n;
  }

  lemma {:induction false} LessPad4(m: nat, n: nat, x: string, y: string)
    requires m < 10000 && n < 10000
    ensures Less(Pad4(m) + x, Pad4(n) + y) <==> m < n || (m == n && Less(x, y))
  {
    LessPad2(m / 100, n / 100, Pad2(m % 100) + x, Pad2(n % 100) + y);
    LessPad2(m % 100, n % 100, x, y);
    assert Pad4(m) + x == Pad2(m / 100) + (Pad2(m % 100) + x);
    assert Pad4(n) + y == Pad2(n / 100) + (Pad2(n % 100) + y);
  }

  lemma {:induction false} LessAfter(c: char, x: string, y: string)
    ensures Less([c] + x, [c] + y) <==> Less(x, y)
  {
    LessByPrefix([c], [c], x, y);
  }

  function FromSecond(t: Stamp): string
    requires Writable(t)
  {
    Pad2(t.hour) + (":" + (Pad2(t.minute) + (":" + (Pad2(t.second) + Tail(t)))))
  }

  lemma {:induction false} LessClock(a: Stamp, b: Stamp)
    requires Writable(a) && Writable(b)
    ensures Less(FromSecond(a), FromSecond(b)) <==>
            (a.hour < b.hour || (a.hour == b.hour && (a.minute < b.minute || (a.minute == b.minute &&
              (a.second < b.second || (a.second == b.second && Less(Tail(a), Tail(b))))))))
  {
    hide Less, Pad2, Tail;
    LessPad2(a.second, b.second, Tail(a), Tail(b));
    var x, y := Pad2(a.second) + Tail(a), Pad2(b.second) + Tail(b);
    LessAfter(':', x, y);
    LessPad2(a.minute, b.minute, ":" + x, ":" + y);
    var u, v := Pad2(a.minute) + (":" + x), Pad2(b.minute) + (":" + y);
    LessAfter(':', u, v);
    LessPad2(a.hour, b.hour, ":" + u, ":" + v);
  }

  /** Two timestamps compare as text by their fields, then by what follows. */
  lemma {:induction false} LessText(a: Stamp, b: Stamp)
    requires Writable(a) && Writable(b)
    ensures Less(Text(a), Text(b)) <==> EarlierSecond(a, b) || (SameSecond(a, b) && Less(Tail(a), Tail(b)))
  {
    hide Less, Pad2, Pad4, Tail;
    LessClock(a, b);
    var x, y := FromSecond(a), FromSecond(b);
    LessAfter('T', x, y);
    LessPad2(a.day, b.day, "T" + x, "T" + y);
    var u, v := Pad2(a.day) + ("T" + x), Pad2(b.day) + ("T" + y);
    LessAfter('-', u, v);
    LessPad2(a.month, b.month, "-" + u, "-" + v);
    var p, q := Pad2(a.month) + ("-" + u), Pad2(b.month) + ("-" + v);
    LessAfter('-', p, q);
    LessPad4(a.year, b.year, "-" + p, "-" + q);
  }

  predicate Digits(f: string) {
    forall i :: 0 <= i < |f| ==> IsDigit(f[i])
  }

  /** What comparing `f` with `g` as text, each with its offset after it, says of the
      fractions. */
  predicate Told(less: bool, f: string, g: string, zulu: bool)
    requires Digits(f) && Digits(g)
  {
    && (less ==> Fraction(f) <= Fraction(g))
    && (zulu ==> (less <==> Fraction(f) < Fraction(g) && !(f <= g)))
    && (!zulu && Fraction(f) < Fraction(g) ==> less)
  }

  lemma {:induction false} FractionStep(f: string)
    requires Digits(f) && f != []
    ensures Digits(f[1..]) && 0.0 <= Fraction(f[1..]) < 1.0
    ensures Fraction(f) == (Value(f[0]) as real + Fraction(f[1..])) / 10.0
  {
    FractionRange(f[1..]);
  }

  /** A digit before either offset: the sign sorts below it and the Z above. */
  lemma {:induction false} LessAtEnd(f: string, g: string, zulu: bool)
    requires Digits(f) && Digits(g) && (f == [] || g == [])
    ensures Told(Less(f + Offset(zulu), g + Offset(false)), f, g, zulu)
  {
    hide Less;
    var o, p := Offset(zulu), Offset(false);
    NoFraction();
    FractionRange(f);
    FractionRange(g);
    if f == [] && g == [] {
      assert f + o == o && g + p == p;
      LessOffsets(zulu);
    } else {
      assert (f + o)[0] == if f == [] then o[0] else f[0];
      assert (g + p)[0] == if g == [] then p[0] else g[0];
      LessFirst(f + o, g + p);
    }
  }

  lemma LessOffsets(zulu: bool)
    ensures !Less(Offset(zulu), Offset(false))
  {
    if !zulu { LessSelf("+00:00"); }
  }

  lemma {:induction false} ToldBefore(less: bool, f: string, g: string, zulu: bool)
    requires Digits(f) && Digits(g) && f != [] && g != []
    requires Digits(f[1..]) && Digits(g[1..]) && Told(less, f[1..], g[1..], zulu)
    ensures Told(f[0] < g[0] || (f[0] == g[0] && less), f, g, zulu)
  {
    hide Fraction;
    FractionStep(f);
    FractionStep(g);
    assert f <= g <==> f[0] == g[0] && f[1..] <= g[1..];
  }

  lemma {:induction false} LessFraction(f: string, g: string, zulu: bool)
    requires Digits(f) && Digits(g)
    ensures Told(Less(f + Offset(zulu), g + Offset(false)), f, g, zulu)
  {
    hide Less, Told, Offset;
    if f == [] || g == [] {
      LessAtEnd(f, g, zulu);
    } else {
      var o, p := Offset(zulu), Offset(false);
      LessFraction(f[1..], g[1..], zulu);
      ToldBefore(Less(f[1..] + o, g[1..] + p), f, g, zulu);
      assert f + o == [f[0]] + (f[1..] + o) && g + p == [g[0]] + (g[1..] + p);
      LessHead(f[0], g[0], f[1..] + o, g[1..] + p);
    }
  }

  lemma LessHead(c: char, d: char, x: string, y: string)
    ensures Less([c] + x, [d] + y) <==> c < d || (c == d && Less(x, y))
  {
    assert ([c] + x)[1..] == x && ([d] + y)[1..] == y;
  }

  lemma {:induction false} LessTail(a: Stamp, cutoff: Stamp)
    requires Writable(a) && Writable(cutoff) && !cutoff.zulu
    ensures Less(Tail(a), Tail(cutoff)) ==> Fraction(a.fraction) <= Fraction(cutoff.fraction)
    ensures !a.zulu && Fraction(a.fraction) < Fraction(cutoff.fraction) ==> Less(Tail(a), Tail(cutoff))
    ensures a.zulu && Fraction(a.fraction) < Fraction(cutoff.fraction) ==>
              (Less(Tail(a), Tail(cutoff)) <==> !(a.fraction <= cutoff.fraction))
  {
    hide Less, Fraction;
    var f, g, o, p := a.fraction, cutoff.fraction, Offset(a.zulu), Offset(false);
    NoFraction();
    FractionRange(f);
    FractionRange(g);
    LessFraction(f, g, a.zulu);
    if f != [] && g != [] {
      LessAfter('.', f + o, g + p);
      assert Tail(a) == "." + (f + o) && Tail(cutoff) == "." + (g + p);
    } else if f == [] && g == [] {
      assert Tail(a) == f + o && Tail(cutoff) == g + p;
    } else {
      assert f == [] ==> Tail(a)[0] == o[0];
      assert f != [] ==> Tail(a)[0] == '.';
      assert g == [] ==> Tail(cutoff)[0] == p[0];
      assert g != [] ==> Tail(cutoff)[0] == '.';
      LessFirst(Tail(a), Tail(cutoff));
    }
  }

  lemma NoFraction()
    ensures Fraction("") == 0.0
  {
  }

  lemma LessFirst(x: string, y: string)
    requires x != [] && y != [] && x[0] != y[0]
    ensures Less(x, y) <==> x[0] < y[0]
  {
  }

  // ---- The sweep ----

  const HEAD := "____-__-__T__:__:__"

  /** The four forms the sweep takes in. */
  predicate Swept(fold: bool, exp: string) {
    || Like(fold, HEAD + "+00:00", exp)
    || Like(fold, HEAD + ".%+00:00", exp)
    || Like(fold, HEAD + "Z", exp)
    || Like(fold, HEAD + ".%Z", exp)
  }

  predicate Expired(fold: bool, exp: Option<string>, cutoff: string) {
    exp.Some? && Swept(fold, exp.value) && Less(exp.value, cutoff)
  }

  /** `+00:00`, or `Z`, or its small letter where LIKE folds case. */
  predicate UtcOffset(fold: bool, o: string) {
    o == "+00:00" || o == "Z" || (fold && o == "z")
  }

  /** A date and a time with their punctuation, then a UTC offset at once or after a
      point and anything. */
  predicate UtcForm(fold: bool, s: string) {
    && |s| >= 20
    && s[4] == '-' && s[7] == '-' && (s[10] == 'T' || (fold && s[10] == 't')) && s[13] == ':' && s[16] == ':'
    && (UtcOffset(fold, s[19..]) || (s[19] == '.' && exists k :: 20 <= k <= |s| && UtcOffset(fold, s[k..])))
  }

  lemma CharLikeIs(fold: bool, p: char, c: char)
    requires p in "-:T+0Z."
    ensures CharLike(fold, p, c) <==> p == c || (fold && ((p == 'T' && c == 't') || (p == 'Z' && c == 'z')))
  {
  }

  lemma {:induction false} HeadLike(fold: bool, s: string)
    requires |s| == |HEAD|
    ensures Fits(fold, HEAD, s) <==>
            s[4] == '-' && s[7] == '-' && (s[10] == 'T' || (fold && s[10] == 't')) && s[13] == ':' && s[16] == ':'
  {
    CharLikeIs(fold, '-', s[4]);
    CharLikeIs(fold, '-', s[7]);
    CharLikeIs(fold, 'T', s[10]);
    CharLikeIs(fold, ':', s[13]);
    CharLikeIs(fold, ':', s[16]);
    assert forall i :: 0 <= i < |HEAD| && i != 4 && i != 7 && i != 10 && i != 13 && i != 16 ==> HEAD[i] == '_';
    assert HEAD[4] == '-' && HEAD[7] == '-' && HEAD[10] == 'T' && HEAD[13] == ':' && HEAD[16] == ':';
  }

  lemma {:induction false} OffsetLike(fold: bool, s: string)
    ensures Like(fold, "+00:00", s) || Like(fold, "Z", s) <==> UtcOffset(fold, s)
  {
    hide Like, CharLike;
    EndLike(fold, "+00:00", s);
    EndLike(fold, "Z", s);
    if |s| == 6 {
      CharLikeIs(fold, '+', s[0]);
      CharLikeIs(fold, '0', s[1]);
      CharLikeIs(fold, '0', s[2]);
      CharLikeIs(fold, ':', s[3]);
      CharLikeIs(fold, '0', s[4]);
      CharLikeIs(fold, '0', s[5]);
    } else if |s| == 1 {
      CharLikeIs(fold, 'Z', s[0]);
    }
  }

  /** A pattern without % is fitted by the whole text. */
  lemma {:induction false} EndLike(fold: bool, p: string, s: string)
    requires Literal(p)
    ensures Like(fold, p, s) <==> Fits(fold, p, s)
  {
    LikeLiteral(fold, p, "", s);
    assert p + "" == p;
    if |p| <= |s| {
      LikeEmpty(fold, s[|p|..]);
      if |p| == |s| { assert s[..|p|] == s; }
    }
  }

  lemma LikeEmpty(fold: bool, s: string)
    ensures Like(fold, "", s) <==> s == ""
  {
  }

  lemma {:induction false} TailIs(fold: bool, o: string, s: string)
    ensures Like(fold, "." + ("%" + o), s) <==>
            s != [] && s[0] == '.' && exists k :: 1 <= k <= |s| && Like(fold, o, s[k..])
  {
    hide Like;
    LikeLiteral(fold, ".", "%" + o, s);
    if s != [] {
      var rest := s[1..];
      LikePercent(fold, o, rest);
      CharLikeIs(fold, '.', s[0]);
      assert s[..1] == [s[0]];
      forall k: nat
        ensures GoesOn(fold, o, rest, k) <==> k + 1 <= |s| && Like(fold, o, s[k + 1..])
      {
        if k + 1 <= |s| { assert rest[k..] == s[k + 1..]; }
      }
      if k :| 1 <= k <= |s| && Like(fold, o, s[k..]) { assert GoesOn(fold, o, rest, k - 1); }
    }
  }

  /** The four patterns take in just the texts of that form. */
  lemma {:induction false} SweptExactly(fold: bool, s: string)
    ensures Swept(fold, s) <==> UtcForm(fold, s)
  {
    hide Like, Fits, UtcOffset;
    var n := |HEAD|;
    assert ".%+00:00" == "." + ("%" + "+00:00") && ".%Z" == "." + ("%" + "Z");
    LikeLiteral(fold, HEAD, "+00:00", s);
    LikeLiteral(fold, HEAD, ".%+00:00", s);
    LikeLiteral(fold, HEAD, "Z", s);
    LikeLiteral(fold, HEAD, ".%Z", s);
    if n <= |s| {
      HeadLike(fold, s[..n]);
      TailExactly(fold, s, n);
    }
  }

  lemma {:induction false} TailExactly(fold: bool, s: string, n: nat)
    requires n <= |s|
    ensures var tail := s[n..];
            (|| Like(fold, "+00:00", tail) || Like(fold, "." + ("%" + "+00:00"), tail)
             || Like(fold, "Z", tail) || Like(fold, "." + ("%" + "Z"), tail)) <==>
            && |s| > n
            && (UtcOffset(fold, s[n..]) || (s[n] == '.' && exists k :: n + 1 <= k <= |s| && UtcOffset(fold, s[k..])))
  {
    hide Like, UtcOffset;
    var tail := s[n..];
    OffsetLike(fold, tail);
    OffsetNotEmpty(fold);
    TailIs(fold, "+00:00", tail);
    TailIs(fold, "Z", tail);
    forall k | 1 <= k <= |tail|
      ensures tail[k..] == s[n + k..]
      ensures Like(fold, "+00:00", tail[k..]) || Like(fold, "Z", tail[k..]) <==> UtcOffset(fold, s[n + k..])
    {
      OffsetLike(fold, tail[k..]);
    }
    if k :| n + 1 <= k <= |s| && UtcOffset(fold, s[k..]) {
      assert tail[k - n..] == s[n + (k - n)..];
    }
  }

  lemma OffsetNotEmpty(fold: bool)
    ensures !UtcOffset(fold, "")
  {
  }

  function Head(t: Stamp): string
    requires Writable(t)
  {
    Pad4(t.year) + "-" + Pad2(t.month) + "-" + Pad2(t.day) + "T" + Pad2(t.hour) + ":" + Pad2(t.minute) + ":"
      + Pad2(t.second)
  }

  lemma LikeNothing(fold: bool)
    ensures Like(fold, "", "")
  {
  }

  lemma {:induction false} TailLike(fold: bool, t: Stamp)
    ensures Like(fold, if t.fraction == [] then Offset(t.zulu) else "." + ("%" + Offset(t.zulu)), Tail(t))
  {
    hide Like;
    LikeNothing(fold);
    var o, f := Offset(t.zulu), t.fraction;
    LikeLiteral(fold, o, "", o);
    assert o + "" == o && o[..|o|] == o && o[|o|..] == "";
    if f == [] {
      assert Tail(t) == o;
    } else {
      LikePercent(fold, o, f + o);
      assert (f + o)[|f|..] == o;
      assert GoesOn(fold, o, f + o, |f|);
      LikeLiteral(fold, ".", "%" + o, Tail(t));
      assert Tail(t) == "." + (f + o) && Tail(t)[..1] == "." && Tail(t)[1..] == f + o;
    }
  }

  lemma {:induction false} HeadFits(fold: bool, t: Stamp)
    requires Writable(t)
    ensures |Head(t)| == |HEAD| && Fits(fold, HEAD, Head(t))
  {
  }

  lemma {:induction false} TextSplits(t: Stamp)
    requires Writable(t)
    ensures Text(t) == Head(t) + Tail(t)
  {
    hide Pad2, Pad4, Tail;
  }

  /** A timestamp written in UTC is of one of the four forms. */
  lemma {:induction false} WrittenIsSwept(fold: bool, t: Stamp)
    requires Writable(t)
    ensures Swept(fold, Text(t))
  {
    hide Like, Fits, Text, Head, Tail;
    var rest := if t.fraction == [] then Offset(t.zulu) else "." + ("%" + Offset(t.zulu));
    TailLike(fold, t);
    HeadFits(fold, t);
    TextSplits(t);
    assert Text(t)[..|HEAD|] == Head(t) && Text(t)[|HEAD|..] == Tail(t);
    LikeLiteral(fold, HEAD, rest, Text(t));
    assert "." + ("%" + "Z") == ".%Z" && "." + ("%" + "+00:00") == ".%+00:00";
  }

  /** What the sweep takes is past: its instant is not after the cutoff. */
  lemma {:induction false} SweptIsPast(leaps: nat -> nat, exp: Stamp, cutoff: Stamp)
    requires LeapSeconds(leaps) && Valid(leaps, exp) && Valid(leaps, cutoff) && !cutoff.zulu
    ensures Less(Text(exp), Text(cutoff)) ==> Instant(leaps, exp) <= Instant(leaps, cutoff)
  {
    InstantsInOrder(leaps, exp, cutoff);
    LessText(exp, cutoff);
    LessTail(exp, cutoff);
  }

  /** What is past is taken: every strictly earlier +00:00 expiry, and every Z one
      but those in the cutoff's own second whose digits the cutoff goes on from. */
  lemma {:induction false} PastIsSwept(leaps: nat -> nat, fold: bool, exp: Stamp, cutoff: Stamp)
    requires LeapSeconds(leaps) && Valid(leaps, exp) && Valid(leaps, cutoff) && !cutoff.zulu
    requires Instant(leaps, exp) < Instant(leaps, cutoff)
    ensures Expired(fold, Some(Text(exp)), Text(cutoff)) <==>
            !(exp.zulu && SameSecond(exp, cutoff) && exp.fraction <= cutoff.fraction)
  {
    WrittenIsSwept(fold, exp);
    InstantsInOrder(leaps, exp, cutoff);
    LessText(exp, cutoff);
    LessTail(exp, cutoff);
  }
}
