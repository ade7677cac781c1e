/** Times as RFC3339Nano text in UTC, and how the order of the texts relates to the order of the times. */
module Timestamp {
  import opened Text

  /** Nanoseconds since 1970-01-01T00:00:00Z. */
  type Time = nat

  const SECOND: nat := 1_000_000_000
  const MINUTE: nat := 60 * SECOND
  const HOUR: nat := 60 * MINUTE

  function Second(t: Time): nat { t / SECOND }

  // ---- the calendar ----

  datatype Date = Date(year: nat, month: nat, day: nat)

  predicate Leap(year: nat) { year % 4 == 0 && (year % 100 != 0 || year % 400 == 0) }

  function MonthLength(year: nat, month: nat): (n: nat)
    ensures 28 <= n <= 31
  {
    if month == 2 then (if Leap(year) then 29 else 28)
    else if month in {4, 6, 9, 11} then 30 else 31
  }

  function NextDay(d: Date): Date {
    if d.day < MonthLength(d.year, d.month) then d.(day := d.day + 1)
    else if d.month < 12 then Date(d.year, d.month + 1, 1)
    else Date(d.year + 1, 1, 1)
  }

  /** The date `n` days after 1970-01-01. */
  function DateOf(n: nat): (d: Date)
    ensures 1 <= d.month <= 12 && 1 <= d.day <= 31
  {
    if n == 0 then Date(1970, 1, 1) else NextDay(DateOf(n - 1))
  }

  predicate DateBefore(a: Date, b: Date) {
    a.year < b.year || (a.year == b.year && (a.month < b.month || (a.month == b.month && a.day < b.day)))
  }

  lemma {:induction false} DatesAscend(m: nat, n: nat)
    requires m < n
    ensures DateBefore(DateOf(m), DateOf(n))
    decreases n
  {
    if m < n - 1 { DatesAscend(m, n - 1); }
  }

  // ---- text ----

  function Digit(n: nat): char
    requires n < 10
  {
    '0' + n as char
  }

  /** `n` in exactly `width` digits. */
  function Pad(n: nat, width: nat): (s: string)
    ensures |s| == width
  {
    if width == 0 then "" else Pad(n / 10, width - 1) + [Digit(n % 10)]
  }

  function Power(width: nat): (p: nat)
    ensures p > 0
  {
    if width == 0 then 1 else 10 * Power(width - 1)
  }

  function Clock(s: nat): string { Pad(s / 3600, 2) + (":" + (Pad(s / 60 % 60, 2) + (":" + Pad(s % 60, 2)))) }

  function Day(d: Date, rest: string): string {
    Pad(d.year, 4) + ("-" + (Pad(d.month, 2) + ("-" + (Pad(d.day, 2) + ("T" + rest)))))
  }

  /** The 19 characters up to the whole second. */
  function Stamp(second: nat): (s: string)
    ensures |s| == 19
  {
    Day(DateOf(second / 86400), Clock(second % 86400))
  }

  function TrimZeros(s: string): string {
    if s != "" && s[|s| - 1] == '0' then TrimZeros(s[..|s| - 1]) else s
  }

  /** Up to nine digits, without trailing zeros, and nothing at all for a whole second. */
  function Fraction(nano: nat): string {
    var digits := TrimZeros(Pad(nano, 9));
    if digits == "" then "" else "." + digits
  }

  function Format(t: Time): string { Stamp(Second(t)) + (Fraction(t % SECOND) + "Z") }

  /** The year has four digits, as RFC 3339 asks. */
  predicate InRange(t: Time) { DateOf(Second(t) / 86400).year <= 9999 }

  // ---- order ----

  lemma {:induction false} LessAfter(p: string, x: string, y: string)
    ensures Less(p + x, p + y) <==> Less(x, y)
  {
    if p == "" {
      assert p + x == x && p + y == y;
    } else {
      assert (p + x)[1..] == p[1..] + x && (p + y)[1..] == p[1..] + y;
      LessAfter(p[1..], x, y);
    }
  }

  lemma {:induction false} LessBefore(a: string, b: string, x: string, y: string)
    requires |a| == |b| && Less(a, b)
    ensures Less(a + x, b + y)
  {
    assert (a + x)[0] == a[0] && (b + y)[0] == b[0];
    if a[0] == b[0] {
      assert (a + x)[1..] == a[1..] + x && (b + y)[1..] == b[1..] + y;
      LessBefore(a[1..], b[1..], x, y);
    }
  }

  lemma {:induction false} PadAscends(m: nat, n: nat, width: nat)
    requires m < n < Power(width)
    ensures Less(Pad(m, width), Pad(n, width))
  {
    if m / 10 < n / 10 {
      PadAscends(m / 10, n / 10, width - 1);
      LessBefore(Pad(m / 10, width - 1), Pad(n / 10, width - 1), [Digit(m % 10)], [Digit(n % 10)]);
    } else {
      LessAfter(Pad(m / 10, width - 1), [Digit(m % 10)], [Digit(n % 10)]);
    }
  }

  /** A field of a stamp decides the order if it differs, and the rest decides if it does not. */
  lemma {:induction false} FieldOrder(m: nat, n: nat, width: nat, sep: string, x: string, y: string)
    requires m < Power(width) && n < Power(width)
    requires m < n || (m == n && Less(x, y))
    ensures Less(Pad(m, width) + (sep + x), Pad(n, width) + (sep + y))
  {
    if m < n {
      PadAscends(m, n, width);
      LessBefore(Pad(m, width), Pad(n, width), sep + x, sep + y);
    } else {
      LessAfter(Pad(m, width), sep + x, sep + y);
      LessAfter(sep, x, y);
    }
  }

  lemma {:induction false} Powers()
    ensures Power(2) == 100 && Power(4) == 10000
  {
    assert Power(1) == 10;
    assert Power(3) == 1000;
  }

  lemma {:induction false} Parts(s: nat)
    ensures s == 3600 * (s / 3600) + 60 * (s / 60 % 60) + s % 60
  {
    assert s / 60 / 60 == s / 3600;
  }

  lemma {:induction false} PartsCompare(h: nat, m: nat, s: nat, h': nat, m': nat, s': nat)
    requires m < 60 && s < 60 && m' < 60 && s' < 60
    requires 3600 * h + 60 * m + s < 3600 * h' + 60 * m' + s'
    ensures h < h' || (h == h' && (m < m' || (m == m' && s < s')))
  {
  }

  lemma {:induction false} PartsAscend(h: nat, m: nat, x: string, h': nat, m': nat, y: string)
    requires h < 100 && m < 60 && h' < 100 && m' < 60
    requires h < h' || (h == h' && (m < m' || (m == m' && Less(x, y))))
    ensures Less(Pad(h, 2) + (":" + (Pad(m, 2) + (":" + x))), Pad(h', 2) + (":" + (Pad(m', 2) + (":" + y))))
  {
    Powers();
    if h == h' { FieldOrder(m, m', 2, ":", x, y); }
    FieldOrder(h, h', 2, ":", Pad(m, 2) + (":" + x), Pad(m', 2) + (":" + y));
  }

  lemma {:induction false} ClockAscends(m: nat, n: nat)
    requires m < n < 86400
    ensures Less(Clock(m), Clock(n))
  {
    var h, i, s, h', i', s' := m / 3600, m / 60 % 60, m % 60, n / 3600, n / 60 % 60, n % 60;
    Parts(m);
    Parts(n);
    PartsCompare(h, i, s, h', i', s');
    if h == h' && i == i' { Powers(); PadAscends(s, s', 2); }
    PartsAscend(h, i, Pad(s, 2), h', i', Pad(s', 2));
  }

  lemma {:induction false} DayAscends(a: Date, b: Date, x: string, y: string)
    requires DateBefore(a, b) || (a == b && Less(x, y))
    requires a.year <= 9999 && b.year <= 9999 && a.month <= 12 && b.month <= 12 && a.day <= 31 && b.day <= 31
    ensures Less(Day(a, x), Day(b, y))
  {
    Powers();
    var x1, y1 := Pad(a.day, 2) + ("T" + x), Pad(b.day, 2) + ("T" + y);
    if a.year == b.year && a.month == b.month { FieldOrder(a.day, b.day, 2, "T", x, y); }
    var x2, y2 := Pad(a.month, 2) + ("-" + x1), Pad(b.month, 2) + ("-" + y1);
    if a.year == b.year { FieldOrder(a.month, b.month, 2, "-", x1, y1); }
    FieldOrder(a.year, b.year, 4, "-", x2, y2);
  }

  lemma {:induction false} StampAscends(m: nat, n: nat)
    requires m < n && DateOf(m / 86400).year <= 9999 && DateOf(n / 86400).year <= 9999
    ensures Less(Stamp(m), Stamp(n))
  {
    if m / 86400 == n / 86400 { ClockAscends(m % 86400, n % 86400); }
    else { DatesAscend(m / 86400, n / 86400); }
    DayAscends(DateOf(m / 86400), DateOf(n / 86400), Clock(m % 86400), Clock(n % 86400));
  }

  /** Between different whole seconds the texts are ordered as the times. */
  lemma {:induction false} SecondsAscend(a: Time, b: Time)
    requires Second(a) < Second(b) && InRange(a) && InRange(b)
    ensures Less(Format(a), Format(b)) && !Less(Format(b), Format(a))
  {
    StampAscends(Second(a), Second(b));
    LessBefore(Stamp(Second(a)), Stamp(Second(b)), Fraction(a % SECOND) + "Z", Fraction(b % SECOND) + "Z");
    if Less(Format(b), Format(a)) {
      LessTransitive(Format(a), Format(b), Format(a));
      LessIrreflexive(Format(a));
    }
  }

  /** A text that sorts before another is of no later a second. */
  lemma {:induction false} TextBefore(a: Time, b: Time)
    requires InRange(a) && InRange(b) && Less(Format(a), Format(b))
    ensures Second(a) <= Second(b)
  {
    if Second(b) < Second(a) { SecondsAscend(b, a); }
  }

  // ---- inside one second ----

  predicate Digits(s: string) { forall i :: 0 <= i < |s| ==> '0' <= s[i] <= '9' }

  lemma {:induction false} PadDigits(n: nat, width: nat)
    ensures Digits(Pad(n, width))
  {
    if width > 0 { PadDigits(n / 10, width - 1); }
  }

  lemma {:induction false} TrimHead(c: char, r: string)
    ensures TrimZeros([c] + r) == if TrimZeros(r) == "" && c == '0' then "" else [c] + TrimZeros(r)
  {
    var s := [c] + r;
    if r == "" {
      assert s == [c] && s[..0] == "";
    } else if r[|r| - 1] == '0' {
      assert s[..|s| - 1] == [c] + r[..|r| - 1];
      TrimHead(c, r[..|r| - 1]);
    }
  }

  /** `x` before `y` in the order of texts when a letter follows each, unless one begins the other. */
  predicate Sorts(x: string, y: string) { Less(x + "Z", y + "Z") <==> !(x <= y) }

  lemma {:induction false} SameHead(c: char, x: string, y: string)
    requires Sorts(x, y)
    ensures Sorts([c] + x, [c] + y)
  {
    assert ([c] + x) + "Z" == [c] + (x + "Z") && ([c] + y) + "Z" == [c] + (y + "Z");
    LessAfter([c], x + "Z", y + "Z");
    PrefixTail([c] + x, [c] + y);
  }

  lemma {:induction false} NothingSorts(y: string)
    requires y != "" && y[0] < 'Z'
    ensures Sorts("", y)
  {
    assert "" + "Z" == "Z" && (y + "Z")[0] == y[0];
  }

  lemma {:induction false} LowerHead(c: char, x: string, d: char, y: string)
    requires c < d
    ensures Sorts([c] + x, [d] + y)
  {
    assert ([c] + x + "Z")[0] == c && ([d] + y + "Z")[0] == d;
  }

  /** Trimmed digit strings followed by a letter sort as the numbers do, unless one begins the other. */
  lemma {:induction false} TrimmedOrder(s: string, t: string)
    requires |s| == |t| && Digits(s) && Digits(t) && Less(s, t)
    ensures TrimZeros(t) != "" && Sorts(TrimZeros(s), TrimZeros(t))
    decreases |s|
  {
    var c, s', d, t' := s[0], s[1..], t[0], t[1..];
    assert s == [c] + s' && t == [d] + t';
    TrimHead(c, s');
    TrimHead(d, t');
    if c == d {
      TrimmedOrder(s', t');
      SameHead(c, TrimZeros(s'), TrimZeros(t'));
    } else {
      LowerHead(c, TrimZeros(s'), d, TrimZeros(t'));
    }
    NothingSorts([d] + TrimZeros(t'));
  }

  lemma {:induction false} PrefixTail(x: string, y: string)
    requires x != "" && y != "" && x[0] == y[0]
    ensures x <= y <==> x[1..] <= y[1..]
  {
    if x[1..] <= y[1..] {
      assert x == [x[0]] + x[1..] && y == [y[0]] + y[1..];
    }
  }

  /** Inside one second the texts are ordered as the times unless the earlier fraction begins the later. */
  lemma {:induction false} InsideSecond(a: Time, b: Time)
    requires Second(a) == Second(b) && a < b
    ensures Less(Format(a), Format(b)) <==> !(TrimZeros(Pad(a % SECOND, 9)) <= TrimZeros(Pad(b % SECOND, 9)))
  {
    var s, t := Pad(a % SECOND, 9), Pad(b % SECOND, 9);
    NinePower();
    PadAscends(a % SECOND, b % SECOND, 9);
    PadDigits(a % SECOND, 9);
    PadDigits(b % SECOND, 9);
    TrimmedOrder(s, t);
    PointOrder(TrimZeros(s), TrimZeros(t));
    LessAfter(Stamp(Second(a)), Fraction(a % SECOND) + "Z", Fraction(b % SECOND) + "Z");
  }

  lemma {:induction false} PointOrder(x: string, y: string)
    requires y != "" && Sorts(x, y)
    ensures Less((if x == "" then "" else "." + x) + "Z", "." + y + "Z") <==> !(x <= y)
  {
    assert "." + y + "Z" == "." + (y + "Z");
    if x != "" {
      assert "." + x + "Z" == "." + (x + "Z");
      LessAfter(".", x + "Z", y + "Z");
    }
  }

  lemma {:induction false} NinePower()
    ensures Power(9) == SECOND
  {
    Powers();
    assert Power(5) == 100_000;
    assert Power(7) == 10_000_000;
  }

  /** Half past a second sorts before the second itself, so the order of the texts is not that of the times. */
  lemma {:induction false} TextDisagrees()
    ensures Less(Format(SECOND / 2), Format(0))
  {
    InsideSecond(0, SECOND / 2);
    HalfSecond();
    assert Format(0) != Format(SECOND / 2) by {
      assert Fraction(0) == "" && Fraction(SECOND / 2) == ".5";
      assert Format(0)[19] == 'Z' && Format(SECOND / 2)[19] == '.';
    }
    LessTotal(Format(0), Format(SECOND / 2));
  }

  lemma {:induction false} TrimPad(n: nat, width: nat)
    ensures TrimZeros(Pad(10 * n, width + 1)) == TrimZeros(Pad(n, width))
  {
    var w := Pad(10 * n, width + 1);
    assert w == Pad(n, width) + ['0'];
    assert w[..|w| - 1] == Pad(n, width);
  }

  lemma {:induction false} TrimNothing(width: nat)
    ensures TrimZeros(Pad(0, width)) == ""
  {
    if width > 0 { TrimPad(0, width - 1); TrimNothing(width - 1); }
  }

  lemma {:induction false} HalfSecond()
    ensures TrimZeros(Pad(0, 9)) == "" && TrimZeros(Pad(SECOND / 2, 9)) == "5"
  {
    TrimNothing(9);
    assert Pad(5, 1) == Pad(0, 0) + [Digit(5)] == "5";
    TrimPad(5, 1);
    TrimPad(50, 2);
    TrimPad(500, 3);
    TrimPad(5_000, 4);
    TrimPad(50_000, 5);
    TrimPad(500_000, 6);
    TrimPad(5_000_000, 7);
    TrimPad(50_000_000, 8);
  }
}
