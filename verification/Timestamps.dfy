/** UTC timestamps at microsecond resolution in years 0 to 9999, and the two
    texts they are written in: the canonical form (always six fractional
    digits and Z) and Python's isoformat (+00:00, fraction only when nonzero). */
module Timestamps {
  import opened Text

  const DAYS: nat := 3652425
  const DAY_MICROS: nat := 86400000000

  /** Microseconds since the start of year 0, in years 0 to 9999. */
  type Time = t: int | 0 <= t < DAYS * DAY_MICROS witness 0

  /******* Calendar *******/

  predicate Leap(y: nat) { y % 4 == 0 && (y % 100 != 0 || y % 400 == 0) }

  function YearLength(y: nat): nat { if Leap(y) then 366 else 365 }

  /** Days before year `y`. */
  function YearStart(y: nat): nat { 365 * y + (y + 3) / 4 - (y + 99) / 100 + (y + 399) / 400 }

  lemma YearStep(y: nat)
    ensures YearStart(y + 1) == YearStart(y) + YearLength(y)
  {
    assert (y + 4) / 4 == (y + 3) / 4 + (if y % 4 == 0 then 1 else 0);
    assert (y + 100) / 100 == (y + 99) / 100 + (if y % 100 == 0 then 1 else 0);
    assert (y + 400) / 400 == (y + 399) / 400 + (if y % 400 == 0 then 1 else 0);
  }

  lemma {:induction false} YearsOrdered(y: nat, z: nat)
    requires y <= z
    ensures YearStart(y) <= YearStart(z)
    decreases z - y
  {
    if y < z {
      YearStep(y);
      YearsOrdered(y + 1, z);
    }
  }

  /** The year of day `d`, searching from `y` up. */
  function YearFrom(d: nat, y: nat): (r: nat)
    requires YearStart(y) <= d
    ensures YearStart(r) <= d < YearStart(r + 1)
    decreases d - YearStart(y)
  {
    YearStep(y);
    if d < YearStart(y + 1) then y else YearFrom(d, y + 1)
  }

  function MonthLength(y: nat, m: nat): nat
  {
    if m == 2 then (if Leap(y) then 29 else 28)
    else if m == 4 || m == 6 || m == 9 || m == 11 then 30
    else 31
  }

  /** Days of year `y` before month `m`; month 13 is the next year's first. */
  function MonthStart(y: nat, m: nat): nat
    requires 1 <= m <= 13
    decreases m
  {
    if m == 1 then 0 else MonthStart(y, m - 1) + MonthLength(y, m - 1)
  }

  lemma MonthsFillYear(y: nat)
    ensures MonthStart(y, 13) == YearLength(y)
  {
    assert MonthStart(y, 3) == MonthLength(y, 1) + MonthLength(y, 2);
    assert MonthStart(y, 5) == MonthStart(y, 3) + 61;
    assert MonthStart(y, 7) == MonthStart(y, 5) + 61;
    assert MonthStart(y, 9) == MonthStart(y, 7) + 62;
    assert MonthStart(y, 11) == MonthStart(y, 9) + 61;
  }

  lemma {:induction false} MonthsOrdered(y: nat, m: nat, n: nat)
    requires 1 <= m <= n <= 13
    ensures MonthStart(y, m) <= MonthStart(y, n)
    decreases n - m
  {
    if m < n { MonthsOrdered(y, m, n - 1); }
  }

  function MonthFrom(y: nat, d: nat, m: nat): (r: nat)
    requires 1 <= m <= 12 && MonthStart(y, m) <= d < MonthStart(y, 13)
    ensures 1 <= r <= 12 && MonthStart(y, r) <= d < MonthStart(y, r + 1)
    decreases 13 - m
  {
    if m == 12 || d < MonthStart(y, m + 1) then m else MonthFrom(y, d, m + 1)
  }

  datatype Civil = Civil(year: nat, month: nat, day: nat, hour: nat, minute: nat, second: nat, micro: nat)

  predicate ValidCivil(c: Civil)
  {
    && c.year < 10000 && 1 <= c.month <= 12 && 1 <= c.day <= MonthLength(c.year, c.month)
    && c.hour < 24 && c.minute < 60 && c.second < 60 && c.micro < 1000000
  }

  function DayOf(c: Civil): nat
    requires ValidCivil(c)
  {
    YearStart(c.year) + MonthStart(c.year, c.month) + c.day - 1
  }

  function MicrosOfDay(c: Civil): nat
  {
    ((c.hour * 60 + c.minute) * 60 + c.second) * 1000000 + c.micro
  }

  lemma DayInYear(c: Civil)
    requires ValidCivil(c)
    ensures YearStart(c.year) <= DayOf(c) < YearStart(c.year + 1) <= DAYS
    ensures MonthStart(c.year, c.month) <= DayOf(c) - YearStart(c.year) < MonthStart(c.year, c.month + 1)
  {
    MonthsOrdered(c.year, c.month + 1, 13);
    MonthsFillYear(c.year);
    YearStep(c.year);
    YearsOrdered(c.year + 1, 10000);
  }

  function FromCivil(c: Civil): (t: Time)
    requires ValidCivil(c)
  {
    DayInYear(c);
    DayOf(c) * DAY_MICROS + MicrosOfDay(c)
  }

  /** The date and time of day of `t`. */
  function ToCivil(t: Time): (c: Civil)
    ensures ValidCivil(c)
  {
    var days, rem := t / DAY_MICROS, t % DAY_MICROS;
    var y := YearFrom(days, 0);
    YearInRange(days, y);
    MonthsFillYear(y);
    YearStep(y);
    var m := MonthFrom(y, days - YearStart(y), 1);
    var secs := rem / 1000000;
    Civil(y, m, days - YearStart(y) - MonthStart(y, m) + 1,
          secs / 3600, secs / 60 % 60, secs % 60, rem % 1000000)
  }

  lemma YearInRange(d: nat, y: nat)
    requires d < DAYS && YearStart(y) <= d
    ensures y < 10000
  {
    if y >= 10000 { YearsOrdered(10000, y); }
  }

  lemma FromToCivil(t: Time)
    ensures FromCivil(ToCivil(t)) == t
  {
    var c := ToCivil(t);
    var rem := t % DAY_MICROS;
    var secs := rem / 1000000;
    assert secs / 60 == secs / 3600 * 60 + secs / 60 % 60;
    assert MicrosOfDay(c) == rem;
    assert DayOf(c) == t / DAY_MICROS;
  }

  /** Lexicographic order of dates and times. */
  predicate Earlier(a: Civil, b: Civil)
  {
    if a.year != b.year then a.year < b.year
    else if a.month != b.month then a.month < b.month
    else if a.day != b.day then a.day < b.day
    else if a.hour != b.hour then a.hour < b.hour
    else if a.minute != b.minute then a.minute < b.minute
    else if a.second != b.second then a.second < b.second
    else a.micro < b.micro
  }

  lemma EarlierYear(a: Civil, b: Civil)
    requires ValidCivil(a) && ValidCivil(b) && a.year < b.year
    ensures DayOf(a) < DayOf(b)
  {
    DayInYear(a);
    DayInYear(b);
    YearsOrdered(a.year + 1, b.year);
  }

  lemma EarlierMonth(a: Civil, b: Civil)
    requires ValidCivil(a) && ValidCivil(b) && a.year == b.year && a.month < b.month
    ensures DayOf(a) < DayOf(b)
  {
    MonthsOrdered(a.year, a.month + 1, b.month);
  }

  lemma EarlierDay(a: Civil, b: Civil)
    requires ValidCivil(a) && ValidCivil(b) && Earlier(a, b)
    ensures DayOf(a) <= DayOf(b)
    ensures DayOf(a) == DayOf(b) ==> a.year == b.year && a.month == b.month && a.day == b.day
  {
    if a.year < b.year {
      EarlierYear(a, b);
    } else if a.month < b.month {
      EarlierMonth(a, b);
    }
  }

  lemma EarlierIsLess(a: Civil, b: Civil)
    requires ValidCivil(a) && ValidCivil(b) && Earlier(a, b)
    ensures FromCivil(a) < FromCivil(b)
  {
    EarlierDay(a, b);
    assert MicrosOfDay(a) < DAY_MICROS;
    if DayOf(a) == DayOf(b) {
      assert MicrosOfDay(a) < MicrosOfDay(b);
    }
  }

  /** Calendar order is time order. */
  lemma LessIsEarlier(t: Time, u: Time)
    requires t < u
    ensures Earlier(ToCivil(t), ToCivil(u))
  {
    var a, b := ToCivil(t), ToCivil(u);
    FromToCivil(t);
    FromToCivil(u);
    if !Earlier(a, b) && a != b {
      EarlierIsLess(b, a);
    }
  }

  /******* Fixed-width digits *******/

  function Pad(n: nat, w: nat): (s: string)
    ensures |s| == w && AllDigits(s)
  {
    if w == 0 then "" else Pad(n / 10, w - 1) + [Digit(n % 10)]
  }

  function Pow10(w: nat): (p: nat)
    ensures p > 0
  {
    if w == 0 then 1 else 10 * Pow10(w - 1)
  }

  lemma {:induction false} PadNumber(n: nat, w: nat)
    requires n < Pow10(w)
    ensures Number(Pad(n, w)) == n
  {
    if w > 0 {
      PadNumber(n / 10, w - 1);
      assert Pad(n, w)[..w - 1] == Pad(n / 10, w - 1);
    }
  }

  lemma {:induction false} NumberPad(s: string)
    requires AllDigits(s)
    ensures Number(s) < Pow10(|s|) && Pad(Number(s), |s|) == s
  {
    if s != "" {
      var k := |s| - 1;
      NumberPad(s[..k]);
      assert s == s[..k] + [s[k]];
      assert Number(s) / 10 == Number(s[..k]) && Number(s) % 10 == DigitValue(s[k]);
    }
  }

  lemma {:induction false} PadOrdered(m: nat, n: nat, w: nat)
    requires m < n < Pow10(w)
    ensures Less(Pad(m, w), Pad(n, w))
  {
    var p, q := Pad(m / 10, w - 1), Pad(n / 10, w - 1);
    if m / 10 < n / 10 {
      PadOrdered(m / 10, n / 10, w - 1);
      LessBeforeSuffix(p, q, [Digit(m % 10)], [Digit(n % 10)]);
    } else {
      LessAfterPrefix(p, [Digit(m % 10)], [Digit(n % 10)]);
    }
  }

  /******* Texts made of fixed-width fields *******/

  datatype Fields = End | Field(value: nat, width: nat, sep: string, rest: Fields)

  function Render(f: Fields): string
  {
    match f
    case End => ""
    case Field(n, w, sep, rest) => Pad(n, w) + (sep + Render(rest))
  }

  predicate Fits(f: Fields) { f.Field? ==> f.value < Pow10(f.width) && Fits(f.rest) }

  predicate SameShape(f: Fields, g: Fields)
  {
    match f
    case End => g.End?
    case Field(_, w, sep, rest) => g.Field? && g.width == w && g.sep == sep && SameShape(rest, g.rest)
  }

  predicate FieldsLess(f: Fields, g: Fields)
    requires SameShape(f, g)
  {
    f.Field? && (f.value < g.value || (f.value == g.value && FieldsLess(f.rest, g.rest)))
  }

  lemma {:induction false} RenderOrdered(f: Fields, g: Fields)
    requires SameShape(f, g) && Fits(f) && Fits(g) && FieldsLess(f, g)
    ensures Less(Render(f), Render(g))
  {
    var p, q := Pad(f.value, f.width), Pad(g.value, g.width);
    if f.value < g.value {
      PadOrdered(f.value, g.value, f.width);
      LessBeforeSuffix(p, q, f.sep + Render(f.rest), g.sep + Render(g.rest));
    } else {
      RenderOrdered(f.rest, g.rest);
      LessAfterPrefix(f.sep, Render(f.rest), Render(g.rest));
      LessAfterPrefix(p, f.sep + Render(f.rest), g.sep + Render(g.rest));
    }
  }

  function DateFields(c: Civil, rest: Fields): Fields
  {
    Field(c.year, 4, "-", Field(c.month, 2, "-", Field(c.day, 2, "T", rest)))
  }

  function ClockFields(c: Civil, rest: Fields): Fields
  {
    Field(c.hour, 2, ":", Field(c.minute, 2, ":", Field(c.second, 2, "", rest)))
  }

  /** The fraction: an empty field before its point, then six digits. */
  function FractionFields(c: Civil, zone: string): Fields
  {
    Field(0, 0, ".", Field(c.micro, 6, zone, End))
  }

  function CanonicalFields(c: Civil): Fields { DateFields(c, ClockFields(c, FractionFields(c, "Z"))) }

  lemma Powers()
    ensures Pow10(2) == 100 && Pow10(4) == 10000 && Pow10(6) == 1000000
  {
    assert Pow10(2) == 10 * Pow10(1);
    assert Pow10(4) == 10 * Pow10(3) && Pow10(3) == 10 * Pow10(2);
    assert Pow10(6) == 10 * Pow10(5) && Pow10(5) == 10 * Pow10(4);
  }

  lemma DayBound(c: Civil)
    requires ValidCivil(c)
    ensures c.day <= 31
  {
  }

  lemma CanonicalFits(c: Civil)
    requires ValidCivil(c)
    ensures Fits(CanonicalFields(c))
  {
    Powers();
    DayBound(c);
    var tail := FractionFields(c, "Z");
    assert Fits(tail);
    assert Fits(Field(c.second, 2, "", tail));
    assert Fits(ClockFields(c, tail));
  }

  /******* The canonical form *******/

  /** canonicalTS and canonical_ts. */
  function CanonicalTs(t: Time): string { Render(CanonicalFields(ToCivil(t))) }

  lemma CanonicalFieldsOrdered(a: Civil, b: Civil)
    requires Earlier(a, b)
    ensures SameShape(CanonicalFields(a), CanonicalFields(b))
    ensures FieldsLess(CanonicalFields(a), CanonicalFields(b))
  {
    var v, w := Field(a.micro, 6, "Z", End), Field(b.micro, 6, "Z", End);
    var x, y := Field(0, 0, ".", v), Field(0, 0, ".", w);
    assert SameShape(v, w) && SameShape(x, y);
    var s, u := Field(a.second, 2, "", x), Field(b.second, 2, "", y);
    var m, n := Field(a.minute, 2, ":", s), Field(b.minute, 2, ":", u);
    assert SameShape(s, u) && SameShape(m, n);
    var h, k := Field(a.hour, 2, ":", m), Field(b.hour, 2, ":", n);
    var d, e := Field(a.day, 2, "T", h), Field(b.day, 2, "T", k);
    assert SameShape(h, k) && SameShape(d, e);
    var p, q := Field(a.month, 2, "-", d), Field(b.month, 2, "-", e);
    assert SameShape(p, q);
    assert FieldsLess(v, w) == (a.micro < b.micro);
    assert FieldsLess(x, y) == FieldsLess(v, w);
    assert FieldsLess(s, u) == (a.second < b.second || (a.second == b.second && FieldsLess(x, y)));
    assert FieldsLess(m, n) == (a.minute < b.minute || (a.minute == b.minute && FieldsLess(s, u)));
    assert FieldsLess(h, k) == (a.hour < b.hour || (a.hour == b.hour && FieldsLess(m, n)));
    assert FieldsLess(d, e) == (a.day < b.day || (a.day == b.day && FieldsLess(h, k)));
    assert FieldsLess(p, q) == (a.month < b.month || (a.month == b.month && FieldsLess(d, e)));
  }

  /** String order of the canonical form is time order. */
  lemma CanonicalOrder(t: Time, u: Time)
    ensures Less(CanonicalTs(t), CanonicalTs(u)) <==> t < u
  {
    if t < u {
      CanonicalOrdered(t, u);
    } else if u < t {
      CanonicalOrdered(u, t);
      if Less(CanonicalTs(t), CanonicalTs(u)) {
        LessTransitive(CanonicalTs(t), CanonicalTs(u), CanonicalTs(t));
        LessIrreflexive(CanonicalTs(t));
      }
    } else {
      LessIrreflexive(CanonicalTs(t));
    }
  }

  lemma CanonicalOrdered(t: Time, u: Time)
    requires t < u
    ensures Less(CanonicalTs(t), CanonicalTs(u))
  {
    LessIsEarlier(t, u);
    CanonicalFits(ToCivil(t));
    CanonicalFits(ToCivil(u));
    CanonicalFieldsOrdered(ToCivil(t), ToCivil(u));
    RenderOrdered(CanonicalFields(ToCivil(t)), CanonicalFields(ToCivil(u)));
  }

  lemma CanonicalInjective(t: Time, u: Time)
    requires CanonicalTs(t) == CanonicalTs(u)
    ensures t == u
  {
    CanonicalOrder(t, u);
    CanonicalOrder(u, t);
    LessIrreflexive(CanonicalTs(t));
  }

  /******* Reading the canonical form *******/

  lemma ToFromCivil(c: Civil)
    requires ValidCivil(c)
    ensures ToCivil(FromCivil(c)) == c
  {
    var d := ToCivil(FromCivil(c));
    FromToCivil(FromCivil(c));
    if d != c {
      if Earlier(c, d) { EarlierIsLess(c, d); } else { EarlierIsLess(d, c); }
    }
  }

  predicate DigitsAt(s: string, i: nat, j: nat)
    requires i <= j <= |s|
  {
    AllDigits(s[i..j])
  }

  predicate HasLayout(s: string)
  {
    && |s| == 27
    && s[4] == '-' && s[7] == '-' && s[10] == 'T' && s[13] == ':' && s[16] == ':' && s[19] == '.' && s[26] == 'Z'
    && DigitsAt(s, 0, 4) && DigitsAt(s, 5, 7) && DigitsAt(s, 8, 10)
    && DigitsAt(s, 11, 13) && DigitsAt(s, 14, 16) && DigitsAt(s, 17, 19) && DigitsAt(s, 20, 26)
  }

  function CivilIn(s: string): Civil
    requires HasLayout(s)
  {
    Civil(Number(s[0..4]), Number(s[5..7]), Number(s[8..10]),
          Number(s[11..13]), Number(s[14..16]), Number(s[17..19]), Number(s[20..26]))
  }

  /** Reads the canonical form alone. */
  function ParseCanonical(s: string): Option<Time>
  {
    if HasLayout(s) && ValidCivil(CivilIn(s)) then Some(FromCivil(CivilIn(s))) else None
  }

  function DateText(c: Civil): (s: string)
    ensures |s| == 11
  {
    Pad(c.year, 4) + "-" + Pad(c.month, 2) + "-" + Pad(c.day, 2) + "T"
  }

  function ClockText(c: Civil): (s: string)
    ensures |s| == 8
  {
    Pad(c.hour, 2) + ":" + Pad(c.minute, 2) + ":" + Pad(c.second, 2)
  }

  lemma Regroup(a: string, s: string, b: string, t: string, c: string, u: string, rest: string)
    ensures a + (s + (b + (t + (c + (u + rest))))) == a + s + b + t + c + u + rest
  {
    Assoc(a + s + b + t + c, u, rest);
    Assoc(a + s + b + t, c, u + rest);
    Assoc(a + s + b, t, c + (u + rest));
    Assoc(a + s, b, t + (c + (u + rest)));
    Assoc(a, s, b + (t + (c + (u + rest))));
  }

  lemma ThreeFields(f: Fields)
    requires f.Field? && f.rest.Field? && f.rest.rest.Field?
    ensures var g, h := f.rest, f.rest.rest;
      Render(f) == Pad(f.value, f.width) + f.sep + Pad(g.value, g.width) + g.sep
        + Pad(h.value, h.width) + h.sep + Render(h.rest)
  {
    hide Pad;
    var g, h := f.rest, f.rest.rest;
    assert Render(h) == Pad(h.value, h.width) + (h.sep + Render(h.rest));
    assert Render(g) == Pad(g.value, g.width) + (g.sep + Render(h));
    Regroup(Pad(f.value, f.width), f.sep, Pad(g.value, g.width), g.sep,
            Pad(h.value, h.width), h.sep, Render(h.rest));
  }

  lemma DateRenders(c: Civil, rest: Fields)
    ensures Render(DateFields(c, rest)) == DateText(c) + Render(rest)
  {
    hide Pad, Render;
    ThreeFields(DateFields(c, rest));
  }

  lemma ClockRenders(c: Civil, rest: Fields)
    ensures Render(ClockFields(c, rest)) == ClockText(c) + Render(rest)
  {
    hide Pad, Render;
    ThreeFields(ClockFields(c, rest));
    assert ClockText(c) + "" == ClockText(c);
  }

  lemma FractionRenders(c: Civil, zone: string)
    ensures Render(FractionFields(c, zone)) == "." + Pad(c.micro, 6) + zone
  {
    var f := Field(c.micro, 6, zone, End);
    assert Render(f) == Pad(c.micro, 6) + (zone + Render(End));
  }

  lemma CanonicalText(c: Civil)
    ensures Render(CanonicalFields(c)) == DateText(c) + ClockText(c) + "." + Pad(c.micro, 6) + "Z"
  {
    var fraction := FractionFields(c, "Z");
    DateRenders(c, ClockFields(c, fraction));
    ClockRenders(c, fraction);
    FractionRenders(c, "Z");
  }

  lemma DateSlices(c: Civil, rest: string)
    ensures var s := DateText(c) + rest;
      && s[0..4] == Pad(c.year, 4) && s[4] == '-' && s[5..7] == Pad(c.month, 2) && s[7] == '-'
      && s[8..10] == Pad(c.day, 2) && s[10] == 'T' && s[11..] == rest
  {
  }

  lemma ClockSlices(c: Civil, rest: string)
    ensures var s := ClockText(c) + rest;
      && s[0..2] == Pad(c.hour, 2) && s[2] == ':' && s[3..5] == Pad(c.minute, 2) && s[5] == ':'
      && s[6..8] == Pad(c.second, 2) && s[8..] == rest
  {
  }

  /** Where each field lies in the canonical text. */
  lemma CanonicalSlices(c: Civil)
    ensures var s := Render(CanonicalFields(c));
      && HasLayout(s)
      && s[0..4] == Pad(c.year, 4) && s[5..7] == Pad(c.month, 2) && s[8..10] == Pad(c.day, 2)
      && s[11..13] == Pad(c.hour, 2) && s[14..16] == Pad(c.minute, 2) && s[17..19] == Pad(c.second, 2)
      && s[20..26] == Pad(c.micro, 6)
  {
    var s := Render(CanonicalFields(c));
    CanonicalText(c);
    var fraction := "." + Pad(c.micro, 6) + "Z";
    var clock := ClockText(c) + fraction;
    assert s == DateText(c) + clock;
    DateSlices(c, clock);
    ClockSlices(c, fraction);
    assert s[11..13] == s[11..][0..2] && s[14..16] == s[11..][3..5] && s[17..19] == s[11..][6..8];
    assert s[13] == clock[2] && s[16] == clock[5];
    assert s[19..] == clock[8..] == fraction;
    assert s[20..26] == fraction[1..7] == Pad(c.micro, 6);
    assert s[19] == fraction[0] && s[26] == fraction[7];
  }

  lemma NumbersInRange(c: Civil)
    requires ValidCivil(c)
    ensures Number(Pad(c.year, 4)) == c.year && Number(Pad(c.month, 2)) == c.month && Number(Pad(c.day, 2)) == c.day
    ensures Number(Pad(c.hour, 2)) == c.hour && Number(Pad(c.minute, 2)) == c.minute
    ensures Number(Pad(c.second, 2)) == c.second && Number(Pad(c.micro, 6)) == c.micro
  {
    Powers();
    DayBound(c);
    PadNumber(c.year, 4);
    PadNumber(c.month, 2);
    PadNumber(c.day, 2);
    PadNumber(c.hour, 2);
    PadNumber(c.minute, 2);
    PadNumber(c.second, 2);
    PadNumber(c.micro, 6);
  }

  lemma SlicesMakeText(s: string)
    requires HasLayout(s)
    ensures s == Render(CanonicalFields(CivilIn(s)))
  {
    var c := CivilIn(s);
    CanonicalText(c);
    NumberPad(s[0..4]);
    NumberPad(s[5..7]);
    NumberPad(s[8..10]);
    DateIsPrefix(s, c);
    NumberPad(s[11..13]);
    NumberPad(s[14..16]);
    NumberPad(s[17..19]);
    ClockIsMiddle(s, c);
    NumberPad(s[20..26]);
    PartsMakeText(s);
  }

  lemma PartsMakeText(s: string)
    requires HasLayout(s)
    ensures s == s[0..11] + s[11..19] + "." + s[20..26] + "Z"
  {
  }

  lemma ClockIsMiddle(s: string, c: Civil)
    requires HasLayout(s) && s[11..13] == Pad(c.hour, 2) && s[14..16] == Pad(c.minute, 2) && s[17..19] == Pad(c.second, 2)
    ensures s[11..19] == ClockText(c)
  {
    hide Pad, DigitsAt;
    assert s[11..19] == s[11..13] + ":" + s[14..16] + ":" + s[17..19];
  }

  lemma DateIsPrefix(s: string, c: Civil)
    requires HasLayout(s) && s[0..4] == Pad(c.year, 4) && s[5..7] == Pad(c.month, 2) && s[8..10] == Pad(c.day, 2)
    ensures s[0..11] == DateText(c)
  {
    hide Pad, DigitsAt;
    assert s[0..11] == s[0..4] + "-" + s[5..7] + "-" + s[8..10] + "T";
  }

  /** A text parses to `t` exactly when it is the canonical text of `t`. */
  lemma ParseIsInverse(s: string, t: Time)
    ensures ParseCanonical(s) == Some(t) <==> s == CanonicalTs(t)
  {
    if s == CanonicalTs(t) {
      var c := ToCivil(t);
      CanonicalSlices(c);
      NumbersInRange(c);
      assert CivilIn(s) == c;
      FromToCivil(t);
    } else if ParseCanonical(s) == Some(t) {
      SlicesMakeText(s);
      ToFromCivil(CivilIn(s));
    }
  }

  /******* Python's isoformat *******/

  /** pyISOFormat: no fraction when it is zero, and +00:00. */
  function PyIso(t: Time): string
  {
    var c := ToCivil(t);
    DateText(c) + ClockText(c) + (if c.micro != 0 then "." + Pad(c.micro, 6) else "") + "+00:00"
  }

  predicate EndsWith(s: string, t: string) { |t| <= |s| && s[|s| - |t|..] == t }

  /** _hashed_ts: the wire text turned into the form "1" hashed text. */
  function HashedTs(value: string): string
  {
    if !EndsWith(value, "Z") then value
    else
      var body := value[..|value| - 1];
      (if EndsWith(body, ".000000") then body[..|body| - 7] else body) + "+00:00"
  }

  lemma ZeroPads(n: nat)
    requires n < 1000000
    ensures Pad(n, 6) == "000000" <==> n == 0
  {
    Powers();
    PadNumber(n, 6);
    PadNumber(0, 6);
    assert Pad(0, 2) == "00" && Pad(0, 4) == Pad(0, 3) + "0" && Pad(0, 3) == Pad(0, 2) + "0";
    assert Pad(0, 6) == Pad(0, 5) + "0" && Pad(0, 5) == Pad(0, 4) + "0";
  }

  /** The conversion drops a zero fraction and rewrites the zone. */
  lemma HashedTail(base: string, digits: string)
    requires |digits| == 6
    ensures HashedTs(base + ("." + digits) + "Z") ==
      base + (if digits == "000000" then "" else "." + digits) + "+00:00"
  {
    var fraction := "." + digits;
    var body := base + fraction;
    var value := body + "Z";
    assert EndsWith(value, "Z") && value[..|value| - 1] == body;
    assert body[|base|..] == fraction && body[..|base|] == base;
    assert fraction[1..] == digits && ".000000"[1..] == "000000";
    assert base + "" == base;
  }

  /** Python's conversion of the wire text is Go's direct rendering. */
  lemma HashedTsIsPyIso(t: Time)
    ensures HashedTs(CanonicalTs(t)) == PyIso(t)
  {
    hide HashedTs, Pad, Render, ToCivil, DateText, ClockText, CanonicalFields;
    var c := ToCivil(t);
    CanonicalText(c);
    ZeroPads(c.micro);
    var base := DateText(c) + ClockText(c);
    Assoc(base, ".", Pad(c.micro, 6));
    HashedTail(base, Pad(c.micro, 6));
  }

  /** isoformat is injective too: the fraction is dropped only when zero. */
  lemma PyIsoInjective(t: Time, u: Time)
    requires PyIso(t) == PyIso(u)
    ensures t == u
  {
    hide Pad, DateText, ClockText, ToCivil, Render, CanonicalFields;
    var c, d := ToCivil(t), ToCivil(u);
    var base, base' := DateText(c) + ClockText(c), DateText(d) + ClockText(d);
    assert PyIso(t)[..19] == base && PyIso(u)[..19] == base';
    if c.micro != 0 && d.micro != 0 {
      assert PyIso(t)[20..26] == Pad(c.micro, 6) && PyIso(u)[20..26] == Pad(d.micro, 6);
    }
    assert Pad(c.micro, 6) == Pad(d.micro, 6);
    CanonicalText(c);
    CanonicalText(d);
    CanonicalInjective(t, u);
  }

  /** No text is both an isoformat and a canonical text. */
  lemma RenderingsDisjoint(t: Time, u: Time)
    ensures PyIso(t) != CanonicalTs(u)
  {
    CanonicalText(ToCivil(u));
    var s, v := PyIso(t), CanonicalTs(u);
    assert s[|s| - 1] == '0' && v[|v| - 1] == 'Z';
  }
}
