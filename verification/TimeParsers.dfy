/** Reading a timestamp. Go hands the canonical layout to time.Parse, which
    takes more than that layout writes: an hour of one digit, a comma before
    the fraction, and a sign in place of the fraction's first digit. Python
    takes the canonical form alone, from year 1 on. */
module TimeParsers {
  import opened Text
  import opened Timestamps

  /******* time.Parse *******/

  datatype Read = Bad | Read(value: nat, rest: string)

  /** Two digits, or one where the layout's field is not zero-padded; the
      layout's hour is not. */
  function GetNum(s: string, fixed: bool): Read
  {
    if s == "" || !IsDigit(s[0]) then Bad
    else if |s| > 1 && IsDigit(s[1]) then Read(10 * DigitValue(s[0]) + DigitValue(s[1]), s[2..])
    else if fixed then Bad
    else Read(DigitValue(s[0]), s[1..])
  }

  /** Skips the layout's own text behind a field. */
  function Behind(r: Read, sep: char): Read
  {
    if r.Bad? || r.rest == "" || r.rest[0] != sep then Bad else Read(r.value, r.rest[1..])
  }

  function GetYear(s: string): Read
  {
    if |s| < 4 || !AllDigits(s[..4]) then Bad else Read(Number(s[..4]), s[4..])
  }

  /** An optional sign and digits; a negative number is out of range. */
  function SignedDigits(p: string): Option<nat>
  {
    if p != "" && (p[0] == '+' || p[0] == '-') then
      if p[1..] == "" || !AllDigits(p[1..]) || (p[0] == '-' && Number(p[1..]) > 0) then None
      else Some(Number(p[1..]))
    else if AllDigits(p) then Some(Number(p))
    else None
  }

  /** The fraction: a point or a comma, then six characters. */
  function GetFraction(s: string): Read
  {
    if |s| < 7 || (s[0] != '.' && s[0] != ',') then Bad
    else match SignedDigits(s[1..7]) case None => Bad case Some(n) => Read(n, s[7..])
  }

  /** parseCanonicalTS. */
  function GoParse(s: string): Option<Time>
  {
    var year := Behind(GetYear(s), '-');
    if year.Bad? then None else
    var month := Behind(GetNum(year.rest, true), '-');
    if month.Bad? then None else
    var day := Behind(GetNum(month.rest, true), 'T');
    if day.Bad? then None else
    var hour := Behind(GetNum(day.rest, false), ':');
    if hour.Bad? then None else
    var minute := Behind(GetNum(hour.rest, true), ':');
    if minute.Bad? then None else
    var second := GetNum(minute.rest, true);
    if second.Bad? then None else
    var micro := GetFraction(second.rest);
    if micro.Bad? || micro.rest != "Z" then None else
    var c := Civil(year.value, month.value, day.value, hour.value, minute.value, second.value, micro.value);
    if ValidCivil(c) then Some(FromCivil(c)) else None
  }

  /******* What it takes *******/

  predicate HourSpells(h: string, hour: nat) { h == Pad(hour, 2) || (hour < 10 && h == [Digit(hour)]) }

  predicate FractionSpells(f: string, micro: nat)
  {
    f == Pad(micro, 6) || (micro < 100000 && f == "+" + Pad(micro, 5)) || (micro == 0 && f == "-00000")
  }

  function Spelling(c: Civil, h: string, point: char, f: string): string
  {
    Pad(c.year, 4) + ("-" + (Pad(c.month, 2) + ("-" + (Pad(c.day, 2) + ("T" + ClockSpelling(c, h, point, f))))))
  }

  function ClockSpelling(c: Civil, h: string, point: char, f: string): string
  {
    h + (":" + (Pad(c.minute, 2) + (":" + (Pad(c.second, 2) + ([point] + (f + "Z"))))))
  }

  /** The texts of `t` that Go takes. */
  predicate Spells(s: string, t: Time, h: string, point: char, f: string)
  {
    var c := ToCivil(t);
    HourSpells(h, c.hour) && IsPoint(point) && FractionSpells(f, c.micro) && s == Spelling(c, h, point, f)
  }

  ghost predicate GoSpells(s: string, t: Time) { exists h, point, f :: Spells(s, t, h, point, f) }

  lemma TwoDigits(a: char, b: char)
    requires IsDigit(a) && IsDigit(b)
    ensures Pad(10 * DigitValue(a) + DigitValue(b), 2) == [a, b]
  {
    var n := 10 * DigitValue(a) + DigitValue(b);
    assert n / 10 == DigitValue(a) && n % 10 == DigitValue(b);
    assert Pad(n, 2) == Pad(n / 10, 1) + [Digit(n % 10)];
    assert Pad(n / 10, 1) == Pad(n / 10 / 10, 0) + [Digit(n / 10 % 10)];
  }

  lemma NumReads(s: string, n: nat, rest: string)
    ensures GetNum(s, true) == Read(n, rest) <==> n < 100 && s == Pad(n, 2) + rest
  {
    if GetNum(s, true).Read? {
      TwoDigits(s[0], s[1]);
      assert s == [s[0], s[1]] + s[2..];
    }
    if n < 100 && s == Pad(n, 2) + rest {
      var p := Pad(n, 2);
      assert s[0] == p[0] && s[1] == p[1];
      TwoDigits(p[0], p[1]);
      assert [p[0], p[1]] == p;
      assert s[2..] == rest;
      Powers();
      PadNumber(n, 2);
      PadNumber(10 * DigitValue(p[0]) + DigitValue(p[1]), 2);
    }
  }

  lemma FieldReads(s: string, sep: char, n: nat, rest: string)
    ensures Behind(GetNum(s, true), sep) == Read(n, rest) <==> n < 100 && s == Pad(n, 2) + ([sep] + rest)
  {
    hide Pad;
    NumReads(s, n, [sep] + rest);
    var r := GetNum(s, true);
    if Behind(r, sep) == Read(n, rest) { assert r.rest == [sep] + rest; }
  }

  lemma HourForms(h: string, n: nat, rest: string)
    requires HourSpells(h, n)
    ensures var s := h + (":" + rest);
      && |s| > 1 && IsDigit(s[0]) && (IsDigit(s[1]) ==> h == Pad(n, 2))
      && (!IsDigit(s[1]) ==> n < 10 && h == [Digit(n)] && s[0] == Digit(n) && s[1..] == ":" + rest)
  {
    hide Pad;
    var s := h + (":" + rest);
    assert s[0] == h[0];
    if h == Pad(n, 2) { assert s[1] == h[1]; } else { assert s[1] == ':'; assert s[1..] == ":" + rest; }
  }

  lemma HourReads(s: string, n: nat, rest: string)
    ensures Behind(GetNum(s, false), ':') == Read(n, rest) <==> n < 100 && exists h :: HourSpells(h, n) && s == h + (":" + rest)
  {
    hide Pad, HourSpells;
    FieldReads(s, ':', n, rest);
    if Behind(GetNum(s, false), ':') == Read(n, rest) { HourRead(s, n, rest); }
    if n < 100 && exists h :: HourSpells(h, n) && s == h + (":" + rest) {
      var h :| HourSpells(h, n) && s == h + (":" + rest);
      HourForms(h, n, rest);
    }
  }

  lemma HourRead(s: string, n: nat, rest: string)
    requires Behind(GetNum(s, false), ':') == Read(n, rest)
    ensures n < 100 && exists h :: HourSpells(h, n) && s == h + (":" + rest)
  {
    hide Pad;
    FieldReads(s, ':', n, rest);
    if |s| > 1 && IsDigit(s[1]) {
      assert HourSpells(Pad(n, 2), n);
    } else {
      assert s == [s[0]] + (":" + rest);
      assert HourSpells([s[0]], n);
    }
  }

  lemma YearReads(s: string, n: nat, rest: string)
    ensures Behind(GetYear(s), '-') == Read(n, rest) <==> n < 10000 && s == Pad(n, 4) + ("-" + rest)
  {
    if GetYear(s).Read? {
      NumberPad(s[..4]);
      assert s == s[..4] + s[4..];
    }
    Powers();
    var r := GetYear(s);
    if Behind(r, '-') == Read(n, rest) { assert r.rest == "-" + rest; }
    if n < 10000 && s == Pad(n, 4) + ("-" + rest) {
      assert s[..4] == Pad(n, 4) && s[4..] == "-" + rest;
      PadNumber(n, 4);
    }
  }

  lemma SignedReads(p: string, n: nat)
    requires |p| == 6
    ensures SignedDigits(p) == Some(n) <==> n < 1000000 && FractionSpells(p, n)
  {
    hide Pad, Pow10, Number;
    Powers();
    assert Pow10(5) == 100000 by { Power5(); }
    Zeros();
    assert p == [p[0]] + p[1..];
    if p[0] == '+' || p[0] == '-' {
      DigitsFirst(n);
      if AllDigits(p[1..]) { NumberPad(p[1..]); }
      if p[1..] == Pad(n, 5) && n < 100000 { PadNumber(n, 5); }
    } else {
      if AllDigits(p) { NumberPad(p); }
      if p == Pad(n, 6) && n < 1000000 { PadNumber(n, 6); }
    }
  }

  lemma Power5()
    ensures Pow10(5) == 100000
  {
    Powers();
    assert Pow10(5) == 10 * Pow10(4);
  }

  lemma DigitsFirst(n: nat)
    ensures IsDigit(Pad(n, 6)[0])
  {
    hide Pad;
    assert AllDigits(Pad(n, 6));
  }

  lemma Zeros()
    ensures Pad(0, 5) == "00000"
  {
    assert Pad(0, 1) == "0";
    assert Pad(0, 3) == "000";
  }

  predicate IsPoint(c: char) { c == '.' || c == ',' }

  lemma FractionReads(s: string, n: nat)
    ensures GetFraction(s) == Read(n, "Z") <==>
      n < 1000000 && exists point, f :: IsPoint(point) && FractionSpells(f, n) && s == [point] + (f + "Z")
  {
    hide SignedDigits, FractionSpells;
    if GetFraction(s) == Read(n, "Z") { FractionRead(s, n); }
    if n < 1000000 && exists point, f :: IsPoint(point) && FractionSpells(f, n) && s == [point] + (f + "Z") {
      var point, f :| IsPoint(point) && FractionSpells(f, n) && s == [point] + (f + "Z");
      SixLong(f, n);
      assert s[1..7] == f && s[7..] == "Z";
      SignedReads(f, n);
    }
  }

  lemma FractionRead(s: string, n: nat)
    requires GetFraction(s) == Read(n, "Z")
    ensures n < 1000000 && exists point, f :: IsPoint(point) && FractionSpells(f, n) && s == [point] + (f + "Z")
  {
    hide SignedDigits, FractionSpells;
    SignedReads(s[1..7], n);
    assert s == [s[0]] + (s[1..7] + "Z");
    assert IsPoint(s[0]);
  }

  lemma SixLong(f: string, n: nat)
    requires FractionSpells(f, n)
    ensures |f| == 6
  {
    hide Pad;
  }

  /** Go reads `t` from a text exactly when the text is one of its spellings. */
  lemma GoParseExact(s: string, t: Time)
    ensures GoParse(s) == Some(t) <==> GoSpells(s, t)
  {
    if GoParse(s) == Some(t) { GoReadsSpelling(s, t); }
    if GoSpells(s, t) {
      var h, point, f :| Spells(s, t, h, point, f);
      SpellingReads(s, t, h, point, f);
    }
  }

  lemma GoReadsSpelling(s: string, t: Time)
    requires GoParse(s) == Some(t)
    ensures GoSpells(s, t)
  {
    hide GetYear, GetNum, Behind, GetFraction, Pad, HourSpells, FractionSpells;
    var year := Behind(GetYear(s), '-');
    var month := Behind(GetNum(year.rest, true), '-');
    var day := Behind(GetNum(month.rest, true), 'T');
    var hour := Behind(GetNum(day.rest, false), ':');
    var minute := Behind(GetNum(hour.rest, true), ':');
    var second := GetNum(minute.rest, true);
    var micro := GetFraction(second.rest);
    YearReads(s, year.value, year.rest);
    FieldReads(year.rest, '-', month.value, month.rest);
    FieldReads(month.rest, 'T', day.value, day.rest);
    HourReads(day.rest, hour.value, hour.rest);
    FieldReads(hour.rest, ':', minute.value, minute.rest);
    NumReads(minute.rest, second.value, second.rest);
    FractionReads(second.rest, micro.value);
    var h :| HourSpells(h, hour.value) && day.rest == h + (":" + hour.rest);
    var point, f :| IsPoint(point) && FractionSpells(f, micro.value) && second.rest == [point] + (f + "Z");
    var c := Civil(year.value, month.value, day.value, hour.value, minute.value, second.value, micro.value);
    ToFromCivil(c);
    assert Spells(s, t, h, point, f);
  }

  lemma SpellingReads(s: string, t: Time, h: string, point: char, f: string)
    requires Spells(s, t, h, point, f)
    ensures GoParse(s) == Some(t)
  {
    hide GetYear, GetNum, Behind, GetFraction, Pad, HourSpells, FractionSpells;
    var c := ToCivil(t);
    DayBound(c);
    FromToCivil(t);
    var r6 := [point] + (f + "Z");
    var r5 := Pad(c.second, 2) + r6;
    var r4 := Pad(c.minute, 2) + (":" + r5);
    var r3 := h + (":" + r4);
    var r2 := Pad(c.day, 2) + ("T" + r3);
    var r1 := Pad(c.month, 2) + ("-" + r2);
    YearReads(s, c.year, r1);
    FieldReads(r1, '-', c.month, r2);
    FieldReads(r2, 'T', c.day, r3);
    HourReads(r3, c.hour, r4);
    FieldReads(r4, ':', c.minute, r5);
    NumReads(r5, c.second, r6);
    FractionReads(r6, c.micro);
  }

  lemma CanonicalIsSpelling(t: Time)
    ensures GoParse(CanonicalTs(t)) == Some(t)
  {
    hide Pad;
    var c := ToCivil(t);
    var h, f := Pad(c.hour, 2), Pad(c.micro, 6);
    var fraction := FractionFields(c, "Z");
    FractionRenders(c, "Z");
    Assoc(".", f, "Z");
    ThreeFields(ClockFields(c, fraction));
    Regroup(h, ":", Pad(c.minute, 2), ":", Pad(c.second, 2), "", Render(fraction));
    var clock := Render(ClockFields(c, fraction));
    assert clock == ClockSpelling(c, h, '.', f) by { assert "" + Render(fraction) == Render(fraction); }
    ThreeFields(DateFields(c, ClockFields(c, fraction)));
    Regroup(Pad(c.year, 4), "-", Pad(c.month, 2), "-", Pad(c.day, 2), "T", clock);
    assert Spells(CanonicalTs(t), t, h, '.', f);
    SpellingReads(CanonicalTs(t), t, h, '.', f);
  }

  /******* fromisoformat behind a pattern *******/

  const YEAR_ONE: Time := 366 * DAY_MICROS

  /** parse_canonical. The pattern alone would let a newline at the end and
      digits of other scripts through; fromisoformat refuses those, and the
      year 0. */
  function PyParse(s: string): Option<Time>
  {
    if HasLayout(s) && ValidCivil(CivilIn(s)) && CivilIn(s).year >= 1 then Some(FromCivil(CivilIn(s))) else None
  }

  lemma FirstYear(c: Civil)
    requires ValidCivil(c)
    ensures c.year >= 1 <==> FromCivil(c) >= YEAR_ONE
  {
    hide YearStart, MonthStart, MonthLength, Leap;
    DayInYear(c);
    ClockInDay(c);
    assert YearStart(1) == 366 by { YearIsOne(); }
    if c.year >= 1 { YearsOrdered(1, c.year); }
  }

  lemma YearIsOne()
    ensures YearStart(1) == 366
  {
  }

  lemma ClockInDay(c: Civil)
    requires ValidCivil(c)
    ensures MicrosOfDay(c) < DAY_MICROS
  {
  }

  /** Python reads `t` from a text exactly when the text is canonical and the
      year is not 0. */
  lemma PyParseExact(s: string, t: Time)
    ensures PyParse(s) == Some(t) <==> s == CanonicalTs(t) && t >= YEAR_ONE
  {
    hide HasLayout, ValidCivil, CanonicalTs, FromCivil;
    ParseIsInverse(s, t);
    if ParseCanonical(s).Some? { FirstYear(CivilIn(s)); }
  }

  /******* Where they part *******/

  /** A comma before the fraction: Go reads the time, Python nothing. */
  lemma CommaParts(t: Time) returns (s: string)
    ensures GoParse(s) == Some(t) && PyParse(s) == None
  {
    hide Pad;
    var c := ToCivil(t);
    var h, f := Pad(c.hour, 2), Pad(c.micro, 6);
    s := Spelling(c, h, ',', f);
    SpellingReads(s, t, h, ',', f);
    PointAt(c, h, ',', f);
  }

  lemma PointAt(c: Civil, h: string, point: char, f: string)
    requires |h| == 2 && |f| == 6
    ensures var s := Spelling(c, h, point, f); |s| == 27 && s[19] == point
  {
    hide Pad;
    var clock := ClockSpelling(c, h, point, f);
    assert |clock| == 16 && clock[8] == point;
    var date := Pad(c.day, 2) + ("T" + clock);
    assert |date| == 19 && date[11] == point;
    var month := Pad(c.month, 2) + ("-" + date);
    assert |month| == 22 && month[14] == point;
  }

  const SHORT_HOUR: string := "2026-08-21T" + "1:00:00.000000Z"
  const ONE_O_CLOCK: Civil := Civil(2026, 8, 21, 1, 0, 0, 0)

  lemma PadStep(n: nat, w: nat)
    requires w > 0
    ensures Pad(n, w) == Pad(n / 10, w - 1) + [Digit(n % 10)]
  {
  }

  lemma ShortYear()
    ensures Pad(2026, 4) == "2026"
  {
    hide Pad;
    TwoDigits('2', '0');
    PadStep(202, 3);
    PadStep(2026, 4);
    assert "20" + ['2'] + ['6'] == "2026";
  }

  lemma ShortHourPads()
    ensures Pad(8, 2) == "08" && Pad(21, 2) == "21" && Pad(0, 2) == "00" && Pad(0, 6) == "000000"
  {
    hide Pad;
    TwoDigits('0', '8');
    TwoDigits('2', '1');
    TwoDigits('0', '0');
    Zeros();
    PadStep(0, 6);
    assert "00000" + ['0'] == "000000";
  }

  lemma ShortClock()
    ensures "1" + (":" + ("00" + (":" + ("00" + (['.'] + ("000000" + "Z")))))) == "1:00:00.000000Z"
  {
    assert ['.'] + ("000000" + "Z") == ".000000Z";
    assert "00" + (":" + ("00" + ".000000Z")) == "00:00.000000Z";
  }

  lemma ShortDate(clock: string)
    ensures "2026" + ("-" + ("08" + ("-" + ("21" + ("T" + clock))))) == "2026-08-21T" + clock
  {
    Assoc("21", "T", clock);
    Assoc("-", "21" + "T", clock);
    Assoc("08", "-" + ("21" + "T"), clock);
    Assoc("-", "08" + ("-" + ("21" + "T")), clock);
    Assoc("2026", "-" + ("08" + ("-" + ("21" + "T"))), clock);
    assert "2026" + ("-" + ("08" + ("-" + ("21" + "T")))) == "2026-08-21T";
  }

  lemma ShortHourSpelling()
    ensures SHORT_HOUR == Spelling(ONE_O_CLOCK, "1", '.', "000000")
  {
    hide Pad;
    ShortYear();
    ShortHourPads();
    ShortClock();
    ShortDate("1:00:00.000000Z");
  }

  /** An hour of one digit. */
  lemma ShortHourParts()
    ensures ValidCivil(ONE_O_CLOCK) && GoParse(SHORT_HOUR) == Some(FromCivil(ONE_O_CLOCK)) && PyParse(SHORT_HOUR) == None
  {
    hide Pad, Spelling, GoParse, FromCivil;
    ToFromCivil(ONE_O_CLOCK);
    ShortHourSpelling();
    ShortHourPads();
    assert [Digit(1)] == "1";
    SpellingReads(SHORT_HOUR, FromCivil(ONE_O_CLOCK), "1", '.', "000000");
    assert |SHORT_HOUR| == 26;
  }
}
