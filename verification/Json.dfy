/** JSON values, the canonical rendering that rows are hashed in (sorted,
    compact, ASCII), and a JSON reader. The reader reads back every canonical
    text, which is what makes the rendering injective. */
module Json {
  import opened Text

  datatype Json =
    | Null
    | Bool(b: bool)
    | Num(token: NumToken)
    | Str(s: string)
    | Arr(elems: Elems)
    | Obj(members: Members)

  datatype Elems = NoElems | Elem(head: Json, tail: Elems)

  /** An object's members in the order they are written. */
  datatype Members = NoMembers | Member(key: string, value: Json, rest: Members)

  datatype Parsed<T> = Fail | Got(value: T, rest: string)

  /******* Numbers *******/

  /** A number keeps its source token, so 75.0 stays 75.0. */
  type NumToken = s: string | IsNumber(s) witness "0"

  function DigitRun(s: string): (n: nat)
    ensures n <= |s| && AllDigits(s[..n])
    ensures n < |s| ==> !IsDigit(s[n])
  {
    if s != "" && IsDigit(s[0]) then
      var k := DigitRun(s[1..]);
      assert forall i | 1 <= i < 1 + k :: s[i] == s[1..][..k][i - 1];
      1 + k
    else 0
  }

  /** The number grammar of section 6 of RFC 8259. */
  predicate IsNumber(s: string)
  {
    var t := if s != "" && s[0] == '-' then s[1..] else s;
    var n := DigitRun(t);
    n > 0 && (t[0] == '0' ==> n == 1) && FractionOk(t[n..])
  }

  predicate FractionOk(s: string)
  {
    if s != "" && s[0] == '.' then
      var n := DigitRun(s[1..]);
      n > 0 && ExponentOk(s[1..][n..])
    else ExponentOk(s)
  }

  predicate ExponentOk(s: string)
  {
    s != "" ==>
      && (s[0] == 'e' || s[0] == 'E')
      && var t := if |s| > 1 && (s[1] == '+' || s[1] == '-') then s[2..] else s[1..];
      && t != "" && AllDigits(t)
  }

  predicate NumChar(c: char)
  {
    IsDigit(c) || c == '-' || c == '+' || c == '.' || c == 'e' || c == 'E'
  }

  lemma NumberChars(s: string)
    requires IsNumber(s)
    ensures s != "" && forall i | 0 <= i < |s| :: NumChar(s[i])
  {
    var t := if s[0] == '-' then s[1..] else s;
    var n := DigitRun(t);
    FractionChars(t[n..]);
    forall i | 0 <= i < |t| ensures NumChar(t[i]) {
      if i < n { assert t[i] == t[..n][i]; } else { assert t[i] == t[n..][i - n]; }
    }
    forall i | 0 <= i < |s| ensures NumChar(s[i]) {
      if s[0] == '-' && i > 0 { assert s[i] == t[i - 1]; }
    }
  }

  lemma FractionChars(s: string)
    requires FractionOk(s)
    ensures forall i | 0 <= i < |s| :: NumChar(s[i])
  {
    if s != "" && s[0] == '.' {
      var n := DigitRun(s[1..]);
      ExponentChars(s[1..][n..]);
      forall i | 1 <= i < |s| ensures NumChar(s[i]) {
        if i < n + 1 { assert s[i] == s[1..][..n][i - 1]; } else { assert s[i] == s[1..][n..][i - 1 - n]; }
      }
    } else {
      ExponentChars(s);
    }
  }

  lemma ExponentChars(s: string)
    requires ExponentOk(s)
    ensures forall i | 0 <= i < |s| :: NumChar(s[i])
  {
    if s != "" {
      var k := if |s| > 1 && (s[1] == '+' || s[1] == '-') then 2 else 1;
      forall i | k <= i < |s| ensures NumChar(s[i]) { assert s[i] == s[k..][i - k]; }
    }
  }

  /** An integer's decimal text is a number token. */
  function IntToken(n: int): (t: NumToken)
    ensures t == SignedDecimal(n)
  {
    var d := if n < 0 then Decimal(-n) else Decimal(n);
    assert AllDigits(d) by { forall i | 0 <= i < |d| ensures IsDigit(d[i]) { assert d[i] in d; } }
    DigitRunAll(d);
    assert d[|d|..] == "";
    assert n < 0 ==> ("-" + d)[1..] == d;
    SignedDecimal(n)
  }

  lemma {:induction false} DigitRunAll(s: string)
    requires AllDigits(s)
    ensures DigitRun(s) == |s|
  {
    if s != "" { DigitRunAll(s[1..]); }
  }

  /** How many number characters `s` starts with. */
  function NumRun(s: string): (n: nat)
    ensures n <= |s|
  {
    if s != "" && NumChar(s[0]) then 1 + NumRun(s[1..]) else 0
  }

  lemma {:induction false} NumRunOf(t: string, rest: string)
    requires forall i | 0 <= i < |t| :: NumChar(t[i])
    requires rest == "" || !NumChar(rest[0])
    ensures NumRun(t + rest) == |t|
  {
    if t == "" {
      assert t + rest == rest;
    } else {
      assert (t + rest)[1..] == t[1..] + rest;
      NumRunOf(t[1..], rest);
    }
  }

  /******* Hex escapes *******/

  function HexDigit(d: nat): (c: char)
    requires d < 16
    ensures HexValue(c) == d
  {
    if d < 10 then '0' + d as char else 'a' + (d - 10) as char
  }

  /** A hex digit's value, 16 for any other character. */
  function HexValue(c: char): nat
  {
    if '0' <= c <= '9' then (c - '0') as int
    else if 'a' <= c <= 'f' then (c - 'a') as int + 10
    else if 'A' <= c <= 'F' then (c - 'A') as int + 10
    else 16
  }

  function Hex4(n: nat): (s: string)
    requires n < 0x10000
    ensures |s| == 4
  {
    [HexDigit(n / 4096), HexDigit(n / 256 % 16), HexDigit(n / 16 % 16), HexDigit(n % 16)]
  }

  /** Four hex digits of `s` from `i` on. */
  predicate IsHexAt(s: string, i: nat)
  {
    && |s| >= i + 4
    && HexValue(s[i]) < 16 && HexValue(s[i + 1]) < 16 && HexValue(s[i + 2]) < 16 && HexValue(s[i + 3]) < 16
  }

  function HexAt(s: string, i: nat): (n: nat)
    requires IsHexAt(s, i)
    ensures n < 0x10000
  {
    4096 * HexValue(s[i]) + 256 * HexValue(s[i + 1]) + 16 * HexValue(s[i + 2]) + HexValue(s[i + 3])
  }

  predicate Encodes(h: string, n: nat) { |h| == 4 && IsHexAt(h, 0) && HexAt(h, 0) == n }

  lemma Hex4Encodes(n: nat)
    requires n < 0x10000
    ensures Encodes(Hex4(n), n)
  {
    assert n / 4096 * 16 + n / 256 % 16 == n / 256;
    assert n / 256 * 16 + n / 16 % 16 == n / 16;
  }

  function Scalar(n: nat): char
    requires n < 0xD800 || 0xE000 <= n < 0x11_0000
  {
    n as char
  }

  /******* Canonical rendering *******/

  const DEL: char := '\U{7f}'

  /** One character of a canonical string. DEL is escaped, or left raw as the
      Go SDK once wrote it. */
  function EscChar(c: char, rawDel: bool): (s: string)
    ensures s != ""
  {
    var n := c as int;
    if c == '"' then "\\\""
    else if c == '\\' then "\\\\"
    else if n == 10 then "\\n"
    else if n == 13 then "\\r"
    else if n == 9 then "\\t"
    else if n == 8 then "\\b"
    else if n == 12 then "\\f"
    else if 0x20 <= n < 0x7f || (n == 0x7f && rawDel) then [c]
    else UnicodeEscape(c)
  }

  /** The \\u escape of a character, a surrogate pair of them beyond U+FFFF. */
  function UnicodeEscape(c: char): (s: string)
    ensures |s| > 2 && s[0] == '\\' && s[1] == 'u'
  {
    var n := c as int;
    if n < 0x10000 then "\\u" + Hex4(n)
    else "\\u" + Hex4(High(n)) + "\\u" + Hex4(Low(n))
  }

  /** The surrogates of a character beyond U+FFFF. */
  function High(n: nat): (h: nat)
    requires 0x10000 <= n < 0x11_0000
    ensures 0xD800 <= h < 0xDC00
  {
    0xD800 + (n - 0x10000) / 1024
  }

  function Low(n: nat): (l: nat)
    requires 0x10000 <= n < 0x11_0000
    ensures 0xDC00 <= l < 0xE000 && 0x10000 + (High(n) - 0xD800) * 1024 + (l - 0xDC00) == n
  {
    0xDC00 + (n - 0x10000) % 1024
  }

  function Esc(s: string, rawDel: bool): string
  {
    if s == "" then "" else EscChar(s[0], rawDel) + Esc(s[1..], rawDel)
  }

  function Quoted(s: string, rawDel: bool): string { "\"" + Esc(s, rawDel) + "\"" }

  /** The canonical JSON text of `v`. */
  function Canon(v: Json, rawDel: bool): string
  {
    match v
    case Null => "null"
    case Bool(b) => if b then "true" else "false"
    case Num(t) => t
    case Str(s) => Quoted(s, rawDel)
    case Arr(NoElems) => "[]"
    case Arr(es) => "[" + CanonElems(es, rawDel)
    case Obj(NoMembers) => "{}"
    case Obj(ms) => "{" + CanonMembers(ms, rawDel)
  }

  /** Elements up to and including the closing bracket. */
  function CanonElems(es: Elems, rawDel: bool): string
    requires es.Elem?
  {
    Canon(es.head, rawDel) + if es.tail.NoElems? then "]" else "," + CanonElems(es.tail, rawDel)
  }

  /** Members up to and including the closing brace. */
  function CanonMembers(ms: Members, rawDel: bool): string
    requires ms.Member?
  {
    Quoted(ms.key, rawDel) + ":" + Canon(ms.value, rawDel)
      + if ms.rest.NoMembers? then "}" else "," + CanonMembers(ms.rest, rawDel)
  }

  /******* Reader *******/

  predicate IsSpace(c: char) { c == ' ' || c == '\t' || c == '\n' || c == '\r' }

  function SkipSpace(s: string): (t: string)
    ensures |t| <= |s|
  {
    if s != "" && IsSpace(s[0]) then SkipSpace(s[1..]) else s
  }

  /** Length of the escape `s` starts with, 0 if it is malformed. */
  function EscapeLength(s: string): (n: nat)
    requires s != ""
    ensures n <= |s|
  {
    if |s| < 2 then 0
    else if s[1] == 'u' then
      if !IsHexAt(s, 2) then 0 else if IsPair(s) then 12 else 6
    else if s[1] in "\"\\/bfnrt" then 2
    else 0
  }

  /** A high surrogate escape followed by a low one. */
  predicate IsPair(s: string)
  {
    && IsHexAt(s, 2) && 0xD800 <= HexAt(s, 2) < 0xDC00
    && |s| >= 12 && s[6] == '\\' && s[7] == 'u'
    && IsHexAt(s, 8) && 0xDC00 <= HexAt(s, 8) < 0xE000
  }

  /** The character the escape stands for; a lone surrogate reads as U+FFFD. */
  function EscapeValue(s: string): char
    requires s != "" && EscapeLength(s) > 0
  {
    match s[1]
    case 'n' => '\n'
    case 'r' => '\r'
    case 't' => '\t'
    case 'b' => Scalar(8)
    case 'f' => Scalar(12)
    case 'u' =>
      var n := HexAt(s, 2);
      if IsPair(s) then Scalar(0x10000 + (n - 0xD800) * 1024 + (HexAt(s, 8) - 0xDC00))
      else if 0xD800 <= n < 0xE000 then Scalar(0xFFFD)
      else Scalar(n)
    case c => c
  }

  function Prepend(c: char, p: Parsed<string>): (r: Parsed<string>)
    ensures r.Got? == p.Got? && (p.Got? ==> r == Got([c] + p.value, p.rest))
  {
    match p
    case Fail => Fail
    case Got(v, r) => Got([c] + v, r)
  }

  /** Reads a string body and its closing quote. */
  function ReadString(s: string): (p: Parsed<string>)
    ensures p.Got? ==> |p.rest| < |s|
    decreases |s|
  {
    if s == "" then Fail
    else if s[0] == '"' then Got("", s[1..])
    else if s[0] == '\\' then
      var n := EscapeLength(s);
      if n == 0 then Fail else Prepend(EscapeValue(s), ReadString(s[n..]))
    else if s[0] < ' ' then Fail
    else Prepend(s[0], ReadString(s[1..]))
  }

  /** Reads a value, after any white space. */
  function ReadValue(input: string): (p: Parsed<Json>)
    ensures p.Got? ==> |p.rest| < |input|
    decreases |input|, 1
  {
    var s := SkipSpace(input);
    if s == "" then Fail
    else if s[0] == '"' then
      match ReadString(s[1..]) {
        case Fail => Fail
        case Got(v, r) => Got(Str(v), r)
      }
    else if s[0] == '{' then
      ReadObject(SkipSpace(s[1..]))
    else if s[0] == '[' then
      ReadArray(SkipSpace(s[1..]))
    else if "null" <= s then Got(Null, s[4..])
    else if "true" <= s then Got(Bool(true), s[4..])
    else if "false" <= s then Got(Bool(false), s[5..])
    else
      var n := NumRun(s);
      if IsNumber(s[..n]) then Got(Num(s[..n]), s[n..]) else Fail
  }

  function ReadObject(s: string): (p: Parsed<Json>)
    ensures p.Got? ==> |p.rest| < |s|
    decreases |s|, 3
  {
    if s != "" && s[0] == '}' then Got(Obj(NoMembers), s[1..])
    else match ReadMembers(s)
      case Fail => Fail
      case Got(ms, r) => Got(Obj(ms), r)
  }

  function ReadArray(s: string): (p: Parsed<Json>)
    ensures p.Got? ==> |p.rest| < |s|
    decreases |s|, 3
  {
    if s != "" && s[0] == ']' then Got(Arr(NoElems), s[1..])
    else match ReadElems(s)
      case Fail => Fail
      case Got(es, r) => Got(Arr(es), r)
  }

  /** Reads elements and the closing bracket. */
  function ReadElems(s: string): (p: Parsed<Elems>)
    ensures p.Got? ==> |p.rest| < |s| && p.value.Elem?
    decreases |s|, 2
  {
    match ReadValue(s)
    case Fail => Fail
    case Got(v, r) =>
      var t := SkipSpace(r);
      if t == "" then Fail
      else if t[0] == ']' then Got(Elem(v, NoElems), t[1..])
      else if t[0] == ',' then
        match ReadElems(t[1..]) {
          case Fail => Fail
          case Got(es, q) => Got(Elem(v, es), q)
        }
      else Fail
  }

  /** Reads members and the closing brace. */
  function ReadMembers(input: string): (p: Parsed<Members>)
    ensures p.Got? ==> |p.rest| < |input| && p.value.Member?
    decreases |input|, 2
  {
    var s := SkipSpace(input);
    if s == "" || s[0] != '"' then Fail
    else match ReadString(s[1..])
      case Fail => Fail
      case Got(k, r) =>
        var t := SkipSpace(r);
        if t == "" || t[0] != ':' then Fail
        else match ReadValue(t[1..])
          case Fail => Fail
          case Got(v, q) =>
            var u := SkipSpace(q);
            if u == "" then Fail
            else if u[0] == '}' then Got(Member(k, v, NoMembers), u[1..])
            else if u[0] == ',' then
              match ReadMembers(u[1..]) {
                case Fail => Fail
                case Got(ms, z) => Got(Member(k, v, ms), z)
              }
            else Fail
  }

  /** One value and nothing but white space around it: json.Valid. */
  predicate Valid(s: string)
  {
    var p := ReadValue(s);
    p.Got? && SkipSpace(p.rest) == ""
  }

  /******* Reading back a canonical text *******/

  lemma Behind(c: char, s: string)
    ensures ([c] + s)[1..] == s && ([c] + s)[0] == c
  {
  }

  lemma SingleEscape(h: string, n: nat, rest: string)
    requires Encodes(h, n) && (n < 0xD800 || 0xE000 <= n < 0x10000)
    ensures var s := "\\u" + h + rest;
      s[0] == '\\' && EscapeLength(s) == 6 && EscapeValue(s) == Scalar(n) && s[6..] == rest
  {
    var s := "\\u" + h + rest;
    assert s[2] == h[0] && s[3] == h[1] && s[4] == h[2] && s[5] == h[3];
  }

  lemma PairEscape(h: string, l: string, hi: nat, lo: nat, rest: string)
    requires Encodes(h, hi) && Encodes(l, lo) && 0xD800 <= hi < 0xDC00 <= lo < 0xE000
    ensures var s := "\\u" + h + "\\u" + l + rest;
      && s[0] == '\\' && EscapeLength(s) == 12 && s[12..] == rest
      && EscapeValue(s) == Scalar(0x10000 + (hi - 0xD800) * 1024 + (lo - 0xDC00))
  {
    var s := "\\u" + h + "\\u" + l + rest;
    assert s[2] == h[0] && s[3] == h[1] && s[4] == h[2] && s[5] == h[3];
    assert s[8] == l[0] && s[9] == l[1] && s[10] == l[2] && s[11] == l[3];
  }

  lemma ShortEscape(c: char, rawDel: bool, rest: string)
    requires |EscChar(c, rawDel)| == 2
    ensures var s := EscChar(c, rawDel) + rest;
      s[0] == '\\' && EscapeLength(s) == 2 && EscapeValue(s) == c && s[2..] == rest
  {
    var e := EscChar(c, rawDel);
    assert (e + rest)[1] == e[1];
  }

  /** What a unicode escape consists of. */
  lemma Unit(c: char) returns (h: string)
    requires c as int < 0x10000
    ensures UnicodeEscape(c) == "\\u" + h && Encodes(h, c as int)
  {
    h := Hex4(c as int);
    Hex4Encodes(c as int);
  }

  lemma Units(c: char) returns (h: string, l: string)
    requires c as int >= 0x10000
    ensures var n := c as int;
      UnicodeEscape(c) == "\\u" + h + "\\u" + l && Encodes(h, High(n)) && Encodes(l, Low(n))
  {
    h, l := Hex4(High(c as int)), Hex4(Low(c as int));
    Hex4Encodes(High(c as int));
    Hex4Encodes(Low(c as int));
  }

  lemma LongEscape(c: char, e: string, rest: string)
    requires e == UnicodeEscape(c)
    ensures var s := e + rest;
      s[0] == '\\' && EscapeLength(s) == |e| && EscapeValue(s) == c && s[|e|..] == rest
  {
    hide EscapeLength, EscapeValue, Hex4;
    if c as int < 0x10000 {
      var h := Unit(c);
      SingleEscape(h, c as int, rest);
    } else {
      var h, l := Units(c);
      PairEscape(h, l, High(c as int), Low(c as int), rest);
    }
  }

  lemma EscapeStep(s: string, n: nat, c: char, rest: string)
    requires s != "" && s[0] == '\\' && n > 0 && EscapeLength(s) == n && EscapeValue(s) == c && s[n..] == rest
    ensures ReadString(s) == Prepend(c, ReadString(rest))
  {
  }

  lemma CharReadsBack(c: char, rawDel: bool, rest: string)
    ensures ReadString(EscChar(c, rawDel) + rest) == Prepend(c, ReadString(rest))
  {
    var e := EscChar(c, rawDel);
    if |e| > 2 {
      LongEscape(c, e, rest);
      EscapeStep(e + rest, |e|, c, rest);
    } else if |e| == 2 {
      ShortEscape(c, rawDel, rest);
      EscapeStep(e + rest, |e|, c, rest);
    } else {
      Behind(c, rest);
    }
  }

  lemma {:induction false} StringReadsBack(s: string, rawDel: bool, rest: string)
    ensures ReadString(Esc(s, rawDel) + "\"" + rest) == Got(s, rest)
  {
    if s == "" {
      Behind('"', rest);
      assert "" + "\"" + rest == ['"'] + rest;
    } else {
      var tail := Esc(s[1..], rawDel) + "\"" + rest;
      StringReadsBack(s[1..], rawDel, rest);
      CharReadsBack(s[0], rawDel, tail);
      Assoc(EscChar(s[0], rawDel), Esc(s[1..], rawDel), "\"");
      Assoc(EscChar(s[0], rawDel), Esc(s[1..], rawDel) + "\"", rest);
      assert s == [s[0]] + s[1..];
    }
  }

  /** What may follow a value: the end, or a character no number goes on with. */
  predicate Stops(rest: string) { rest == "" || !NumChar(rest[0]) }

  /** Every canonical text reads back as its value, with DEL escaped or raw. */
  lemma {:induction false} CanonReadsBack(v: Json, rawDel: bool, rest: string)
    requires Stops(rest)
    ensures ReadValue(Canon(v, rawDel) + rest) == Got(v, rest)
    decreases v, 1
  {
    match v
    case Null => WordReadsBack(v, rawDel, rest);
    case Bool(_) => WordReadsBack(v, rawDel, rest);
    case Num(t) => NumReadsBack(t, rest);
    case Str(str) => StrReadsBack(str, rawDel, rest);
    case Arr(es) => ArrReadsBack(es, rawDel, rest);
    case Obj(ms) => ObjReadsBack(ms, rawDel, rest);
  }

  lemma {:induction false} ArrReadsBack(es: Elems, rawDel: bool, rest: string)
    ensures ReadValue(Canon(Arr(es), rawDel) + rest) == Got(Arr(es), rest)
    decreases es, 1
  {
    var text := (if es.NoElems? then "]" else CanonElems(es, rawDel)) + rest;
    assert Canon(Arr(es), rawDel) + rest == "[" + text;
    if es.Elem? {
      ElemsReadBack(es, rawDel, rest);
      FirstChar(es.head, rawDel);
    } else {
      assert text[1..] == rest;
    }
    Dispatch(text);
  }

  lemma {:induction false} ObjReadsBack(ms: Members, rawDel: bool, rest: string)
    ensures ReadValue(Canon(Obj(ms), rawDel) + rest) == Got(Obj(ms), rest)
    decreases ms, 1
  {
    hide ReadMembers, ReadElems, ReadString, CanonMembers;
    var text := (if ms.NoMembers? then "}" else CanonMembers(ms, rawDel)) + rest;
    assert Canon(Obj(ms), rawDel) + rest == "{" + text;
    if ms.Member? {
      MembersReadBack(ms, rawDel, rest);
    } else {
      assert text[1..] == rest;
    }
    Dispatch(text);
  }

  lemma StrReadsBack(str: string, rawDel: bool, rest: string)
    ensures ReadValue(Quoted(str, rawDel) + rest) == Got(Str(str), rest)
  {
    StringReadsBack(str, rawDel, rest);
    Behind('"', Esc(str, rawDel) + "\"" + rest);
    assert Quoted(str, rawDel) + rest == ['"'] + (Esc(str, rawDel) + "\"" + rest);
  }

  lemma WordReadsBack(v: Json, rawDel: bool, rest: string)
    requires v.Null? || v.Bool?
    ensures ReadValue(Canon(v, rawDel) + rest) == Got(v, rest)
  {
    var w := Canon(v, rawDel);
    assert (w + rest)[|w|..] == rest && w <= w + rest && (w + rest)[0] == w[0];
  }

  lemma NumReadsBack(t: NumToken, rest: string)
    requires Stops(rest)
    ensures ReadValue(t + rest) == Got(Num(t), rest)
  {
    NumberChars(t);
    NumRunOf(t, rest);
    var s := t + rest;
    assert s[0] == t[0] && s[..|t|] == t && s[|t|..] == rest;
  }

  lemma Dispatch(text: string)
    requires text != "" && !IsSpace(text[0])
    ensures ReadValue("[" + text) == ReadArray(text)
    ensures ReadValue("{" + text) == ReadObject(text)
  {
    assert ("[" + text)[1..] == text && ("{" + text)[1..] == text;
  }

  /** A value's text starts neither with white space nor with a bracket that
      would end its container. */
  lemma FirstChar(v: Json, rawDel: bool)
    ensures var s := Canon(v, rawDel); s != "" && !IsSpace(s[0]) && s[0] != ']'
  {
    if v.Num? { NumberChars(v.token); }
  }

  lemma {:induction false} ElemsReadBack(es: Elems, rawDel: bool, rest: string)
    requires es.Elem?
    ensures ReadElems(CanonElems(es, rawDel) + rest) == Got(es, rest)
    decreases es, 0
  {
    var head := Canon(es.head, rawDel);
    if es.tail.Elem? {
      var more := CanonElems(es.tail, rawDel);
      Assoc(head, "," + more, rest);
      Assoc(",", more, rest);
      CanonReadsBack(es.head, rawDel, "," + (more + rest));
      ElemsReadBack(es.tail, rawDel, rest);
      Behind(',', more + rest);
      ElemStep(es.head, head + ("," + (more + rest)), "," + (more + rest));
    } else {
      Assoc(head, "]", rest);
      CanonReadsBack(es.head, rawDel, "]" + rest);
      Behind(']', rest);
      ElemStep(es.head, head + ("]" + rest), "]" + rest);
    }
  }

  /** One element read, given how its text reads. */
  lemma ElemStep(value: Json, text: string, after: string)
    requires ReadValue(text) == Got(value, after)
    requires after != "" && (after[0] == ',' || after[0] == ']')
    ensures ReadElems(text) ==
      if after[0] == ']' then Got(Elem(value, NoElems), after[1..])
      else if ReadElems(after[1..]).Got? then
        Got(Elem(value, ReadElems(after[1..]).value), ReadElems(after[1..]).rest)
      else Fail
  {
  }

  /** One member read, given how its parts read. */
  lemma MemberText(keyText: string, valueText: string)
    ensures var s := "\"" + keyText + "\"" + ":" + valueText;
      s != "" && s[0] == '"' && s[1..] == keyText + "\"" + (":" + valueText)
  {
    var q := "\"";
    Assoc(q + keyText + q, ":", valueText);
    Assoc(q + keyText, q, ":" + valueText);
    Assoc(q, keyText, q + (":" + valueText));
    Assoc(keyText, q, ":" + valueText);
    Behind('"', keyText + (q + (":" + valueText)));
  }

  lemma MemberStep(key: string, value: Json, keyText: string, valueText: string, after: string)
    requires ReadString(keyText + "\"" + (":" + valueText)) == Got(key, ":" + valueText)
    requires ReadValue(valueText) == Got(value, after)
    requires after != "" && (after[0] == ',' || after[0] == '}')
    ensures ReadMembers("\"" + keyText + "\"" + ":" + valueText) ==
      if after[0] == '}' then Got(Member(key, value, NoMembers), after[1..])
      else if ReadMembers(after[1..]).Got? then
        Got(Member(key, value, ReadMembers(after[1..]).value), ReadMembers(after[1..]).rest)
      else Fail
  {
    hide ReadString, ReadValue;
    var s := "\"" + keyText + "\"" + ":" + valueText;
    MemberText(keyText, valueText);
    Behind(':', valueText);
  }

  lemma {:induction false} MembersReadBack(ms: Members, rawDel: bool, rest: string)
    requires ms.Member?
    ensures ReadMembers(CanonMembers(ms, rawDel) + rest) == Got(ms, rest)
    ensures (CanonMembers(ms, rawDel) + rest)[0] == '"'
    decreases ms, 0
  {
    var key, value := Esc(ms.key, rawDel), Canon(ms.value, rawDel);
    var front := "\"" + key + "\"" + ":";
    if ms.rest.Member? {
      var more := CanonMembers(ms.rest, rawDel);
      Assoc(front + value, "," + more, rest);
      Assoc(",", more, rest);
      Assoc(front, value, "," + (more + rest));
      StringReadsBack(ms.key, rawDel, ":" + (value + ("," + (more + rest))));
      CanonReadsBack(ms.value, rawDel, "," + (more + rest));
      MembersReadBack(ms.rest, rawDel, rest);
      Behind(',', more + rest);
      MemberStep(ms.key, ms.value, key, value + ("," + (more + rest)), "," + (more + rest));
    } else {
      Assoc(front + value, "}", rest);
      Assoc(front, value, "}" + rest);
      StringReadsBack(ms.key, rawDel, ":" + (value + ("}" + rest)));
      CanonReadsBack(ms.value, rawDel, "}" + rest);
      Behind('}', rest);
      MemberStep(ms.key, ms.value, key, value + ("}" + rest), "}" + rest);
    }
  }

  /** The rendering is injective, also between its two treatments of DEL. */
  lemma CanonInjective(v: Json, rawV: bool, w: Json, rawW: bool)
    requires Canon(v, rawV) == Canon(w, rawW)
    ensures v == w
  {
    CanonReadsBack(v, rawV, "");
    CanonReadsBack(w, rawW, "");
    assert Canon(v, rawV) + "" == Canon(v, rawV) && Canon(w, rawW) + "" == Canon(w, rawW);
  }
}
