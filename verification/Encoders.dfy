/** The two SDKs' canonical encoders. Go writes JSON with encoding/json and
    then escapes what is not ASCII; Python dumps ASCII directly. Both also have
    a variant that leaves DEL raw: Go skips the escape, Python rewrites the
    escaped text. All four are shown to be the one rendering `Canon`. */
module Encoders {
  import opened Text
  import opened Json

  /******* Go: encoding/json with HTML escaping off *******/

  function GoChar(c: char): string
  {
    var n := c as int;
    if c == '"' then "\\\""
    else if c == '\\' then "\\\\"
    else if n == 10 then "\\n"
    else if n == 13 then "\\r"
    else if n == 9 then "\\t"
    else if n == 8 then "\\b"
    else if n == 12 then "\\f"
    else if n < 0x20 || n == 0x2028 || n == 0x2029 then UnicodeEscape(c)
    else [c]
  }

  function GoString(s: string): string
  {
    if s == "" then "" else GoChar(s[0]) + GoString(s[1..])
  }

  function GoEncode(v: Json): string
  {
    match v
    case Null => "null"
    case Bool(b) => if b then "true" else "false"
    case Num(t) => t
    case Str(s) => "\"" + GoString(s) + "\""
    case Arr(NoElems) => "[]"
    case Arr(es) => "[" + GoElems(es)
    case Obj(NoMembers) => "{}"
    case Obj(ms) => "{" + GoMembers(ms)
  }

  function GoElems(es: Elems): string
    requires es.Elem?
  {
    GoEncode(es.head) + if es.tail.NoElems? then "]" else "," + GoElems(es.tail)
  }

  function GoMembers(ms: Members): string
    requires ms.Member?
  {
    "\"" + GoString(ms.key) + "\"" + ":" + GoEncode(ms.value)
      + if ms.rest.NoMembers? then "}" else "," + GoMembers(ms.rest)
  }

  /******* Go: asciiEscape *******/

  function AsciiChar(c: char, escapeDel: bool): string
  {
    if c == DEL && escapeDel then "\\u007f"
    else if c as int < 0x80 then [c]
    else UnicodeEscape(c)
  }

  function AsciiEscape(s: string, escapeDel: bool): string
  {
    if s == "" then "" else AsciiChar(s[0], escapeDel) + AsciiEscape(s[1..], escapeDel)
  }

  lemma {:induction false} AsciiEscapeSplits(s: string, t: string, escapeDel: bool)
    ensures AsciiEscape(s + t, escapeDel) == AsciiEscape(s, escapeDel) + AsciiEscape(t, escapeDel)
  {
    if s == "" {
      assert s + t == t;
    } else {
      assert (s + t)[1..] == s[1..] + t;
      AsciiEscapeSplits(s[1..], t, escapeDel);
      Assoc(AsciiChar(s[0], escapeDel), AsciiEscape(s[1..], escapeDel), AsciiEscape(t, escapeDel));
    }
  }

  predicate Plain(s: string, escapeDel: bool)
  {
    forall i | 0 <= i < |s| :: s[i] as int < 0x80 && !(s[i] == DEL && escapeDel)
  }

  lemma {:induction false} PlainIsKept(s: string, escapeDel: bool)
    requires Plain(s, escapeDel)
    ensures AsciiEscape(s, escapeDel) == s
  {
    if s != "" {
      PlainIsKept(s[1..], escapeDel);
      assert s == [s[0]] + s[1..];
    }
  }

  /** Hex digits without padding, as strconv.FormatInt writes them. */
  function HexText(n: nat): (s: string)
    ensures s != ""
  {
    if n < 16 then [HexDigit(n)] else HexText(n / 16) + [HexDigit(n % 16)]
  }

  /** padHex: lowercase hex, at least four digits. */
  method PadHex(r: nat) returns (h: string)
    requires r < 0x10000
    ensures h == Hex4(r)
  {
    hide HexText, Hex4;
    h := HexText(r);
    ghost var n := |h|;
    HexTextDigits(r);
    while |h| < 4
      invariant n <= |h| <= 4
      invariant h == Hex4(r)[4 - |h|..]
    {
      LeadingZeros(r, |h|);
      assert Hex4(r)[4 - (|h| + 1)..] == ['0'] + Hex4(r)[4 - |h|..];
      h := "0" + h;
    }
  }

  lemma HexTextDigits(r: nat)
    requires r < 0x10000
    ensures var h := HexText(r);
      && |h| == (if r < 16 then 1 else if r < 256 then 2 else if r < 4096 then 3 else 4)
      && h == Hex4(r)[4 - |h|..]
  {
    hide HexDigit;
    assert r / 16 / 16 == r / 256 && r / 256 / 16 == r / 4096;
    if r >= 16 {
      assert HexText(r) == HexText(r / 16) + [HexDigit(r % 16)];
      if r >= 256 {
        assert HexText(r / 16) == HexText(r / 256) + [HexDigit(r / 16 % 16)];
        if r >= 4096 {
          assert HexText(r / 256) == HexText(r / 4096) + [HexDigit(r / 256 % 16)];
        }
      }
    }
  }

  lemma LeadingZeros(r: nat, k: nat)
    requires r < 0x10000 && |HexText(r)| <= k < 4
    ensures Hex4(r)[4 - k - 1] == '0'
  {
    hide HexText;
    HexTextDigits(r);
  }

  /** One rune of the loop: a surrogate pair beyond U+FFFF, as Python writes it. */
  method EscapeRune(c: char, escapeDel: bool) returns (out: string)
    ensures out == AsciiChar(c, escapeDel)
  {
    if c == DEL && escapeDel {
      out := "\\u007f";
    } else if c as int < 0x80 {
      out := [c];
    } else if c as int > 0xFFFF {
      var r := c as int - 0x10000;
      var hi := PadHex(0xD800 + r / 1024);
      var lo := PadHex(0xDC00 + r % 1024);
      out := "\\u" + hi + "\\u" + lo;
    } else {
      var h := PadHex(c as int);
      out := "\\u" + h;
    }
  }

  method IsPlain(b: string, escapeDel: bool) returns (plain: bool)
    ensures plain <==> Plain(b, escapeDel)
  {
    for k := 0 to |b|
      invariant Plain(b[..k], escapeDel)
    {
      if b[k] as int >= 0x80 || (b[k] == DEL && escapeDel) { return false; }
    }
    assert b[..|b|] == b;
    plain := true;
  }

  lemma AsciiEscapeExtends(s: string, i: nat, escapeDel: bool)
    requires i < |s|
    ensures AsciiEscape(s[..i + 1], escapeDel) == AsciiEscape(s[..i], escapeDel) + AsciiChar(s[i], escapeDel)
  {
    assert s[..i + 1] == s[..i] + [s[i]];
    AsciiEscapeSplits(s[..i], [s[i]], escapeDel);
    assert AsciiEscape([s[i]], escapeDel) == AsciiChar(s[i], escapeDel) + AsciiEscape("", escapeDel);
  }

  /** asciiEscape, rune by rune, with its shortcut for text it would not change. */
  method AsciiEscapeText(b: string, escapeDel: bool) returns (out: string)
    ensures out == AsciiEscape(b, escapeDel)
  {
    var plain := IsPlain(b, escapeDel);
    if plain {
      PlainIsKept(b, escapeDel);
      return b;
    }
    out := "";
    for i := 0 to |b|
      invariant out == AsciiEscape(b[..i], escapeDel)
    {
      AsciiEscapeExtends(b, i, escapeDel);
      var e := EscapeRune(b[i], escapeDel);
      out := out + e;
    }
    assert b[..|b|] == b;
  }

  /******* Go's two steps are the canonical rendering *******/

  lemma DelEscape()
    ensures UnicodeEscape(DEL) == "\\u007f"
  {
    assert Hex4(0x7f) == "007f";
  }

  lemma PlainGoChar(c: char, escapeDel: bool)
    requires c != DEL && (GoChar(c) == [c] ==> c as int < 0x80)
    ensures Plain(GoChar(c), escapeDel)
  {
    hide UnicodeEscape;
    if |GoChar(c)| > 2 { EscapeIsPlain(c); }
  }

  lemma CharBothSteps(c: char, escapeDel: bool)
    ensures AsciiEscape(GoChar(c), escapeDel) == EscChar(c, !escapeDel)
  {
    hide UnicodeEscape, Plain;
    var g := GoChar(c);
    if c == DEL || (g == [c] && c as int >= 0x80) {
      assert g[1..] == "" && AsciiEscape("", escapeDel) == "";
      DelEscape();
    } else {
      PlainGoChar(c, escapeDel);
      PlainIsKept(g, escapeDel);
    }
  }

  lemma EscapeIsPlain(c: char)
    ensures Plain(UnicodeEscape(c), true)
  {
    if c as int < 0x10000 {
      HexIsPlain(c as int);
    } else {
      HexIsPlain(High(c as int));
      HexIsPlain(Low(c as int));
    }
  }

  lemma HexIsPlain(n: nat)
    requires n < 0x10000
    ensures Plain(Hex4(n), true) && '\\' !in Hex4(n)
  {
  }

  lemma {:induction false} StringBothSteps(s: string, escapeDel: bool)
    ensures AsciiEscape(GoString(s), escapeDel) == Esc(s, !escapeDel)
  {
    if s != "" {
      AsciiEscapeSplits(GoChar(s[0]), GoString(s[1..]), escapeDel);
      CharBothSteps(s[0], escapeDel);
      StringBothSteps(s[1..], escapeDel);
    }
  }

  lemma QuotedBothSteps(s: string, escapeDel: bool)
    ensures AsciiEscape("\"" + GoString(s) + "\"", escapeDel) == Quoted(s, !escapeDel)
  {
    AsciiEscapeSplits("\"" + GoString(s), "\"", escapeDel);
    AsciiEscapeSplits("\"", GoString(s), escapeDel);
    StringBothSteps(s, escapeDel);
    PlainIsKept("\"", escapeDel);
  }

  /** Go's canonicalJSON and canonicalJSONRawDEL are `Canon`. */
  lemma {:induction false} GoCanonical(v: Json, escapeDel: bool)
    ensures AsciiEscape(GoEncode(v), escapeDel) == Canon(v, !escapeDel)
    decreases v, 1
  {
    match v
    case Null => PlainIsKept("null", escapeDel);
    case Bool(b) => PlainIsKept(GoEncode(v), escapeDel);
    case Num(t) =>
      NumberChars(t);
      PlainIsKept(t, escapeDel);
    case Str(s) => QuotedBothSteps(s, escapeDel);
    case Arr(NoElems) => PlainIsKept("[]", escapeDel);
    case Obj(NoMembers) => PlainIsKept("{}", escapeDel);
    case Arr(es) =>
      AsciiEscapeSplits("[", GoElems(es), escapeDel);
      PlainIsKept("[", escapeDel);
      GoCanonicalElems(es, escapeDel);
    case Obj(ms) =>
      AsciiEscapeSplits("{", GoMembers(ms), escapeDel);
      PlainIsKept("{", escapeDel);
      GoCanonicalMembers(ms, escapeDel);
  }

  lemma {:induction false} GoCanonicalElems(es: Elems, escapeDel: bool)
    requires es.Elem?
    ensures AsciiEscape(GoElems(es), escapeDel) == CanonElems(es, !escapeDel)
    decreases es, 0
  {
    var tail := if es.tail.NoElems? then "]" else "," + GoElems(es.tail);
    AsciiEscapeSplits(GoEncode(es.head), tail, escapeDel);
    GoCanonical(es.head, escapeDel);
    if es.tail.Elem? {
      AsciiEscapeSplits(",", GoElems(es.tail), escapeDel);
      PlainIsKept(",", escapeDel);
      GoCanonicalElems(es.tail, escapeDel);
    } else {
      PlainIsKept("]", escapeDel);
    }
  }

  lemma {:induction false} GoCanonicalMembers(ms: Members, escapeDel: bool)
    requires ms.Member?
    ensures AsciiEscape(GoMembers(ms), escapeDel) == CanonMembers(ms, !escapeDel)
    decreases ms, 0
  {
    var key := "\"" + GoString(ms.key) + "\"";
    var tail := if ms.rest.NoMembers? then "}" else "," + GoMembers(ms.rest);
    AsciiEscapeSplits(key + ":" + GoEncode(ms.value), tail, escapeDel);
    AsciiEscapeSplits(key + ":", GoEncode(ms.value), escapeDel);
    AsciiEscapeSplits(key, ":", escapeDel);
    QuotedBothSteps(ms.key, escapeDel);
    PlainIsKept(":", escapeDel);
    GoCanonical(ms.value, escapeDel);
    if ms.rest.Member? {
      AsciiEscapeSplits(",", GoMembers(ms.rest), escapeDel);
      PlainIsKept(",", escapeDel);
      GoCanonicalMembers(ms.rest, escapeDel);
    } else {
      PlainIsKept("}", escapeDel);
    }
  }

  /******* Python: the rewrite that puts DEL back *******/

  /** re.sub of `\\\\|\\u007f`, matched left to right: an escaped backslash is
      taken whole, so the text \u007f itself is left alone. */
  function RewriteDel(s: string): string
    decreases |s|
  {
    if s == "" then ""
    else if "\\\\" <= s then "\\\\" + RewriteDel(s[2..])
    else if "\\u007f" <= s then [DEL] + RewriteDel(s[6..])
    else [s[0]] + RewriteDel(s[1..])
  }

  /** Text without a backslash is copied. */
  lemma {:induction false} RewriteCopies(s: string, rest: string)
    requires '\\' !in s
    ensures RewriteDel(s + rest) == s + RewriteDel(rest)
  {
    if s == "" {
      assert s + rest == rest;
    } else {
      assert s[0] in s && (s + rest)[0] == s[0] && (s + rest)[1..] == s[1..] + rest;
      assert s == [s[0]] + s[1..];
      RewriteCopies(s[1..], rest);
      Assoc([s[0]], s[1..], RewriteDel(rest));
    }
  }

  lemma RewriteEscape(x: char, s: string, rest: string)
    requires x != '\\' && '\\' !in s && (x == 'u' ==> |s| >= 4 && s[..4] != "007f")
    ensures RewriteDel(['\\'] + (([x] + s) + rest)) == ['\\'] + (([x] + s) + RewriteDel(rest))
  {
    var t := ['\\'] + (([x] + s) + rest);
    assert x == 'u' ==> t[2..6] == s[..4];
    assert t[0] == '\\' && t[1] == x;
    Behind('\\', ([x] + s) + rest);
    RewriteCopies([x] + s, rest);
  }

  lemma RewriteUnit(h: string, rest: string)
    requires |h| == 4 && '\\' !in h && h != "007f"
    ensures RewriteDel(("\\u" + h) + rest) == ("\\u" + h) + RewriteDel(rest)
  {
    RewriteEscape('u', h, rest);
    assert h[..4] == h;
    assert ("\\u" + h) + rest == ['\\'] + ((['u'] + h) + rest);
    assert ("\\u" + h) + RewriteDel(rest) == ['\\'] + ((['u'] + h) + RewriteDel(rest));
  }

  lemma RewriteUnicode(c: char, rest: string)
    requires c != DEL
    ensures RewriteDel(UnicodeEscape(c) + rest) == UnicodeEscape(c) + RewriteDel(rest)
  {
    if c as int < 0x10000 {
      var h := Unit(c);
      HexNot007f(h, c as int);
      HexOf(c, h);
      RewriteUnit(h, rest);
    } else {
      var h, l := Units(c);
      HexNot007f(h, High(c as int));
      HexNot007f(l, Low(c as int));
      HexOfPair(c, h, l);
      RewriteTwoUnits(h, l, rest);
    }
  }

  lemma RewriteTwoUnits(h: string, l: string, rest: string)
    requires |h| == 4 && '\\' !in h && h != "007f"
    requires |l| == 4 && '\\' !in l && l != "007f"
    ensures var e := "\\u" + h + "\\u" + l; RewriteDel(e + rest) == e + RewriteDel(rest)
  {
    var a, b := "\\u" + h, "\\u" + l;
    assert "\\u" + h + "\\u" + l == a + b;
    RewriteUnit(h, b + rest);
    RewriteUnit(l, rest);
    Assoc(a, b, rest);
    Assoc(a, b, RewriteDel(rest));
  }

  lemma HexNot007f(h: string, n: nat)
    requires Encodes(h, n) && n != 0x7f
    ensures h != "007f"
  {
  }

  lemma HexOf(c: char, h: string)
    requires c as int < 0x10000 && UnicodeEscape(c) == "\\u" + h
    ensures '\\' !in h
  {
    HexIsPlain(c as int);
    assert h == UnicodeEscape(c)[2..];
  }

  lemma HexOfPair(c: char, h: string, l: string)
    requires c as int >= 0x10000 && |h| == 4 && |l| == 4 && UnicodeEscape(c) == "\\u" + h + "\\u" + l
    ensures '\\' !in h && '\\' !in l
  {
    HexIsPlain(High(c as int));
    HexIsPlain(Low(c as int));
    assert h == UnicodeEscape(c)[2..6] && l == UnicodeEscape(c)[8..12];
  }

  lemma RewriteShort(e: string, rest: string)
    requires |e| == 2 && e[0] == '\\' && e[1] != 'u'
    ensures RewriteDel(e + rest) == e + RewriteDel(rest)
  {
    if e[1] == '\\' {
      assert (e + rest)[2..] == rest && "\\\\" <= e + rest && e == "\\\\";
    } else {
      RewriteEscape(e[1], "", rest);
      assert e + rest == ['\\'] + (([e[1]] + "") + rest);
      assert e + RewriteDel(rest) == ['\\'] + (([e[1]] + "") + RewriteDel(rest));
    }
  }

  lemma RewriteDelEscape(rest: string)
    ensures RewriteDel("\\u007f" + rest) == [DEL] + RewriteDel(rest)
  {
    var s := "\\u007f" + rest;
    assert s[6..] == rest && s[1] == 'u' && "\\u007f" <= s;
  }

  /** The forms an escaped character can have; only DEL has two. */
  predicate Shape(c: char, e: string, raw: string)
  {
    if c == DEL then e == "\\u007f" && raw == [DEL]
    else
      && raw == e
      && (e == UnicodeEscape(c) || (|e| == 2 && e[0] == '\\' && e[1] != 'u') || (e == [c] && c != '\\'))
  }

  lemma EscCharShape(c: char)
    ensures Shape(c, EscChar(c, false), EscChar(c, true))
  {
    hide UnicodeEscape;
    DelEscape();
  }

  lemma RewriteShape(c: char, e: string, raw: string, rest: string)
    requires Shape(c, e, raw)
    ensures RewriteDel(e + rest) == raw + RewriteDel(rest)
  {
    if c == DEL {
      RewriteDelEscape(rest);
    } else if e == UnicodeEscape(c) {
      RewriteUnicode(c, rest);
    } else if |e| == 2 {
      RewriteShort(e, rest);
    } else {
      RewriteCopies(e, rest);
    }
  }

  lemma RewriteChar(c: char, rest: string)
    ensures RewriteDel(EscChar(c, false) + rest) == EscChar(c, true) + RewriteDel(rest)
  {
    EscCharShape(c);
    RewriteShape(c, EscChar(c, false), EscChar(c, true), rest);
  }

  lemma {:induction false} RewriteString(s: string, rest: string)
    ensures RewriteDel(Esc(s, false) + rest) == Esc(s, true) + RewriteDel(rest)
  {
    if s == "" {
      assert Esc(s, false) + rest == rest;
    } else {
      Assoc(EscChar(s[0], false), Esc(s[1..], false), rest);
      RewriteChar(s[0], Esc(s[1..], false) + rest);
      RewriteString(s[1..], rest);
      Assoc(EscChar(s[0], true), Esc(s[1..], true), RewriteDel(rest));
    }
  }

  lemma RewriteQuoted(s: string, rest: string)
    ensures RewriteDel(Quoted(s, false) + rest) == Quoted(s, true) + RewriteDel(rest)
  {
    var q := "\"";
    QuotedParts(s, false, rest);
    RewriteCopies(q, Esc(s, false) + (q + rest));
    RewriteString(s, q + rest);
    RewriteCopies(q, rest);
    QuotedParts(s, true, RewriteDel(rest));
  }

  lemma QuotedParts(s: string, rawDel: bool, rest: string)
    ensures Quoted(s, rawDel) + rest == "\"" + (Esc(s, rawDel) + ("\"" + rest))
  {
    Assoc("\"" + Esc(s, rawDel), "\"", rest);
    Assoc("\"", Esc(s, rawDel), "\"" + rest);
  }

  /** Python's rewrite of its escaped text is the rendering with DEL raw. */
  lemma {:induction false} RewriteCanon(v: Json, rest: string)
    ensures RewriteDel(Canon(v, false) + rest) == Canon(v, true) + RewriteDel(rest)
    decreases v, 1
  {
    match v
    case Null => RewriteCopies("null", rest);
    case Bool(b) => RewriteCopies(Canon(v, false), rest);
    case Num(t) =>
      NumberChars(t);
      RewriteCopies(t, rest);
    case Str(s) => RewriteQuoted(s, rest);
    case Arr(NoElems) => RewriteCopies("[]", rest);
    case Obj(NoMembers) => RewriteCopies("{}", rest);
    case Arr(es) =>
      Assoc("[", CanonElems(es, false), rest);
      RewriteCopies("[", CanonElems(es, false) + rest);
      RewriteElems(es, rest);
      Assoc("[", CanonElems(es, true), RewriteDel(rest));
    case Obj(ms) =>
      Assoc("{", CanonMembers(ms, false), rest);
      RewriteCopies("{", CanonMembers(ms, false) + rest);
      RewriteMembers(ms, rest);
      Assoc("{", CanonMembers(ms, true), RewriteDel(rest));
  }

  lemma {:induction false} RewriteElems(es: Elems, rest: string)
    requires es.Elem?
    ensures RewriteDel(CanonElems(es, false) + rest) == CanonElems(es, true) + RewriteDel(rest)
    decreases es, 0
  {
    var tail, tail' := CanonElemsTail(es, false), CanonElemsTail(es, true);
    Assoc(Canon(es.head, false), tail, rest);
    RewriteCanon(es.head, tail + rest);
    if es.tail.Elem? {
      Assoc(",", CanonElems(es.tail, false), rest);
      RewriteCopies(",", CanonElems(es.tail, false) + rest);
      RewriteElems(es.tail, rest);
      Assoc(",", CanonElems(es.tail, true), RewriteDel(rest));
    } else {
      RewriteCopies("]", rest);
    }
    Assoc(Canon(es.head, true), tail', RewriteDel(rest));
  }

  function CanonElemsTail(es: Elems, rawDel: bool): string
    requires es.Elem?
  {
    if es.tail.NoElems? then "]" else "," + CanonElems(es.tail, rawDel)
  }

  function CanonMembersTail(ms: Members, rawDel: bool): string
    requires ms.Member?
  {
    if ms.rest.NoMembers? then "}" else "," + CanonMembers(ms.rest, rawDel)
  }

  lemma {:induction false} RewriteMembers(ms: Members, rest: string)
    requires ms.Member?
    ensures RewriteDel(CanonMembers(ms, false) + rest) == CanonMembers(ms, true) + RewriteDel(rest)
    decreases ms, 0
  {
    var tail, tail' := CanonMembersTail(ms, false), CanonMembersTail(ms, true);
    MembersParts(ms, false, rest);
    RewriteQuoted(ms.key, ":" + (Canon(ms.value, false) + (tail + rest)));
    RewriteCopies(":", Canon(ms.value, false) + (tail + rest));
    RewriteCanon(ms.value, tail + rest);
    if ms.rest.Member? {
      Assoc(",", CanonMembers(ms.rest, false), rest);
      RewriteCopies(",", CanonMembers(ms.rest, false) + rest);
      RewriteMembers(ms.rest, rest);
      Assoc(",", CanonMembers(ms.rest, true), RewriteDel(rest));
    } else {
      RewriteCopies("}", rest);
    }
    MembersParts(ms, true, RewriteDel(rest));
  }

  lemma MembersParts(ms: Members, rawDel: bool, rest: string)
    requires ms.Member?
    ensures CanonMembers(ms, rawDel) + rest ==
      Quoted(ms.key, rawDel) + (":" + (Canon(ms.value, rawDel) + (CanonMembersTail(ms, rawDel) + rest)))
  {
    var q, v, t := Quoted(ms.key, rawDel), Canon(ms.value, rawDel), CanonMembersTail(ms, rawDel);
    Assoc(q + ":" + v, t, rest);
    Assoc(q + ":", v, t + rest);
    Assoc(q, ":", v + (t + rest));
  }

  /** Python's and Go's fallback encodings are the same bytes. */
  lemma FallbacksAgree(v: Json)
    ensures RewriteDel(Canon(v, false)) == Canon(v, true) == AsciiEscape(GoEncode(v), false)
  {
    RewriteCanon(v, "");
    GoCanonical(v, false);
    assert Canon(v, false) + "" == Canon(v, false) && Canon(v, true) + "" == Canon(v, true);
  }

  /******* When DEL makes a difference *******/

  predicate HasDel(v: Json) { DEL in GoEncode(v) }

  lemma {:induction false} EscapedHasNoDel(s: string)
    ensures DEL !in AsciiEscape(s, true)
  {
    if s != "" {
      if s[0] as int >= 0x80 { EscapeIsPlain(s[0]); }
      assert DEL !in AsciiChar(s[0], true);
      EscapedHasNoDel(s[1..]);
    }
  }

  lemma {:induction false} RawKeepsDel(s: string)
    ensures DEL in AsciiEscape(s, false) <==> DEL in s
    ensures DEL !in s ==> AsciiEscape(s, false) == AsciiEscape(s, true)
  {
    if s != "" {
      if s[0] as int >= 0x80 { EscapeIsPlain(s[0]); }
      assert DEL in AsciiChar(s[0], false) <==> s[0] == DEL;
      RawKeepsDel(s[1..]);
      assert s == [s[0]] + s[1..];
    }
  }

  /** The two encodings of a value are the same exactly when no string in it
      holds DEL. */
  lemma EncodingsCoincide(v: Json)
    ensures Canon(v, true) == Canon(v, false) <==> !HasDel(v)
  {
    GoCanonical(v, true);
    GoCanonical(v, false);
    EscapedHasNoDel(GoEncode(v));
    RawKeepsDel(GoEncode(v));
  }
}
