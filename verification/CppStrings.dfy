/** The C++ SDK's JSON strings, byte by byte: a character here is one byte. */
module CppStrings {
  import opened Text
  import opened Json

  /******* UTF-8 *******/

  predicate Between(c: char, lo: nat, hi: nat) { lo <= c as int <= hi }

  predicate Continues(s: string, i: nat, lo: nat, hi: nat) { i < |s| && Between(s[i], lo, hi) }

  /** utf8_seq_len_ at the start of `s`: the length of the valid multi-byte
      sequence there, or 0 (section 4 of RFC 3629). */
  function SeqLen(s: string): (n: nat)
    ensures n <= |s| && n != 1
  {
    if s == "" then 0
    else
      var c := s[0] as int;
      var n :=
        if 0xC2 <= c <= 0xDF then 2 else if 0xE0 <= c <= 0xEF then 3 else if 0xF0 <= c <= 0xF4 then 4 else 0;
      var lo := if c == 0xE0 then 0xA0 else if c == 0xF0 then 0x90 else 0x80;
      var hi := if c == 0xED then 0x9F else if c == 0xF4 then 0x8F else 0xBF;
      if n > 0 && Continues(s, 1, lo, hi) && (n > 2 ==> Continues(s, 2, 0x80, 0xBF)) && (n > 3 ==> Continues(s, 3, 0x80, 0xBF))
      then n else 0
  }

  predicate IsAscii(c: char) { c as int < 0x80 }

  predicate ValidUtf8(s: string)
    decreases |s|
  {
    s != "" ==>
      if IsAscii(s[0]) then ValidUtf8(s[1..]) else SeqLen(s) > 0 && ValidUtf8(s[SeqLen(s)..])
  }

  function Byte(n: nat): char
    requires n < 256
  {
    n as char
  }

  /** U+FFFD. */
  function Replacement(): string { [Byte(0xEF), Byte(0xBF), Byte(0xBD)] }

  /** Each byte that is not part of valid UTF-8 replaced. */
  function Repaired(s: string): string
    decreases |s|
  {
    if s == "" then ""
    else if IsAscii(s[0]) then [s[0]] + Repaired(s[1..])
    else if SeqLen(s) == 0 then Replacement() + Repaired(s[1..])
    else s[..SeqLen(s)] + Repaired(s[SeqLen(s)..])
  }

  lemma {:induction false} ValidUnchanged(s: string)
    requires ValidUtf8(s)
    ensures Repaired(s) == s
    decreases |s|
  {
    if s != "" {
      var n := if IsAscii(s[0]) then 1 else SeqLen(s);
      ValidUnchanged(s[n..]);
      assert s == s[..n] + s[n..];
    }
  }

  /******* Writing *******/

  function EscapeByte(c: char): (s: string)
    ensures s != ""
  {
    if c == '"' then "\\\""
    else if c == '\\' then "\\\\"
    else if c as int == 10 then "\\n"
    else if c as int == 13 then "\\r"
    else if c as int == 9 then "\\t"
    else if c as int == 8 then "\\b"
    else if c as int == 12 then "\\f"
    else if c as int < 0x20 then "\\u" + Hex4(c as int)
    else [c]
  }

  function Enc(s: string): string
    decreases |s|
  {
    if s == "" then ""
    else if IsAscii(s[0]) then EscapeByte(s[0]) + Enc(s[1..])
    else if SeqLen(s) == 0 then Replacement() + Enc(s[1..])
    else s[..SeqLen(s)] + Enc(s[SeqLen(s)..])
  }

  function JsonStr(s: string): string { "\"" + Enc(s) + "\"" }

  /** json_str. */
  method WriteJsonStr(s: string) returns (out: string)
    ensures out == JsonStr(s)
  {
    hide SeqLen, EscapeByte;
    out := "\"";
    var i := 0;
    assert s[0..] == s;
    while i < |s|
      invariant 0 <= i <= |s| && out + Enc(s[i..]) == "\"" + Enc(s)
      decreases |s| - i
    {
      var t := s[i..];
      var piece, n;
      if !IsAscii(s[i]) {
        n := SeqLen(t);
        if n == 0 {
          piece, n := Replacement(), 1;
        } else {
          piece := s[i..i + n];
          assert piece == t[..n];
        }
      } else {
        piece, n := EscapeByte(s[i]), 1;
      }
      assert t[n..] == s[i + n..];
      assert Enc(t) == piece + Enc(t[n..]);
      Assoc(out, piece, Enc(t[n..]));
      out := out + piece;
      i := i + n;
    }
    assert s[|s|..] == "" && out + "" == out;
    out := out + "\"";
  }

  /******* Reading *******/

  /** The UTF-8 bytes of a code point, surrogates included. */
  function Utf8(n: nat): string
    requires n < 0x11_0000
  {
    if n < 0x80 then [Byte(n)]
    else if n < 0x800 then [Byte(0xC0 + n / 64), Byte(0x80 + n % 64)]
    else if n < 0x10000 then [Byte(0xE0 + n / 4096), Byte(0x80 + n / 64 % 64), Byte(0x80 + n % 64)]
    else [Byte(0xF0 + n / 262144), Byte(0x80 + n / 4096 % 64), Byte(0x80 + n / 64 % 64), Byte(0x80 + n % 64)]
  }

  predicate LowFollows(t: string)
  {
    |t| > 10 && t[5] == '\\' && t[6] == 'u' && IsHexAt(t, 7) && 0xDC00 <= HexAt(t, 7) < 0xE000
  }

  /** json_unescape_ after the backslash: what the escape stands for, and how
      many characters it takes. */
  function Unescaped(t: string): (r: (string, nat))
    requires t != ""
    ensures 1 <= r.1 <= |t|
  {
    if t[0] == 'n' then ("\n", 1)
    else if t[0] == 'r' then ("\r", 1)
    else if t[0] == 't' then ("\t", 1)
    else if t[0] == 'b' then ([Byte(8)], 1)
    else if t[0] == 'f' then ([Byte(12)], 1)
    else if t[0] != 'u' then ([t[0]], 1)
    else if !IsHexAt(t, 1) then ("u", 1)
    else
      var n := HexAt(t, 1);
      if 0xD800 <= n < 0xDC00 && LowFollows(t) then (Utf8(0x10000 + (n - 0xD800) * 1024 + (HexAt(t, 7) - 0xDC00)), 11)
      else (Utf8(n), 5)
  }

  /** read_json_str: the text up to the closing quote, and what is left from the
      quote on. */
  function ReadStr(t: string, sofar: string): (r: (string, string))
    ensures |r.1| <= |t|
    decreases |t|
  {
    if t == "" || t[0] == '"' then (sofar, t)
    else if t[0] == '\\' && |t| > 1 then
      var (text, n) := Unescaped(t[1..]);
      ReadStr(t[1..][n..], sofar + text)
    else ReadStr(t[1..], sofar + [t[0]])
  }

  method ReadHex4(j: string, at: nat) returns (ok: bool, cp: nat)
    ensures ok <==> IsHexAt(j, at)
    ensures ok ==> cp == HexAt(j, at)
  {
    cp := 0;
    if at + 4 > |j| {
      return false, 0;
    }
    var a, b, c, d := HexValue(j[at]), HexValue(j[at + 1]), HexValue(j[at + 2]), HexValue(j[at + 3]);
    ok := a < 16 && b < 16 && c < 16 && d < 16;
    if ok {
      cp := ((a * 16 + b) * 16 + c) * 16 + d;
    }
  }

  /** The escapes of one character after the backslash. */
  function ShortValue(c: char): string
  {
    if c == 'n' then "\n" else if c == 'r' then "\r" else if c == 't' then "\t"
    else if c == 'b' then [Byte(8)] else if c == 'f' then [Byte(12)] else [c]
  }

  lemma ShortUnescaped(t: string)
    requires t != "" && (t[0] != 'u' || !IsHexAt(t, 1))
    ensures Unescaped(t) == (ShortValue(t[0]), 1)
  {
  }

  lemma LongUnescaped(t: string)
    requires t != "" && t[0] == 'u' && IsHexAt(t, 1)
    ensures var n := HexAt(t, 1);
      Unescaped(t) ==
        if 0xD800 <= n < 0xDC00 && LowFollows(t) then (Utf8(0x10000 + (n - 0xD800) * 1024 + (HexAt(t, 7) - 0xDC00)), 11)
        else (Utf8(n), 5)
  {
  }

  /** json_unescape_: `pos` is behind the backslash, and is left on the escape's
      last character. */
  method Unescape(j: string, pos: nat) returns (text: string, last: nat)
    requires pos < |j|
    ensures last < |j| && (text, last + 1 - pos) == Unescaped(j[pos..])
  {
    hide Unescaped, Utf8, IsHexAt, HexAt, ShortValue;
    ghost var t := j[pos..];
    last := pos;
    HexShift(j, pos, 1);
    HexInside(t, 1);
    if j[pos] != 'u' {
      ShortUnescaped(t);
      return ShortValue(j[pos]), last;
    }
    var ok, cp := ReadHex4(j, pos + 1);
    if !ok {
      ShortUnescaped(t);
      return ShortValue('u'), last;
    }
    LongUnescaped(t);
    last := last + 4;
    if 0xD800 <= cp < 0xDC00 && last + 6 < |j| && j[last + 1] == '\\' && j[last + 2] == 'u' {
      var isHex, lo := ReadHex4(j, last + 3);
      HexShift(j, pos, 7);
      if isHex && 0xDC00 <= lo < 0xE000 {
        return Utf8(0x10000 + (cp - 0xD800) * 1024 + (lo - 0xDC00)), last + 6;
      }
    }
    text := Utf8(cp);
  }

  lemma HexInside(t: string, at: nat)
    ensures IsHexAt(t, at) ==> at + 4 <= |t|
  {
  }

  lemma HexShift(j: string, pos: nat, at: nat)
    requires pos <= |j|
    ensures IsHexAt(j, pos + at) == IsHexAt(j[pos..], at)
    ensures IsHexAt(j, pos + at) ==> HexAt(j, pos + at) == HexAt(j[pos..], at)
  {
  }

  lemma ReadStops(t: string, sofar: string)
    requires t == "" || t[0] == '"'
    ensures ReadStr(t, sofar) == (sofar, t)
  {
  }

  lemma ReadPlain(t: string, sofar: string)
    requires t != "" && t[0] != '"' && (t[0] != '\\' || |t| == 1)
    ensures ReadStr(t, sofar) == ReadStr(t[1..], sofar + [t[0]])
  {
  }

  lemma ReadEscape(t: string, sofar: string)
    requires |t| > 1 && t[0] == '\\'
    ensures ReadStr(t, sofar) == ReadStr(t[1..][Unescaped(t[1..]).1..], sofar + Unescaped(t[1..]).0)
  {
  }

  /** read_json_str, leaving `i` on the closing quote or at the end. */
  method ReadJsonStr(j: string, start: nat) returns (val: string, i: nat)
    requires start <= |j|
    ensures i <= |j| && (val, j[i..]) == ReadStr(j[start..], "")
  {
    hide Unescaped, ReadStr;
    val := "";
    i := start;
    while i < |j| && j[i] != '"'
      invariant start <= i <= |j| && ReadStr(j[i..], val) == ReadStr(j[start..], "")
      decreases |j| - i
    {
      ghost var t := j[i..];
      assert t[1..] == j[i + 1..];
      if j[i] == '\\' && i + 1 < |j| {
        ReadEscape(t, val);
        var text, last := Unescape(j, i + 1);
        assert t[1..][last - i..] == j[last + 1..];
        val := val + text;
        i := last + 1;
      } else {
        ReadPlain(t, val);
        val := val + [j[i]];
        i := i + 1;
      }
    }
    ReadStops(j[i..], val);
  }

  /******* Reading back *******/

  predicate Copied(b: string) { forall i | 0 <= i < |b| :: b[i] != '"' && b[i] != '\\' }

  lemma {:induction false} ReadCopies(b: string, t: string, sofar: string)
    requires Copied(b)
    ensures ReadStr(b + t, sofar) == ReadStr(t, sofar + b)
  {
    hide ReadStr;
    if b == "" {
      assert b + t == t && sofar + b == sofar;
    } else {
      ReadPlain(b + t, sofar);
      assert (b + t)[1..] == b[1..] + t;
      ReadCopies(b[1..], t, sofar + [b[0]]);
      assert sofar + [b[0]] + b[1..] == sofar + b;
    }
  }

  lemma ByteEscapeReads(c: char, t: string, sofar: string)
    requires IsAscii(c) && |EscapeByte(c)| > 1
    ensures ReadStr(EscapeByte(c) + t, sofar) == ReadStr(t, sofar + [c])
  {
    hide ReadStr;
    var e := EscapeByte(c);
    var s := e + t;
    ReadEscape(s, sofar);
    assert s[1..] == e[1..] + t;
    if |e| == 2 {
      assert s[1..][1..] == t && s[1..][0] == e[1];
    } else {
      HexReads(c as int, t);
      assert e[1..] == "u" + Hex4(c as int);
      assert s[1..] == "u" + Hex4(c as int) + t;
    }
  }

  lemma HexReads(n: nat, t: string)
    requires n < 0x80
    ensures var s := "u" + Hex4(n) + t; Unescaped(s) == ([Byte(n)], 5) && s[5..] == t
  {
    var s := "u" + Hex4(n) + t;
    Hex4Encodes(n);
    assert IsHexAt(s, 1) && HexAt(s, 1) == n;
    LongUnescaped(s);
  }

  lemma {:induction false} SeqCopied(s: string)
    requires s != "" && !IsAscii(s[0]) && SeqLen(s) > 0
    ensures Copied(s[..SeqLen(s)])
  {
  }

  /** Reading undoes writing, up to the repair of invalid bytes, and stops on
      the closing quote. */
  lemma {:induction false} EncReads(s: string, rest: string, sofar: string)
    ensures ReadStr(Enc(s) + ("\"" + rest), sofar) == (sofar + Repaired(s), "\"" + rest)
    decreases |s|
  {
    hide ReadStr, EscapeByte, SeqLen;
    var after := "\"" + rest;
    if s == "" {
      assert "" + after == after && sofar + "" == sofar;
      ReadStops(after, sofar);
      return;
    }
    var n := if IsAscii(s[0]) || SeqLen(s) == 0 then 1 else SeqLen(s);
    var piece := if IsAscii(s[0]) then EscapeByte(s[0]) else if SeqLen(s) == 0 then Replacement() else s[..n];
    var text := if IsAscii(s[0]) then [s[0]] else piece;
    Assoc(piece, Enc(s[n..]), after);
    if IsAscii(s[0]) {
      AsciiReads(s[0], Enc(s[n..]) + after, sofar);
    } else {
      if SeqLen(s) > 0 { SeqCopied(s); }
      ReadCopies(piece, Enc(s[n..]) + after, sofar);
    }
    EncReads(s[n..], rest, sofar + text);
    Assoc(sofar, text, Repaired(s[n..]));
  }

  lemma AsciiReads(c: char, t: string, sofar: string)
    requires IsAscii(c)
    ensures ReadStr(EscapeByte(c) + t, sofar) == ReadStr(t, sofar + [c])
  {
    hide ReadStr;
    if |EscapeByte(c)| > 1 {
      ByteEscapeReads(c, t, sofar);
    } else {
      assert EscapeByte(c) == [c];
      ReadCopies([c], t, sofar);
    }
  }

  /** read_json_str inverts json_str on every valid text. */
  lemma JsonStrRoundTrip(s: string, rest: string)
    requires ValidUtf8(s)
    ensures ReadStr(Enc(s) + ("\"" + rest), "") == (s, "\"" + rest)
  {
    hide ReadStr;
    EncReads(s, rest, "");
    ValidUnchanged(s);
    assert "" + s == s;
  }

  lemma SeqLenKept(s: string, t: string)
    requires SeqLen(s) > 0
    ensures SeqLen(s[..SeqLen(s)] + t) == SeqLen(s)
  {
  }

  lemma ReplacementIsSeq(t: string)
    ensures SeqLen(Replacement() + t) == 3 && !IsAscii((Replacement() + t)[0])
  {
  }

  /** Whatever bytes went in, valid UTF-8 comes out. */
  lemma {:induction false} RepairedValid(s: string)
    ensures ValidUtf8(Repaired(s))
    decreases |s|
  {
    hide SeqLen;
    if s == "" {
    } else if IsAscii(s[0]) {
      RepairedValid(s[1..]);
      assert ([s[0]] + Repaired(s[1..]))[1..] == Repaired(s[1..]);
    } else {
      var n := SeqLen(s);
      var piece := if n == 0 then Replacement() else s[..n];
      var rest := Repaired(s[if n == 0 then 1 else n..]);
      RepairedValid(s[if n == 0 then 1 else n..]);
      ReplacementIsSeq(rest);
      if n > 0 { SeqLenKept(s, rest); }
      assert (piece + rest)[|piece|..] == rest && (piece + rest)[0] == piece[0];
    }
  }

  /** Exactly the valid texts survive a round trip; others are repaired. */
  lemma RoundTripExact(s: string, rest: string)
    ensures ReadStr(Enc(s) + ("\"" + rest), "").0 == s <==> ValidUtf8(s)
  {
    hide ReadStr, Repaired;
    EncReads(s, rest, "");
    RepairedValid(s);
    if ValidUtf8(s) { ValidUnchanged(s); }
    assert "" + Repaired(s) == Repaired(s);
  }

  /******* Valid UTF-8 is text *******/

  predicate Scalar(n: nat) { n < 0xD800 || 0xDFFF < n < 0x11_0000 }

  lemma SeqLenTwo(n: nat, rest: string)
    requires 0x80 <= n < 0x800
    ensures SeqLen([Byte(0xC0 + n / 64), Byte(0x80 + n % 64)] + rest) == 2
  {
  }

  lemma SeqLenThree(n: nat, rest: string)
    requires Scalar(n) && 0x800 <= n < 0x10000
    ensures SeqLen([Byte(0xE0 + n / 4096), Byte(0x80 + n / 64 % 64), Byte(0x80 + n % 64)] + rest) == 3
  {
    assert n / 4096 == 0 ==> n / 64 % 64 >= 0x20;
    assert n / 4096 == 0xD ==> n / 64 % 64 < 0x20;
  }

  lemma SeqLenFour(n: nat, rest: string)
    requires 0x10000 <= n < 0x11_0000
    ensures SeqLen([Byte(0xF0 + n / 262144), Byte(0x80 + n / 4096 % 64), Byte(0x80 + n / 64 % 64), Byte(0x80 + n % 64)] + rest) == 4
  {
    assert n / 262144 == 0 ==> n / 4096 % 64 >= 0x10;
    assert n / 262144 == 4 ==> n / 4096 % 64 < 0x10;
  }

  lemma SeqLenReads(n: nat, rest: string)
    requires Scalar(n) && n >= 0x80
    ensures SeqLen(Utf8(n) + rest) == |Utf8(n)|
  {
    hide SeqLen;
    if n < 0x800 { SeqLenTwo(n, rest); } else if n < 0x10000 { SeqLenThree(n, rest); } else { SeqLenFour(n, rest); }
  }

  lemma TwoBytes(c: nat, d: nat)
    requires 0xC2 <= c <= 0xDF && 0x80 <= d <= 0xBF
    ensures var n := (c - 0xC0) * 64 + (d - 0x80); Scalar(n) && n >= 0x80 && Utf8(n) == [Byte(c), Byte(d)]
  {
  }

  lemma ThreeBytes(c: nat, d: nat, e: nat)
    requires 0xE0 <= c <= 0xEF && 0x80 <= d <= 0xBF && 0x80 <= e <= 0xBF && (c == 0xE0 ==> d >= 0xA0) && (c == 0xED ==> d <= 0x9F)
    ensures var n := (c - 0xE0) * 4096 + (d - 0x80) * 64 + (e - 0x80);
      Scalar(n) && n >= 0x80 && Utf8(n) == [Byte(c), Byte(d), Byte(e)]
  {
    var n := (c - 0xE0) * 4096 + (d - 0x80) * 64 + (e - 0x80);
    assert n / 64 == (c - 0xE0) * 64 + (d - 0x80);
    assert n / 4096 == c - 0xE0;
  }

  lemma FourBytes(c: nat, d: nat, e: nat, f: nat)
    requires 0xF0 <= c <= 0xF4 && 0x80 <= d <= 0xBF && 0x80 <= e <= 0xBF && 0x80 <= f <= 0xBF
    requires (c == 0xF0 ==> d >= 0x90) && (c == 0xF4 ==> d <= 0x8F)
    ensures var n := (c - 0xF0) * 262144 + (d - 0x80) * 4096 + (e - 0x80) * 64 + (f - 0x80);
      Scalar(n) && n >= 0x80 && Utf8(n) == [Byte(c), Byte(d), Byte(e), Byte(f)]
  {
    var n := (c - 0xF0) * 262144 + (d - 0x80) * 4096 + (e - 0x80) * 64 + (f - 0x80);
    assert n / 64 == (c - 0xF0) * 4096 + (d - 0x80) * 64 + (e - 0x80);
    assert n / 4096 == (c - 0xF0) * 64 + (d - 0x80);
    assert n / 262144 == c - 0xF0;
  }

  lemma SeqLenIs(s: string) returns (n: nat)
    requires SeqLen(s) > 0
    ensures Scalar(n) && n >= 0x80 && s[..SeqLen(s)] == Utf8(n)
  {
    hide Utf8;
    var c, d := s[0] as int, s[1] as int;
    if SeqLen(s) == 2 {
      n := (c - 0xC0) * 64 + (d - 0x80);
      TwoBytes(c, d);
    } else {
      var e := s[2] as int;
      if SeqLen(s) == 3 {
        n := (c - 0xE0) * 4096 + (d - 0x80) * 64 + (e - 0x80);
        ThreeBytes(c, d, e);
      } else {
        var f := s[3] as int;
        n := (c - 0xF0) * 262144 + (d - 0x80) * 4096 + (e - 0x80) * 64 + (f - 0x80);
        FourBytes(c, d, e, f);
      }
    }
  }

  /** A sequence is found exactly where the encoding of a character stands, and
      with its length (section 4 of RFC 3629). */
  lemma SeqLenExact(s: string, len: nat)
    requires len > 0
    ensures SeqLen(s) == len <==> exists n :: Scalar(n) && n >= 0x80 && |Utf8(n)| == len && Utf8(n) <= s
  {
    hide SeqLen, Utf8;
    if SeqLen(s) == len {
      var n := SeqLenIs(s);
      assert s[..len] <= s;
    }
    if n: nat :| Scalar(n) && n >= 0x80 && |Utf8(n)| == len && Utf8(n) <= s {
      assert s == Utf8(n) + s[len..];
      SeqLenReads(n, s[len..]);
    }
  }

  function Encoded(cs: seq<nat>): string
    requires forall c | c in cs :: Scalar(c)
  {
    if cs == [] then ""
    else
      assert cs[0] in cs && Scalar(cs[0]);
      Utf8(cs[0]) + Encoded(cs[1..])
  }

  lemma FirstByte(c: nat)
    requires Scalar(c)
    ensures Utf8(c) != "" && (IsAscii(Utf8(c)[0]) <==> c < 0x80) && (c < 0x80 ==> |Utf8(c)| == 1)
  {
  }

  lemma {:induction false} EncodedValid(cs: seq<nat>)
    requires forall c | c in cs :: Scalar(c)
    ensures ValidUtf8(Encoded(cs))
  {
    hide SeqLen, Utf8;
    if cs != [] {
      var c, rest := cs[0], Encoded(cs[1..]);
      assert c in cs;
      EncodedValid(cs[1..]);
      var s := Utf8(c) + rest;
      FirstByte(c);
      assert s[|Utf8(c)|..] == rest && s[0] == Utf8(c)[0];
      if c >= 0x80 { SeqLenReads(c, rest); }
    }
  }

  lemma {:induction false} ValidEncodes(s: string) returns (cs: seq<nat>)
    requires ValidUtf8(s)
    ensures (forall c | c in cs :: Scalar(c)) && Encoded(cs) == s
    decreases |s|
  {
    hide SeqLen, Utf8;
    if s == "" {
      cs := [];
    } else {
      var n := if IsAscii(s[0]) then 1 else SeqLen(s);
      var tail := ValidEncodes(s[n..]);
      var c;
      if IsAscii(s[0]) {
        c := s[0] as int;
        AsciiUtf8(s[0]);
        assert s[..1] == [s[0]];
      } else {
        c := SeqLenIs(s);
      }
      cs := [c] + tail;
      assert s == s[..n] + s[n..] && cs[1..] == tail;
    }
  }

  lemma AsciiUtf8(c: char)
    requires IsAscii(c)
    ensures Utf8(c as int) == [c]
  {
  }

  /** The valid strings are the encodings of sequences of characters. */
  lemma ValidIsEncoded(s: string)
    ensures ValidUtf8(s) <==> exists cs: seq<nat> :: (forall c | c in cs :: Scalar(c)) && Encoded(cs) == s
  {
    hide ValidUtf8, Encoded;
    if ValidUtf8(s) { var cs := ValidEncodes(s); }
    if cs: seq<nat> :| (forall c | c in cs :: Scalar(c)) && Encoded(cs) == s { EncodedValid(cs); }
  }
}
