/** No canonical object ends in another: a text in front of one splits off in
    one way only. A scan that knows quotes, escapes and brackets shows it. */
module Brackets {
  import opened Text
  import opened Json

  datatype State = State(inString: bool, escaped: bool, depth: int)

  function Outside(d: int): State { State(false, false, d) }

  function Inside(d: int): State { State(true, false, d) }

  /** One character; nothing for a backslash outside a string, or a bracket that
      closes more than `floor` opened. */
  function Next(floor: int, st: State, c: char): Option<State>
  {
    if st.escaped then Some(Inside(st.depth))
    else if st.inString then
      Some(if c == '"' then Outside(st.depth) else State(true, c == '\\', st.depth))
    else if c == '\\' then None
    else if c == '"' then Some(Inside(st.depth))
    else if c == '{' || c == '[' then Some(Outside(st.depth + 1))
    else if c == '}' || c == ']' then (if st.depth > floor then Some(Outside(st.depth - 1)) else None)
    else Some(st)
  }

  function Run(floor: int, st: State, s: string): Option<State>
    decreases |s|
  {
    if s == "" then Some(st)
    else match Next(floor, st, s[0]) case None => None case Some(n) => Run(floor, n, s[1..])
  }

  lemma {:induction false} RunJoin(floor: int, st: State, a: string, b: string)
    ensures Run(floor, st, a + b) == match Run(floor, st, a) case None => None case Some(m) => Run(floor, m, b)
    decreases |a|
  {
    hide Next;
    if a == "" {
      assert a + b == b;
    } else {
      assert (a + b)[1..] == a[1..] + b;
      if Next(floor, st, a[0]).Some? { RunJoin(floor, Next(floor, st, a[0]).value, a[1..], b); }
    }
  }

  /** Characters that mean nothing outside strings. */
  predicate Inert(c: char) { c != '"' && c != '\\' && c != '{' && c != '}' && c != '[' && c != ']' }

  lemma {:induction false} RunInert(floor: int, d: int, s: string)
    requires forall i | 0 <= i < |s| :: Inert(s[i])
    ensures Run(floor, Outside(d), s) == Some(Outside(d))
  {
    if s != "" { RunInert(floor, d, s[1..]); }
  }

  lemma {:induction false} RunPlain(floor: int, d: int, s: string)
    requires forall i | 0 <= i < |s| :: s[i] != '"' && s[i] != '\\'
    ensures Run(floor, Inside(d), s) == Some(Inside(d))
  {
    if s != "" { RunPlain(floor, d, s[1..]); }
  }

  lemma RunBackslash(floor: int, d: int, s: string)
    requires |s| >= 2 && s[0] == '\\' && forall i | 2 <= i < |s| :: s[i] != '"' && s[i] != '\\'
    ensures Run(floor, Inside(d), s) == Some(Inside(d))
  {
    assert s[1..][1..] == s[2..];
    RunPlain(floor, d, s[2..]);
    assert Run(floor, Inside(d), s) == Run(floor, State(true, true, d), s[1..]);
  }

  lemma HexPlain(n: nat)
    requires n < 0x10000
    ensures forall i | 0 <= i < 4 :: Hex4(n)[i] != '"' && Hex4(n)[i] != '\\'
  {
  }

  lemma UnicodeRuns(floor: int, d: int, c: char)
    ensures Run(floor, Inside(d), UnicodeEscape(c)) == Some(Inside(d))
  {
    hide Hex4, Run;
    var n := c as int;
    if n < 0x10000 {
      HexPlain(n);
      RunBackslash(floor, d, "\\u" + Hex4(n));
    } else {
      var a, b := "\\u" + Hex4(High(n)), "\\u" + Hex4(Low(n));
      HexPlain(High(n));
      HexPlain(Low(n));
      RunBackslash(floor, d, a);
      RunBackslash(floor, d, b);
      RunJoin(floor, Inside(d), a, b);
      assert UnicodeEscape(c) == a + b;
    }
  }

  lemma CharRuns(floor: int, d: int, c: char, raw: bool)
    ensures Run(floor, Inside(d), EscChar(c, raw)) == Some(Inside(d))
  {
    hide Run, UnicodeEscape;
    var e := EscChar(c, raw);
    if e == UnicodeEscape(c) {
      UnicodeRuns(floor, d, c);
    } else if |e| == 2 {
      RunBackslash(floor, d, e);
    } else {
      RunPlain(floor, d, e);
    }
  }

  lemma {:induction false} EscRuns(floor: int, d: int, s: string, raw: bool)
    ensures Run(floor, Inside(d), Esc(s, raw)) == Some(Inside(d))
  {
    hide Run, EscChar;
    if s == "" {
      RunPlain(floor, d, "");
    } else {
      CharRuns(floor, d, s[0], raw);
      EscRuns(floor, d, s[1..], raw);
      RunJoin(floor, Inside(d), EscChar(s[0], raw), Esc(s[1..], raw));
    }
  }

  lemma One(floor: int, st: State, c: char)
    ensures Run(floor, st, [c]) == Next(floor, st, c)
  {
  }

  lemma QuotedRuns(floor: int, d: int, s: string, raw: bool)
    ensures Run(floor, Outside(d), Quoted(s, raw)) == Some(Outside(d))
  {
    hide Run, Esc;
    EscRuns(floor, d, s, raw);
    One(floor, Outside(d), '"');
    One(floor, Inside(d), '"');
    RunJoin(floor, Outside(d), "\"", Esc(s, raw));
    RunJoin(floor, Outside(d), "\"" + Esc(s, raw), "\"");
  }

  /** A bracketed text, given its inside. */
  lemma Bracketed(floor: int, d: int, open: char, body: string, close: char)
    requires d >= floor && (open == '{' || open == '[') && (close == '}' || close == ']')
    requires Run(floor, Outside(d + 1), body) == Some(Outside(d + 1))
    ensures Run(floor, Outside(d), [open] + body + [close]) == Some(Outside(d))
  {
    hide Run;
    One(floor, Outside(d), open);
    One(floor, Outside(d + 1), close);
    RunJoin(floor, Outside(d), [open], body);
    RunJoin(floor, Outside(d), [open] + body, [close]);
  }

  lemma {:induction false} CanonRuns(v: Json, raw: bool, floor: int, d: int)
    requires d >= floor
    ensures Run(floor, Outside(d), Canon(v, raw)) == Some(Outside(d))
    decreases v, 1
  {
    hide Run, Quoted;
    match v
    case Null => RunInert(floor, d, "null");
    case Bool(b) => RunInert(floor, d, if b then "true" else "false");
    case Num(t) =>
      NumberChars(t);
      RunInert(floor, d, t);
    case Str(s) => QuotedRuns(floor, d, s, raw);
    case Arr(es) =>
      var body := ElemsRun(es, raw, floor, d + 1);
      Bracketed(floor, d, '[', body, ']');
      if es.Elem? { Assoc("[", body, "]"); } else { assert "[" + "" + "]" == "[]"; }
    case Obj(ms) =>
      var body := MembersRun(ms, raw, floor, d + 1);
      Bracketed(floor, d, '{', body, '}');
      if ms.Member? { Assoc("{", body, "}"); } else { assert "{" + "" + "}" == "{}"; }
  }

  /** What stands between the brackets. */
  lemma {:induction false} ElemsRun(es: Elems, raw: bool, floor: int, d: int) returns (body: string)
    requires d >= floor
    ensures Run(floor, Outside(d), body) == Some(Outside(d))
    ensures if es.Elem? then CanonElems(es, raw) == body + "]" else body == ""
    decreases es, 0
  {
    hide Run, Canon;
    if es.NoElems? {
      body := "";
      RunInert(floor, d, body);
    } else {
      var head := Canon(es.head, raw);
      CanonRuns(es.head, raw, floor, d);
      body := head;
      if es.tail.Elem? {
        var rest := ElemsRun(es.tail, raw, floor, d);
        body := Behind(floor, d, head, ",", rest);
        Assoc(head, "," + rest, "]");
        Assoc(",", rest, "]");
      }
    }
  }

  lemma Behind(floor: int, d: int, a: string, sep: string, b: string) returns (all: string)
    requires Run(floor, Outside(d), a) == Some(Outside(d)) && Run(floor, Outside(d), b) == Some(Outside(d))
    requires sep == "," || sep == ":"
    ensures all == a + (sep + b) && Run(floor, Outside(d), all) == Some(Outside(d))
  {
    hide Run;
    all := a + (sep + b);
    RunInert(floor, d, sep);
    RunJoin(floor, Outside(d), sep, b);
    RunJoin(floor, Outside(d), a, sep + b);
  }

  lemma {:induction false} MembersRun(ms: Members, raw: bool, floor: int, d: int) returns (body: string)
    requires d >= floor
    ensures Run(floor, Outside(d), body) == Some(Outside(d))
    ensures if ms.Member? then CanonMembers(ms, raw) == body + "}" else body == ""
    decreases ms, 0
  {
    hide Run, Canon, Quoted;
    if ms.NoMembers? {
      body := "";
      RunInert(floor, d, body);
    } else {
      var key, value := Quoted(ms.key, raw), Canon(ms.value, raw);
      QuotedRuns(floor, d, ms.key, raw);
      CanonRuns(ms.value, raw, floor, d);
      var member := Behind(floor, d, key, ":", value);
      Assoc(key, ":", value);
      body := member;
      if ms.rest.Member? {
        var rest := MembersRun(ms.rest, raw, floor, d);
        body := Behind(floor, d, member, ",", rest);
        Assoc(member, "," + rest, "}");
        Assoc(",", rest, "}");
      }
    }
  }

  lemma ObjectRuns(ms: Members, raw: bool, floor: int, d: int) returns (body: string)
    requires d >= floor
    ensures Canon(Obj(ms), raw) == "{" + body + "}" && Run(floor, Outside(d), body) == Some(Outside(d))
  {
    hide Run;
    body := MembersRun(ms, raw, floor, d);
    if ms.Member? { Assoc("{", body, "}"); }
  }

  /******* Two scans of one text *******/

  /** Started at another depth, a scan ends as much deeper. */
  lemma {:induction false} Shifted(f: int, g: int, a: int, b: int, st: State, s: string)
    requires Run(f, st.(depth := a), s).Some? && Run(g, st.(depth := b), s).Some?
    ensures Run(f, st.(depth := a), s).value.depth - a == Run(g, st.(depth := b), s).value.depth - b
    decreases |s|
  {
    if s != "" {
      var x, y := Next(f, st.(depth := a), s[0]).value, Next(g, st.(depth := b), s[0]).value;
      assert y == x.(depth := y.depth) && x.depth - a == y.depth - b;
      Shifted(f, g, x.depth, y.depth, x, s[1..]);
    }
  }

  /** Of two scans that start on either side of a quote, one ends in a string. */
  lemma {:induction false} Opposite(f: int, g: int, a: State, b: State, s: string)
    requires a.inString != b.inString && !a.escaped && !b.escaped
    requires Run(f, a, s).Some? && Run(g, b, s).Some?
    ensures Run(f, a, s).value.inString != Run(g, b, s).value.inString
    decreases |s|
  {
    if s != "" { Opposite(f, g, Next(f, a, s[0]).value, Next(g, b, s[0]).value, s[1..]); }
  }

  lemma {:induction false} StaysAbove(floor: int, st: State, s: string)
    requires st.depth >= floor && Run(floor, st, s).Some?
    ensures Run(floor, st, s).value.depth >= floor
    decreases |s|
  {
    if s != "" { StaysAbove(floor, Next(floor, st, s[0]).value, s[1..]); }
  }

  /** A tail of an object's inside is not the inside of an object and its
      opening brace. */
  lemma NoTail(front: string, tail: string)
    requires Run(1, Outside(1), tail) == Some(Outside(1))
    ensures Run(1, Outside(1), front + ("{" + tail)) != Some(Outside(1))
  {
    var b2 := "{" + tail;
    RunJoin(1, Outside(1), front, b2);
    assert b2[0] == '{' && b2[1..] == tail;
    var st := Run(1, Outside(1), front);
    if st.Some? {
      StaysAbove(1, Outside(1), front);
      var n := Next(1, st.value, '{').value;
      if Run(1, n, tail).Some? {
        if n.inString {
          Opposite(1, 1, Outside(1), n, tail);
        } else {
          Shifted(1, 1, n.depth, 1, n, tail);
        }
      }
    }
  }

  /** Canonical objects behind any two texts: if the whole is the same, so are
      the parts. */
  lemma ObjectSplits(s: string, a: Members, rawA: bool, t: string, b: Members, rawB: bool)
    requires s + Canon(Obj(a), rawA) == t + Canon(Obj(b), rawB)
    ensures s == t && Canon(Obj(a), rawA) == Canon(Obj(b), rawB)
  {
    hide Canon, Run;
    var x, y := Canon(Obj(a), rawA), Canon(Obj(b), rawB);
    if |s| < |t| {
      NotLonger(s, a, rawA, t, b, rawB);
    } else if |t| < |s| {
      NotLonger(t, b, rawB, s, a, rawA);
    } else {
      assert s == (s + x)[..|s|] && t == (t + y)[..|s|];
      assert x == (s + x)[|s|..] && y == (t + y)[|s|..];
    }
  }

  lemma NotLonger(s: string, a: Members, rawA: bool, t: string, b: Members, rawB: bool)
    requires s + Canon(Obj(a), rawA) == t + Canon(Obj(b), rawB)
    ensures |s| >= |t|
  {
    hide Canon, Run;
    var p := ObjectRuns(a, rawA, 1, 1);
    var q := ObjectRuns(b, rawB, 1, 1);
    var whole := s + ("{" + p + "}");
    assert whole == t + ("{" + q + "}");
    if |s| < |t| {
      var front := t[|s| + 1..];
      assert p == whole[|s| + 1..|whole| - 1] == front + ("{" + q);
      NoTail(front, q);
    }
  }
}
