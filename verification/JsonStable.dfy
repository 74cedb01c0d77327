/** Reading goes front to back: what has been read does not change when more
    text follows, and what is left is the end of the text. So no proper prefix
    of an object's text is itself valid JSON. */
module JsonStable {
  import opened Json

  predicate EndOf(t: string, s: string) { |t| <= |s| && s[|s| - |t|..] == t }

  lemma EndOfEnd(a: string, b: string, c: string)
    requires EndOf(a, b) && EndOf(b, c)
    ensures EndOf(a, c)
  {
    assert c[|c| - |a|..] == c[|c| - |b|..][|b| - |a|..];
  }

  lemma DropEnds(s: string, n: nat)
    requires n <= |s|
    ensures EndOf(s[n..], s)
  {
  }

  lemma {:induction false} SpaceEnds(s: string)
    ensures EndOf(SkipSpace(s), s)
  {
    if s != "" && IsSpace(s[0]) {
      SpaceEnds(s[1..]);
      EndOfEnd(SkipSpace(s), s[1..], s);
    }
  }

  lemma {:induction false} StringEnds(s: string)
    requires ReadString(s).Got?
    ensures EndOf(ReadString(s).rest, s)
    decreases |s|
  {
    hide EscapeLength, EscapeValue;
    if s[0] == '\\' {
      var n := EscapeLength(s);
      StringEnds(s[n..]);
      EndOfEnd(ReadString(s[n..]).rest, s[n..], s);
    } else if s[0] != '"' {
      StringEnds(s[1..]);
      EndOfEnd(ReadString(s[1..]).rest, s[1..], s);
    }
  }

  /** Appending after a text that does not end in what is skipped. */
  lemma {:induction false} SpaceStable(s: string, more: string)
    requires SkipSpace(s) != ""
    ensures SkipSpace(s + more) == SkipSpace(s) + more
  {
    assert (s + more)[0] == s[0];
    if IsSpace(s[0]) {
      assert (s + more)[1..] == s[1..] + more;
      SpaceStable(s[1..], more);
    }
  }

  lemma After(s: string, more: string, n: nat)
    requires n <= |s|
    ensures (s + more)[n..] == s[n..] + more
  {
  }

  lemma HexStable(s: string, more: string, i: nat)
    requires IsHexAt(s, i)
    ensures IsHexAt(s + more, i) && HexAt(s + more, i) == HexAt(s, i)
  {
  }

  /** An escape followed by a complete text reads the same with more behind. */
  lemma EscapeStable(s: string, more: string)
    requires s != "" && s[0] == '\\' && EscapeLength(s) > 0 && ReadString(s[EscapeLength(s)..]).Got?
    ensures EscapeLength(s + more) == EscapeLength(s) && EscapeValue(s + more) == EscapeValue(s)
  {
    if s[1] == 'u' {
      HexStable(s, more, 2);
      if IsPair(s) {
        HexStable(s, more, 8);
      } else {
        NoPair(s, more);
      }
    }
  }

  lemma NoPair(s: string, more: string)
    requires |s| >= 6 && s[0] == '\\' && s[1] == 'u' && IsHexAt(s, 2) && !IsPair(s) && ReadString(s[6..]).Got?
    ensures !IsPair(s + more)
  {
    HexStable(s, more, 2);
    assert (s + more)[6] == s[6];
  }

  lemma {:induction false} StringStable(s: string, more: string)
    requires ReadString(s).Got?
    ensures ReadString(s + more) == Got(ReadString(s).value, ReadString(s).rest + more)
    decreases |s|
  {
    hide EscapeLength, EscapeValue;
    assert (s + more)[0] == s[0];
    if s[0] == '"' {
      After(s, more, 1);
    } else if s[0] == '\\' {
      var n := EscapeLength(s);
      EscapeStable(s, more);
      After(s, more, n);
      StringStable(s[n..], more);
    } else {
      After(s, more, 1);
      StringStable(s[1..], more);
    }
  }

  lemma {:induction false} NumRunStable(s: string, more: string)
    requires NumRun(s) < |s|
    ensures NumRun(s + more) == NumRun(s)
  {
    assert (s + more)[0] == s[0];
    if NumChar(s[0]) {
      After(s, more, 1);
      NumRunStable(s[1..], more);
    }
  }

  /** Ends by itself, or something follows it. */
  predicate Delimited(p: Parsed<Json>) { p.Got? && (p.value.Num? ==> p.rest != "") }

  lemma WordStable(s: string, more: string, word: string)
    requires word <= s
    ensures word <= s + more && (s + more)[|word|..] == s[|word|..] + more
  {
  }

  lemma NumberStable(s: string, more: string)
    requires s != "" && NumRun(s) < |s| && IsNumber(s[..NumRun(s)])
    ensures NumRun(s + more) == NumRun(s) && (s + more)[..NumRun(s)] == s[..NumRun(s)]
    ensures (s + more)[NumRun(s)..] == s[NumRun(s)..] + more
    ensures NumChar(s[0])
  {
    NumRunStable(s, more);
    NumberChars(s[..NumRun(s)]);
    After(s, more, NumRun(s));
    assert s[0] == s[..NumRun(s)][0];
  }

  /** The scalars, from their first character on. */
  lemma ScalarStable(s: string, more: string)
    requires s != "" && !IsSpace(s[0]) && s[0] != '{' && s[0] != '[' && Delimited(ReadValue(s))
    ensures ReadValue(s + more) == Got(ReadValue(s).value, ReadValue(s).rest + more)
  {
    hide IsNumber, NumRun, ReadString;
    var t := s + more;
    assert SkipSpace(s) == s && t[0] == s[0] && SkipSpace(t) == t;
    if s[0] == '"' {
      After(s, more, 1);
      StringStable(s[1..], more);
    } else if "null" <= s {
      WordStable(s, more, "null");
    } else if "true" <= s {
      WordStable(s, more, "true");
    } else if "false" <= s {
      WordStable(s, more, "false");
    } else {
      NumberStable(s, more);
    }
  }

  /** What was read stays read, whatever follows. */
  lemma {:induction false} ValueStable(input: string, more: string)
    requires Delimited(ReadValue(input))
    ensures ReadValue(input + more) == Got(ReadValue(input).value, ReadValue(input).rest + more)
    decreases |input|, 1
  {
    hide ReadString, IsNumber, NumRun;
    var s := SkipSpace(input);
    SpaceStable(input, more);
    Skipped(input);
    Skipped(input + more);
    if s[0] == '{' || s[0] == '[' {
      After(s, more, 1);
      var t := SkipSpace(s[1..]);
      SpaceStable(s[1..], more);
      assert (t + more)[0] == t[0];
      if (s[0] == '{' && t[0] == '}') || (s[0] == '[' && t[0] == ']') {
        After(t, more, 1);
      } else if s[0] == '{' {
        MembersStable(t, more);
      } else {
        ElemsStable(t, more);
      }
    } else {
      ScalarStable(s, more);
    }
  }

  lemma {:induction false} SkippedTwice(s: string)
    ensures SkipSpace(SkipSpace(s)) == SkipSpace(s)
    ensures SkipSpace(s) != "" ==> !IsSpace(SkipSpace(s)[0])
  {
    if s != "" && IsSpace(s[0]) { SkippedTwice(s[1..]); }
  }

  lemma Skipped(s: string)
    ensures ReadValue(SkipSpace(s)) == ReadValue(s)
    ensures SkipSpace(s) != "" ==> !IsSpace(SkipSpace(s)[0])
  {
    hide ReadString, IsNumber, NumRun, ReadObject, ReadArray;
    SkippedTwice(s);
  }

  lemma {:induction false} ElemsStable(s: string, more: string)
    requires ReadElems(s).Got?
    ensures ReadElems(s + more) == Got(ReadElems(s).value, ReadElems(s).rest + more)
    decreases |s|, 2
  {
    hide ReadValue;
    var r := ReadValue(s).rest;
    var t := SkipSpace(r);
    ValueStable(s, more);
    SpaceStable(r, more);
    assert (t + more)[0] == t[0];
    After(t, more, 1);
    if t[0] == ',' { ElemsStable(t[1..], more); }
  }

  lemma {:induction false} MembersStable(input: string, more: string)
    requires ReadMembers(input).Got?
    ensures ReadMembers(input + more) == Got(ReadMembers(input).value, ReadMembers(input).rest + more)
    decreases |input|, 2
  {
    hide ReadValue, ReadString;
    var s := SkipSpace(input);
    SpaceStable(input, more);
    assert (s + more)[0] == s[0];
    After(s, more, 1);
    StringStable(s[1..], more);
    var r := ReadString(s[1..]).rest;
    var t := SkipSpace(r);
    SpaceStable(r, more);
    assert (t + more)[0] == t[0];
    After(t, more, 1);
    var q := ReadValue(t[1..]).rest;
    var u := SkipSpace(q);
    ValueStable(t[1..], more);
    SpaceStable(q, more);
    assert (u + more)[0] == u[0];
    After(u, more, 1);
    if u[0] == ',' { MembersStable(u[1..], more); }
  }

  /******* Where a reading ends *******/

  lemma ScalarEnds(s: string)
    requires s != "" && !IsSpace(s[0]) && s[0] != '{' && s[0] != '[' && ReadValue(s).Got?
    ensures EndOf(ReadValue(s).rest, s)
  {
    hide ReadString, IsNumber, NumRun;
    assert SkipSpace(s) == s;
    if s[0] == '"' {
      StringEnds(s[1..]);
      EndOfEnd(ReadString(s[1..]).rest, s[1..], s);
    }
  }

  /** What is left of an object or array is what its contents leave. */
  lemma NestedRest(s: string)
    requires s != "" && (s[0] == '{' || s[0] == '[') && ReadValue(s).Got?
    ensures var t, r := SkipSpace(s[1..]), ReadValue(s).rest;
      && t != ""
      && (|| r == t[1..]
          || (s[0] == '{' && ReadMembers(t).Got? && r == ReadMembers(t).rest)
          || (s[0] == '[' && ReadElems(t).Got? && r == ReadElems(t).rest))
  {
    hide ReadMembers, ReadElems, ReadString, IsNumber, NumRun;
    assert SkipSpace(s) == s;
    NothingToRead();
  }

  lemma NothingToRead()
    ensures ReadMembers("") == Fail && ReadElems("") == Fail
  {
    assert ReadValue("") == Fail;
  }

  lemma {:induction false} NestedEnds(s: string)
    requires s != "" && (s[0] == '{' || s[0] == '[') && ReadValue(s).Got?
    ensures EndOf(ReadValue(s).rest, s)
    decreases |s|, 0
  {
    hide ReadValue, EndOf, ReadMembers, ReadElems;
    NestedRest(s);
    var t, r := SkipSpace(s[1..]), ReadValue(s).rest;
    DropEnds(s, 1);
    SpaceEnds(s[1..]);
    EndOfEnd(t, s[1..], s);
    if r == t[1..] {
      DropEnds(t, 1);
    } else if s[0] == '{' {
      MembersEnd(t);
    } else {
      ElemsEnd(t);
    }
    EndOfEnd(r, t, s);
  }

  lemma {:induction false} ValueEnds(input: string)
    requires ReadValue(input).Got?
    ensures EndOf(ReadValue(input).rest, input)
    decreases |input|, 1
  {
    hide ReadValue, EndOf;
    var s := SkipSpace(input);
    SpaceEnds(input);
    Skipped(input);
    NothingRead();
    if s[0] == '{' || s[0] == '[' {
      NestedEnds(s);
    } else {
      ScalarEnds(s);
    }
    EndOfEnd(ReadValue(input).rest, s, input);
  }

  lemma NothingRead()
    ensures ReadValue("") == Fail
  {
  }

  lemma {:induction false} ElemsEnd(s: string)
    requires ReadElems(s).Got?
    ensures EndOf(ReadElems(s).rest, s)
    decreases |s|, 2
  {
    hide ReadValue, EndOf;
    var r := ReadValue(s).rest;
    var t := SkipSpace(r);
    ValueEnds(s);
    SpaceEnds(r);
    EndOfEnd(t, r, s);
    DropEnds(t, 1);
    EndOfEnd(t[1..], t, s);
    if t[0] == ',' {
      ElemsEnd(t[1..]);
      EndOfEnd(ReadElems(t[1..]).rest, t[1..], s);
    }
  }

  /** `r` is the end of `s`, right behind a brace. */
  predicate BehindBrace(r: string, s: string) { EndOf(r, s) && |r| < |s| && s[|s| - |r| - 1] == '}' }

  lemma BehindBraceEnd(r: string, t: string, s: string)
    requires BehindBrace(r, t) && EndOf(t, s)
    ensures BehindBrace(r, s)
  {
    EndOfEnd(r, t, s);
    assert s[|s| - |r| - 1] == s[|s| - |t|..][|t| - |r| - 1];
  }

  lemma BraceHere(s: string)
    requires s != "" && s[0] == '}'
    ensures BehindBrace(s[1..], s)
  {
  }

  lemma BraceEnds(r: string, s: string)
    requires BehindBrace(r, s)
    ensures EndOf(r, s)
  {
  }

  /** What follows a key ends what the key is in. */
  lemma ValueOfKeyEnds(input: string) returns (u: string)
    requires ReadMembers(input).Got?
    ensures u == MemberTail(input) && u != "" && EndOf(u, input) && EndOf(u[1..], input) && |u| < |input|
    decreases |input|, 2
  {
    hide ReadValue, ReadString, EndOf;
    var s := SkipSpace(input);
    SpaceEnds(input);
    DropEnds(s, 1);
    EndOfEnd(s[1..], s, input);
    StringEnds(s[1..]);
    var r := ReadString(s[1..]).rest;
    EndOfEnd(r, s[1..], input);
    var t := SkipSpace(r);
    SpaceEnds(r);
    EndOfEnd(t, r, input);
    DropEnds(t, 1);
    EndOfEnd(t[1..], t, input);
    ValueEnds(t[1..]);
    var q := ReadValue(t[1..]).rest;
    EndOfEnd(q, t[1..], input);
    u := SkipSpace(q);
    SpaceEnds(q);
    EndOfEnd(u, q, input);
    DropEnds(u, 1);
    EndOfEnd(u[1..], u, input);
  }

  /** The text behind the first member's value, from the comma or brace on. */
  function MemberTail(input: string): string
    requires ReadMembers(input).Got?
  {
    var s := SkipSpace(input);
    var t := SkipSpace(ReadString(s[1..]).rest);
    SkipSpace(ReadValue(t[1..]).rest)
  }

  /** An object's text ends in its closing brace. */
  lemma {:induction false} MembersBrace(input: string)
    requires ReadMembers(input).Got?
    ensures BehindBrace(ReadMembers(input).rest, input)
    decreases |input|, 3
  {
    hide ReadValue, ReadString, EndOf, BehindBrace;
    var u := ValueOfKeyEnds(input);
    if u[0] == '}' {
      BraceHere(u);
      BehindBraceEnd(u[1..], u, input);
    } else {
      MembersBrace(u[1..]);
      BehindBraceEnd(ReadMembers(u[1..]).rest, u[1..], input);
    }
  }

  lemma {:induction false} MembersEnd(input: string)
    requires ReadMembers(input).Got?
    ensures EndOf(ReadMembers(input).rest, input)
    decreases |input|, 4
  {
    hide ReadMembers;
    MembersBrace(input);
    BraceEnds(ReadMembers(input).rest, input);
  }

  /** A text that is valid and starts with a brace ends in a brace or space. */
  lemma ObjectLastChar(s: string)
    requires s != "" && s[0] == '{' && Valid(s)
    ensures s[|s| - 1] == '}' || IsSpace(s[|s| - 1])
  {
    hide ReadMembers, BehindBrace, EndOf;
    var t := SkipSpace(s[1..]);
    DropEnds(s, 1);
    SpaceEnds(s[1..]);
    EndOfEnd(t, s[1..], s);
    assert SkipSpace(s) == s && ReadValue(s) == ReadObject(t);
    var r := ReadValue(s).rest;
    if t != "" && t[0] == '}' {
      BraceHere(t);
    } else {
      MembersBrace(t);
    }
    BehindBraceEnd(r, t, s);
    LastOfBraced(r, s);
  }

  lemma LastOfBraced(r: string, s: string)
    requires BehindBrace(r, s) && SkipSpace(r) == ""
    ensures s[|s| - 1] == '}' || IsSpace(s[|s| - 1])
  {
    if r != "" {
      AllSpace(r);
      assert s[|s| - 1] == s[|s| - |r|..][|r| - 1];
    }
  }

  lemma {:induction false} AllSpace(s: string)
    requires SkipSpace(s) == "" && s != ""
    ensures IsSpace(s[|s| - 1])
  {
    if |s| > 1 { AllSpace(s[1..]); }
  }

  /** No proper prefix of an object's text is valid JSON. */
  lemma PrefixInvalid(p: string, more: string)
    requires p != "" && more != "" && p[0] == '{' && ReadValue(p + more).Got? && ReadValue(p + more).rest == ""
    ensures !Valid(p)
  {
    hide ReadMembers;
    if Valid(p) {
      ValueStable(p, more);
    }
  }
}
