/** The append-only checkpoint file. A publish may stop after any byte of what
    it appends; the next one repairs the end of the file, and loading returns
    every checkpoint that was written whole. The file is its text; the bytes of
    a character that was not written whole stand there one by one. */
module CheckpointLog {
  import opened Text
  import opened Json
  import opened JsonStable
  import opened Rows
  import opened CheckpointLines

  /******* The last line *******/

  /** Where the text after the last newline starts. */
  function LastLineStart(file: string): (n: nat)
    ensures n <= |file| && '\n' !in file[n..] && (n > 0 ==> file[n - 1] == '\n')
  {
    if file == "" then 0
    else if file[|file| - 1] == '\n' then |file|
    else
      var front := file[..|file| - 1];
      var n := LastLineStart(front);
      assert file[n..] == front[n..] + [file[|file| - 1]];
      n
  }

  lemma LastLineUnique(file: string, n: nat)
    requires n <= |file| && '\n' !in file[n..] && (n > 0 ==> file[n - 1] == '\n')
    ensures LastLineStart(file) == n
  {
    hide LastLineStart;
    var m := LastLineStart(file);
  }

  /** The file without an unfinished last line, and the newline that a finished
      one lacks. */
  function Ended(file: string): (string, string)
  {
    var start := LastLineStart(file);
    var last := file[start..];
    if last == "" then (file, "")
    else if Valid(last) then (file, "\n")
    else (file[..start], "")
  }

  const CHUNK: nat := 4096

  method LastIndex(chunk: string, c: char) returns (i: int)
    ensures -1 <= i < |chunk| && (i >= 0 ==> chunk[i] == c) && c !in chunk[i + 1..]
  {
    i := |chunk| - 1;
    while i >= 0 && chunk[i] != c
      invariant -1 <= i < |chunk| && c !in chunk[i + 1..]
    {
      assert chunk[i..] == [chunk[i]] + chunk[i + 1..];
      i := i - 1;
    }
  }

  /** endLastLine: looks for the last newline from the end, a chunk at a time. */
  method EndLastLine(file: string) returns (kept: string, prefix: string)
    ensures (kept, prefix) == Ended(file)
  {
    hide Valid, LastLineStart;
    var end := |file|;
    var start := end;
    while start > 0
      invariant 0 <= start <= end && '\n' !in file[start..]
    {
      var n := if CHUNK < start then CHUNK else start;
      var chunk := file[start - n..start];
      var i := LastIndex(chunk, '\n');
      assert file[start - n + i + 1..] == chunk[i + 1..] + file[start..];
      if i >= 0 {
        start := start - n + i + 1;
        assert file[start - 1] == chunk[i];
        break;
      }
      start := start - n;
    }
    LastLineUnique(file, start);
    if start == end {
      return file, "";
    }
    var last := file[start..];
    if Valid(last) {
      return file, "\n";
    }
    return file[..start], "";
  }

  /******* Appending, perhaps not to the end *******/

  function Lines(cps: seq<Checkpoint>): string
  {
    if cps == [] then "" else Line(cps[0]) + "\n" + Lines(cps[1..])
  }

  /** Bytes of a character that was not written whole. */
  predicate Stray(s: string) { |s| <= 3 && forall i | 0 <= i < |s| :: 0x80 <= s[i] as int <= 0xFF }

  /** An append of `text` may stop after `n` characters and `stray`. */
  predicate CutOk(text: string, n: nat, stray: string)
  {
    n <= |text| && Stray(stray) && (stray != "" ==> n < |text| && text[n] as int >= 0x80)
  }

  /** The file after a publish that stopped there. */
  function Published(file: string, cps: seq<Checkpoint>, n: nat, stray: string): string
  {
    if cps == [] then file
    else
      var (kept, prefix) := Ended(file);
      kept + ((prefix + Lines(cps))[..if n <= |prefix + Lines(cps)| then n else |prefix + Lines(cps)|] + stray)
  }

  /** The checkpoints that fit whole into the first `room` characters. */
  function Written(cps: seq<Checkpoint>, room: int): seq<Checkpoint>
  {
    if cps == [] || room < |Line(cps[0])| then []
    else [cps[0]] + Written(cps[1..], room - |Line(cps[0])| - 1)
  }

  /******* What a file is after any number of publishes *******/

  datatype Tail = Clean | Whole(cp: Checkpoint) | Torn(cp: Checkpoint, n: nat, stray: string)

  /** Finished lines, and what follows the last newline. */
  datatype Log = Log(done: seq<Checkpoint>, tail: Tail)

  predicate TailOk(tail: Tail)
  {
    match tail
    case Clean => true
    case Whole(cp) => Storable(cp)
    case Torn(cp, n, stray) => Storable(cp) && 0 < n < |Line(cp)| && CutOk(Line(cp), n, stray)
  }

  predicate AllStorable(cps: seq<Checkpoint>) { forall i | 0 <= i < |cps| :: Storable(cps[i]) }

  predicate LogOk(log: Log) { AllStorable(log.done) && TailOk(log.tail) }

  function TailText(tail: Tail): string
    requires TailOk(tail)
  {
    match tail
    case Clean => ""
    case Whole(cp) => Line(cp)
    case Torn(cp, n, stray) => Line(cp)[..n] + stray
  }

  function Contents(log: Log): string
    requires LogOk(log)
  {
    Lines(log.done) + TailText(log.tail)
  }

  function FullyWritten(log: Log): seq<Checkpoint>
  {
    log.done + if log.tail.Whole? then [log.tail.cp] else []
  }

  lemma {:induction false} LinesEnd(cps: seq<Checkpoint>)
    ensures cps != [] ==> Lines(cps) != "" && Lines(cps)[|Lines(cps)| - 1] == '\n'
    ensures cps == [] ==> Lines(cps) == ""
  {
    hide Line;
    if cps != [] { LinesEnd(cps[1..]); }
  }

  lemma {:induction false} LinesJoin(a: seq<Checkpoint>, b: seq<Checkpoint>)
    ensures Lines(a + b) == Lines(a) + Lines(b)
  {
    hide Line;
    if a == [] {
      assert a + b == b;
    } else {
      assert (a + b)[1..] == a[1..] + b;
      LinesJoin(a[1..], b);
      Assoc(Line(a[0]) + "\n", Lines(a[1..]), Lines(b));
    }
  }

  lemma TailOneLine(tail: Tail)
    requires TailOk(tail)
    ensures '\n' !in TailText(tail)
  {
    hide Line;
    if !tail.Clean? { LineIsOneLine(tail.cp); }
  }

  lemma WholeValid(cp: Checkpoint)
    ensures Line(cp) != "" && Line(cp)[0] == '{' && Valid(Line(cp))
  {
    hide Line, ReadValue;
    LineReads(cp);
  }

  lemma TornInvalid(cp: Checkpoint, n: nat, stray: string)
    requires 0 < n < |Line(cp)| && CutOk(Line(cp), n, stray)
    ensures !Valid(Line(cp)[..n] + stray)
  {
    hide Line, ReadValue, Valid;
    LineReads(cp);
    var line := Line(cp);
    var p := line[..n];
    if stray == "" {
      assert p + stray == p && line == p + line[n..];
      PrefixInvalid(p, line[n..]);
    } else {
      var text := p + stray;
      assert text[0] == '{' && text[|text| - 1] == stray[|stray| - 1];
      if Valid(text) { ObjectLastChar(text); }
    }
  }

  /** A line that stopped short is not valid JSON; a whole one is. */
  lemma TailValid(tail: Tail)
    requires TailOk(tail) && !tail.Clean?
    ensures TailText(tail) != "" && TailText(tail)[0] == '{'
    ensures Valid(TailText(tail)) <==> tail.Whole?
  {
    hide Line, Valid;
    WholeValid(tail.cp);
    if tail.Torn? { TornInvalid(tail.cp, tail.n, tail.stray); }
  }

  lemma LogLastLine(log: Log)
    requires LogOk(log)
    ensures LastLineStart(Contents(log)) == |Lines(log.done)| && Contents(log)[|Lines(log.done)|..] == TailText(log.tail)
  {
    hide Line, LastLineStart, Lines, TailText;
    LinesEnd(log.done);
    TailOneLine(log.tail);
    assert Contents(log)[|Lines(log.done)|..] == TailText(log.tail);
    LastLineUnique(Contents(log), |Lines(log.done)|);
  }

  lemma EndedLog(log: Log)
    requires LogOk(log)
    ensures Ended(Contents(log)) == match log.tail {
      case Clean => (Contents(log), "")
      case Whole(_) => (Contents(log), "\n")
      case Torn(_, _, _) => (Lines(log.done), "")
    }
  {
    hide Line, LastLineStart, Lines, Valid;
    LogLastLine(log);
    if !log.tail.Clean? { TailValid(log.tail); }
    assert Contents(log)[..|Lines(log.done)|] == Lines(log.done);
  }

  /******* A publish, wherever it stops *******/

  lemma CutInFirst(cps: seq<Checkpoint>, n: nat, stray: string) returns (log: Log)
    requires cps != [] && AllStorable(cps) && CutOk(Lines(cps), n, stray) && n <= |Line(cps[0])|
    ensures LogOk(log) && Contents(log) == Lines(cps)[..n] + stray && FullyWritten(log) == Written(cps, n)
  {
    hide Line, Lines;
    var cp := cps[0];
    var line := Line(cp);
    FirstLine(cps);
    WholeValid(cp);
    NoLines();
    assert Lines(cps)[..n] == line[..n];
    if n == |line| {
      log := Log([], Whole(cp));
      assert Written(cps[1..], -1) == [] && line[..n] + stray == line;
    } else {
      assert Lines(cps)[n] == line[n];
      log := Log([], if n == 0 then Clean else Torn(cp, n, stray));
    }
  }

  lemma NoLines()
    ensures Lines([]) == ""
  {
  }

  /** A finished line in front. */
  lemma AddLine(cp: Checkpoint, log: Log)
    requires Storable(cp) && LogOk(log)
    ensures LogOk(Log([cp] + log.done, log.tail))
    ensures Contents(Log([cp] + log.done, log.tail)) == Line(cp) + "\n" + Contents(log)
    ensures FullyWritten(Log([cp] + log.done, log.tail)) == [cp] + FullyWritten(log)
  {
    hide Line, Lines, TailText;
    LinesJoin([cp], log.done);
    OneLine(cp);
    Assoc(Line(cp) + "\n", Lines(log.done), TailText(log.tail));
  }

  /** What is left of some lines when writing them stops. */
  lemma {:induction false} CutLines(cps: seq<Checkpoint>, n: nat, stray: string) returns (log: Log)
    requires AllStorable(cps) && CutOk(Lines(cps), n, stray)
    ensures LogOk(log) && Contents(log) == Lines(cps)[..n] + stray && FullyWritten(log) == Written(cps, n)
    decreases |cps|
  {
    hide Line, Contents, FullyWritten;
    if cps == [] {
      log := Log([], Clean);
      EmptyLog();
    } else if n <= |Line(cps[0])| {
      log := CutInFirst(cps, n, stray);
    } else {
      var cp, rest := cps[0], cps[1..];
      var m := n - |Line(cp)| - 1;
      FirstLine(cps);
      assert m < |Lines(rest)| ==> Lines(cps)[n] == Lines(cps)[|Line(cp)| + 1..][m];
      var log' := CutLines(rest, m, stray);
      AddLine(cp, log');
      log := Log([cp] + log'.done, log'.tail);
      CutFurther(Line(cp), Lines(rest), m, stray);
    }
  }

  lemma CutFurther(line: string, rest: string, m: nat, stray: string)
    requires m <= |rest|
    ensures (line + "\n" + rest)[..|line| + 1 + m] + stray == line + "\n" + (rest[..m] + stray)
  {
    assert (line + "\n" + rest)[..|line| + 1 + m] == line + "\n" + rest[..m];
    Assoc(line + "\n", rest[..m], stray);
  }

  lemma EmptyLog()
    ensures LogOk(Log([], Clean)) && Contents(Log([], Clean)) == "" && FullyWritten(Log([], Clean)) == []
  {
  }

  lemma FirstLine(cps: seq<Checkpoint>)
    requires cps != []
    ensures var line, all := Line(cps[0]), Lines(cps);
      |all| > |line| && all[..|line|] == line && all[|line|] == '\n' && all[|line| + 1..] == Lines(cps[1..])
  {
    hide Line;
  }

  lemma OneLine(cp: Checkpoint)
    ensures Lines([cp]) == Line(cp) + "\n"
  {
    hide Line;
    assert Lines([cp][1..]) == "";
  }

  function Prefix(log: Log): string { if log.tail.Whole? then "\n" else "" }

  /** The log behind the repaired end of another. */
  lemma JoinLogs(before: Log, after: Log)
    requires LogOk(before) && LogOk(after)
    ensures var done := FullyWritten(before); var log := Log(done + after.done, after.tail);
      && LogOk(log) && FullyWritten(log) == done + FullyWritten(after)
      && Contents(log) == Lines(before.done) + (if before.tail.Whole? then Line(before.tail.cp) + "\n" else "") + Contents(after)
  {
    hide Line, Lines, TailText;
    var done := FullyWritten(before);
    LinesJoin(done, after.done);
    if before.tail.Whole? {
      LinesJoin(before.done, [before.tail.cp]);
      OneLine(before.tail.cp);
    } else {
      assert done == before.done;
    }
    Assoc(Lines(done), Lines(after.done), TailText(after.tail));
  }

  /** However far a publish gets, the file stays a log, and what is fully
      written in it grows by the checkpoints that fit whole. */
  lemma PublishKeeps(log: Log, cps: seq<Checkpoint>, n: nat, stray: string) returns (next: Log)
    requires LogOk(log) && AllStorable(cps) && CutOk(Prefix(log) + Lines(cps), n, stray)
    ensures LogOk(next) && Contents(next) == Published(Contents(log), cps, n, stray)
    ensures FullyWritten(next) == FullyWritten(log) + Written(cps, n - |Prefix(log)|)
  {
    hide Line, Lines, Ended, Contents, FullyWritten, Written;
    if cps == [] {
      next := log;
      NothingWritten(n - |Prefix(log)|);
      assert FullyWritten(log) + [] == FullyWritten(log);
      return;
    }
    EndedLog(log);
    if log.tail.Whole? && n == 0 {
      next := log;
      NothingFits(cps);
      assert FullyWritten(log) + [] == FullyWritten(log);
      assert (Prefix(log) + Lines(cps))[..0] + stray == "";
      assert Contents(log) + "" == Contents(log);
    } else {
      next := Appended(log, cps, n, stray);
    }
  }

  lemma NothingWritten(room: int)
    ensures Written([], room) == []
  {
  }

  lemma NothingFits(cps: seq<Checkpoint>)
    ensures Written(cps, -1) == []
  {
  }

  lemma Appended(log: Log, cps: seq<Checkpoint>, n: nat, stray: string) returns (next: Log)
    requires LogOk(log) && AllStorable(cps) && CutOk(Prefix(log) + Lines(cps), n, stray) && n >= |Prefix(log)|
    ensures LogOk(next) && FullyWritten(next) == FullyWritten(log) + Written(cps, n - |Prefix(log)|)
    ensures Contents(next) == Ended(Contents(log)).0 + ((Prefix(log) + Lines(cps))[..n] + stray)
  {
    hide Line, Lines, Ended, FullyWritten, Written;
    EndedLog(log);
    var prefix := Prefix(log);
    var m := n - |prefix|;
    assert m < |Lines(cps)| ==> (prefix + Lines(cps))[n] == Lines(cps)[m];
    var cut := CutLines(cps, m, stray);
    JoinLogs(log, cut);
    next := Log(FullyWritten(log) + cut.done, cut.tail);
    assert (prefix + Lines(cps))[..n] == prefix + Lines(cps)[..m];
    Assoc(prefix, Lines(cps)[..m], stray);
    AppendText(log, cut);
  }

  lemma AppendText(log: Log, cut: Log)
    requires LogOk(log) && LogOk(cut)
    ensures Ended(Contents(log)).0 + (Prefix(log) + Contents(cut)) ==
      Lines(log.done) + (if log.tail.Whole? then Line(log.tail.cp) + "\n" else "") + Contents(cut)
  {
    hide Line, Lines, Ended;
    EndedLog(log);
    var d, c := Lines(log.done), Contents(cut);
    match log.tail
    case Clean =>
      assert Contents(log) == d && "" + c == c && d + "" == d;
    case Torn(_, _, _) =>
      assert "" + c == c && d + "" == d;
    case Whole(cp) =>
      Assoc(d, Line(cp), "\n");
      Assoc(d + Line(cp), "\n", c);
  }

  /******* Loading *******/

  /** ErrPartialLastLine still comes with the checkpoints before it. */
  datatype Loaded = Loaded(cps: seq<Checkpoint>) | Partial(cps: seq<Checkpoint>) | BadLine

  /** unicode.IsSpace. */
  predicate Blank(s: string)
  {
    forall i | 0 <= i < |s| ::
      var n := s[i] as int;
      || 9 <= n <= 13 || n == 32 || n == 0x85 || n == 0xA0 || n == 0x1680 || 0x2000 <= n <= 0x200A
      || n == 0x2028 || n == 0x2029 || n == 0x202F || n == 0x205F || n == 0x3000
  }

  /** bytes.Split at newlines; the last piece is what follows the last one. */
  function Split(s: string): (pieces: seq<string>)
    ensures pieces != []
  {
    if s == "" then [""]
    else
      var rest := Split(s[1..]);
      if s[0] == '\n' then [""] + rest else [[s[0]] + rest[0]] + rest[1..]
  }

  /** Every line but the blank ones must be a checkpoint. */
  function ParseLines(lines: seq<string>): Option<seq<Checkpoint>>
  {
    if lines == [] then Some([])
    else
      var front, line := ParseLines(lines[..|lines| - 1]), lines[|lines| - 1];
      if front.None? || Blank(line) then front
      else
        var cp := ParseLine(line);
        if cp.None? then None else Some(front.value + [cp.value])
  }

  function Load(file: string): Loaded
  {
    var pieces := Split(file);
    var cps, last := ParseLines(pieces[..|pieces| - 1]), pieces[|pieces| - 1];
    if cps.None? then BadLine
    else if Blank(last) then Loaded(cps.value)
    else if !Valid(last) then Partial(cps.value)
    else
      var cp := ParseLine(last);
      if cp.None? then BadLine else Loaded(cps.value + [cp.value])
  }

  lemma {:induction false} SplitLine(line: string, rest: string)
    requires '\n' !in line
    ensures Split(line + "\n" + rest) == [line] + Split(rest)
  {
    if line == "" {
      assert "" + "\n" + rest == ['\n'] + rest;
      Behind('\n', rest);
    } else {
      var t := line[1..];
      assert line + "\n" + rest == [line[0]] + (t + "\n" + rest);
      Behind(line[0], t + "\n" + rest);
      SplitLine(t, rest);
      assert line[0] in line && line == [line[0]] + t;
    }
  }

  lemma {:induction false} SplitLast(last: string)
    requires '\n' !in last
    ensures Split(last) == [last]
  {
    if last != "" {
      SplitLast(last[1..]);
      assert last[0] in last && last == [last[0]] + last[1..];
    }
  }

  function LineTexts(cps: seq<Checkpoint>): seq<string>
  {
    if cps == [] then [] else [Line(cps[0])] + LineTexts(cps[1..])
  }

  lemma {:induction false} SplitLines(cps: seq<Checkpoint>, last: string)
    requires '\n' !in last
    ensures Split(Lines(cps) + last) == LineTexts(cps) + [last]
  {
    hide Line, Split;
    if cps == [] {
      assert "" + last == last;
      SplitLast(last);
    } else {
      LineIsOneLine(cps[0]);
      Assoc(Line(cps[0]) + "\n", Lines(cps[1..]), last);
      SplitLine(Line(cps[0]), Lines(cps[1..]) + last);
      SplitLines(cps[1..], last);
    }
  }

  lemma {:induction false} ParseJoin(a: seq<string>, b: seq<string>)
    requires ParseLines(a).Some? && ParseLines(b).Some?
    ensures ParseLines(a + b) == Some(ParseLines(a).value + ParseLines(b).value)
  {
    hide ParseLine, Blank;
    if b == [] {
      assert a + b == a && ParseLines(a).value + [] == ParseLines(a).value;
    } else {
      var n := |b| - 1;
      assert (a + b)[..|a + b| - 1] == a + b[..n] && (a + b)[|a + b| - 1] == b[n];
      ParseJoin(a, b[..n]);
      var x, y, cp := ParseLines(a).value, ParseLines(b[..n]).value, ParseLine(b[n]);
      if cp.Some? { assert x + y + [cp.value] == x + (y + [cp.value]); }
    }
  }

  lemma {:induction false} ParseWritten(cps: seq<Checkpoint>)
    requires AllStorable(cps)
    ensures ParseLines(LineTexts(cps)) == Some(cps)
  {
    hide ParseLine, Line, Blank;
    if cps != [] {
      var line := Line(cps[0]);
      LineParses(cps[0]);
      WholeValid(cps[0]);
      BraceNotBlank(line);
      ParseOne(line, cps[0]);
      ParseWritten(cps[1..]);
      ParseJoin([line], LineTexts(cps[1..]));
      assert [cps[0]] + cps[1..] == cps;
    }
  }

  lemma ParseOne(line: string, cp: Checkpoint)
    requires !Blank(line) && ParseLine(line) == Some(cp)
    ensures ParseLines([line]) == Some([cp])
  {
    hide ParseLine, Blank;
    assert [line][..0] == [] && ParseLines([]) == Some([]);
    assert [] + [cp] == [cp];
  }

  lemma BraceNotBlank(s: string)
    requires s != "" && s[0] == '{'
    ensures !Blank(s)
  {
  }

  lemma NothingBlank()
    ensures Blank("")
  {
  }

  /** Loading a log: everything fully written, and an error only for a last
      line that stopped short. */
  lemma LoadLog(log: Log)
    requires LogOk(log)
    ensures Load(Contents(log)) == if log.tail.Torn? then Partial(log.done) else Loaded(FullyWritten(log))
  {
    hide Line, Split, ParseLines, ParseLine, Valid, Blank, Lines, LineTexts;
    var last := TailText(log.tail);
    TailOneLine(log.tail);
    SplitLines(log.done, last);
    ParseWritten(log.done);
    var pieces := LineTexts(log.done) + [last];
    assert pieces[..|pieces| - 1] == LineTexts(log.done);
    NothingBlank();
    if !log.tail.Clean? {
      TailValid(log.tail);
      BraceNotBlank(last);
      if log.tail.Whole? { LineParses(log.tail.cp); }
    } else {
      assert FullyWritten(log) == log.done;
    }
  }

  method SplitAtNewlines(data: string) returns (pieces: seq<string>)
    ensures pieces == Split(data)
  {
    pieces := [""];
    var i := |data|;
    assert data[i..] == "";
    while i > 0
      invariant 0 <= i <= |data| && pieces == Split(data[i..]) && pieces != []
    {
      i := i - 1;
      assert data[i..][1..] == data[i + 1..];
      pieces := if data[i] == '\n' then [""] + pieces else [[data[i]] + pieces[0]] + pieces[1..];
    }
    assert data[0..] == data;
  }

  /** LoadCheckpoints, given the file's text. */
  method LoadCheckpoints(data: string) returns (res: Loaded)
    ensures res == Load(data)
  {
    hide Split, ParseLines, ParseLine, Blank, Valid;
    var pieces := SplitAtNewlines(data);
    var last := pieces[|pieces| - 1];
    var lines := pieces[..|pieces| - 1];
    var out := [];
    ParseNone(lines);
    for k := 0 to |lines|
      invariant ParseLines(lines[..k]) == Some(out)
    {
      ParseStep(lines, k);
      if Blank(lines[k]) {
        continue;
      }
      var cp := ParseLine(lines[k]);
      if cp.None? {
        ParseFails(lines, k + 1);
        return BadLine;
      }
      out := out + [cp.value];
    }
    assert lines[..|lines|] == lines;
    if Blank(last) {
      return Loaded(out);
    }
    if !Valid(last) {
      return Partial(out);
    }
    var cp := ParseLine(last);
    if cp.None? {
      return BadLine;
    }
    res := Loaded(out + [cp.value]);
  }

  lemma ParseNone(lines: seq<string>)
    ensures ParseLines(lines[..0]) == Some([])
  {
  }

  lemma ParseStep(lines: seq<string>, k: nat)
    requires k < |lines|
    ensures var front, cp := ParseLines(lines[..k]), ParseLine(lines[k]);
      ParseLines(lines[..k + 1]) ==
        if front.None? || Blank(lines[k]) then front else if cp.None? then None else Some(front.value + [cp.value])
  {
    hide ParseLine, Blank;
    assert lines[..k + 1][..k] == lines[..k];
  }

  lemma {:induction false} ParseFails(lines: seq<string>, k: nat)
    requires k <= |lines| && ParseLines(lines[..k]).None?
    ensures ParseLines(lines).None?
    decreases |lines| - k
  {
    hide ParseLine, Blank;
    if k == |lines| {
      assert lines[..k] == lines;
    } else {
      ParseStep(lines, k);
      ParseFails(lines, k + 1);
    }
  }

  /******* Any number of publishes *******/

  class FileCheckpointSink {
    var file: string

    constructor ()
      ensures file == ""
    {
      file := "";
    }

    /** Publish, cut off after `n` characters and `stray`; a publish that runs to
        its end has `n` at the end of the text. */
    method Publish(cps: seq<Checkpoint>, n: nat, stray: string)
      modifies this
      ensures file == Published(old(file), cps, n, stray)
    {
      hide Line, Ended;
      if |cps| == 0 {
        return;
      }
      var buf := "";
      for k := 0 to |cps|
        invariant buf == Lines(cps[..k]) && file == old(file)
      {
        assert cps[..k + 1] == cps[..k] + [cps[k]];
        LinesJoin(cps[..k], [cps[k]]);
        OneLine(cps[k]);
        buf := buf + (Line(cps[k]) + "\n");
      }
      assert cps[..|cps|] == cps;
      var kept, prefix := EndLastLine(file);
      var text := prefix + buf;
      file := kept + (text[..if n <= |text| then n else |text|] + stray);
    }
  }

  datatype PublishOp = PublishOp(cps: seq<Checkpoint>, n: nat, stray: string)

  /** Publishes one after another, each stopping somewhere in its append. */
  ghost predicate Run(files: seq<string>, ops: seq<PublishOp>)
  {
    && |files| == |ops| + 1 && files[0] == ""
    && (forall i | 0 <= i < |ops| :: PublishStep(files[i], ops[i], files[i + 1]))
  }

  ghost predicate PublishStep(file: string, op: PublishOp, next: string)
  {
    && AllStorable(op.cps) && CutOk(Ended(file).1 + Lines(op.cps), op.n, op.stray)
    && next == Published(file, op.cps, op.n, op.stray)
  }

  /** What was ever written whole, in order. */
  function Recorded(files: seq<string>, ops: seq<PublishOp>, k: nat): seq<Checkpoint>
    requires k <= |ops| < |files|
  {
    if k == 0 then []
    else Recorded(files, ops, k - 1) + Written(ops[k - 1].cps, ops[k - 1].n - |Ended(files[k - 1]).1|)
  }

  lemma {:induction false} RunIsLog(files: seq<string>, ops: seq<PublishOp>, k: nat) returns (log: Log)
    requires Run(files, ops) && k <= |ops|
    ensures LogOk(log) && Contents(log) == files[k] && FullyWritten(log) == Recorded(files, ops, k)
  {
    hide Line, Lines, Ended, Contents, FullyWritten, Written, Published;
    if k == 0 {
      log := Log([], Clean);
      EmptyLog();
    } else {
      var before := RunIsLog(files, ops, k - 1);
      var op := ops[k - 1];
      EndedPrefix(before);
      assert PublishStep(files[k - 1], op, files[k]);
      log := PublishKeeps(before, op.cps, op.n, op.stray);
    }
  }

  lemma EndedPrefix(log: Log)
    requires LogOk(log)
    ensures Ended(Contents(log)).1 == Prefix(log)
  {
    hide Line, Lines, Ended, Contents;
    EndedLog(log);
  }

  /** After any run of publishes, loading never finds a bad line, and returns
      exactly what was written whole; it warns only of a last line that was cut. */
  lemma CrashSafe(files: seq<string>, ops: seq<PublishOp>, k: nat)
    requires Run(files, ops) && k <= |ops|
    ensures !Load(files[k]).BadLine? && Load(files[k]).cps == Recorded(files, ops, k)
    ensures Load(files[k]).Partial? <==> Ended(files[k]).0 != files[k]
  {
    hide Line, Lines, Ended, Load, Recorded;
    var log := RunIsLog(files, ops, k);
    LoadLog(log);
    EndedLog(log);
    if log.tail.Torn? { TailValid(log.tail); }
  }
}
