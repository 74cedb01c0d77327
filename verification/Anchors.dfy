/** Choosing the checkpoints to verify against: Go parses each anchor and
    compares times, Python parses it only to reject it and compares texts. Each
    has its own parser, so they part on the anchors that one of them rejects. */
module Anchors {
  import opened Text
  import opened Timestamps
  import opened TimeParsers
  import opened Rows

  /** The checkpoints anchored at or after the cutoff, in their order; nothing
      if `parse` rejects an anchor. */
  function Since(parse: string -> Option<Time>, cps: seq<Checkpoint>, cutoff: Time): Option<seq<Checkpoint>>
  {
    if cps == [] then Some([])
    else
      var front, last := Since(parse, cps[..|cps| - 1], cutoff), cps[|cps| - 1];
      var at := parse(last.anchoredAt);
      if front.None? || at.None? then None
      else Some(if at.value >= cutoff then front.value + [last] else front.value)
  }

  lemma SinceStep(parse: string -> Option<Time>, cps: seq<Checkpoint>, cutoff: Time, k: nat)
    requires k < |cps|
    ensures Since(parse, cps[..k + 1], cutoff) ==
      var front, at := Since(parse, cps[..k], cutoff), parse(cps[k].anchoredAt);
      if front.None? || at.None? then None else Some(if at.value >= cutoff then front.value + [cps[k]] else front.value)
  {
    assert cps[..k + 1][..k] == cps[..k];
  }

  lemma {:induction false} OneBadAnchor(parse: string -> Option<Time>, cps: seq<Checkpoint>, cutoff: Time, k: nat)
    requires k <= |cps| && Since(parse, cps[..k], cutoff).None?
    ensures Since(parse, cps, cutoff).None?
    decreases |cps| - k
  {
    if k == |cps| {
      assert cps[..k] == cps;
    } else {
      SinceStep(parse, cps, cutoff, k);
      OneBadAnchor(parse, cps, cutoff, k + 1);
    }
  }

  lemma NoneYet(parse: string -> Option<Time>, cps: seq<Checkpoint>, cutoff: Time)
    ensures Since(parse, cps[..0], cutoff) == Some([])
  {
  }

  /** CheckpointsSince: None for the error. */
  method CheckpointsSince(cps: seq<Checkpoint>, cutoff: Time) returns (out: Option<seq<Checkpoint>>)
    ensures out == Since(GoParse, cps, cutoff)
  {
    hide GoParse, Since;
    var kept := [];
    NoneYet(GoParse, cps, cutoff);
    for k := 0 to |cps|
      invariant Since(GoParse, cps[..k], cutoff) == Some(kept)
    {
      SinceStep(GoParse, cps, cutoff, k);
      var at := GoParse(cps[k].anchoredAt);
      if at.None? {
        OneBadAnchor(GoParse, cps, cutoff, k + 1);
        return None;
      }
      if at.value >= cutoff {
        kept := kept + [cps[k]];
      }
    }
    assert cps[..|cps|] == cps;
    out := Some(kept);
  }

  /** checkpoints_since: the texts' order stands for the times'. */
  method CheckpointsSinceByText(cps: seq<Checkpoint>, cutoff: Time) returns (out: Option<seq<Checkpoint>>)
    ensures out == Since(PyParse, cps, cutoff)
  {
    hide PyParse, Since, CanonicalTs, Less;
    var at := CanonicalTs(cutoff);
    var kept := [];
    NoneYet(PyParse, cps, cutoff);
    for k := 0 to |cps|
      invariant Since(PyParse, cps[..k], cutoff) == Some(kept)
    {
      SinceStep(PyParse, cps, cutoff, k);
      var parsed := PyParse(cps[k].anchoredAt);
      if parsed.None? {
        OneBadAnchor(PyParse, cps, cutoff, k + 1);
        return None;
      }
      TextOrder(cps[k].anchoredAt, parsed.value, cutoff);
      if !Less(cps[k].anchoredAt, at) {
        kept := kept + [cps[k]];
      }
    }
    assert cps[..|cps|] == cps;
    out := Some(kept);
  }

  lemma TextOrder(text: string, t: Time, cutoff: Time)
    requires PyParse(text) == Some(t)
    ensures Less(text, CanonicalTs(cutoff)) <==> t < cutoff
  {
    hide PyParse, CanonicalTs, Less;
    PyParseExact(text, t);
    CanonicalOrder(t, cutoff);
  }

  /** What is kept, said once more without the loop, whichever the parser. */
  lemma {:induction false} SinceKeeps(parse: string -> Option<Time>, cps: seq<Checkpoint>, cutoff: Time, cp: Checkpoint)
    requires Since(parse, cps, cutoff).Some?
    ensures cp in cps ==> parse(cp.anchoredAt).Some?
    ensures cp in Since(parse, cps, cutoff).value <==> cp in cps && parse(cp.anchoredAt).value >= cutoff
  {
    if cps != [] {
      assert cps == cps[..|cps| - 1] + [cps[|cps| - 1]];
      SinceKeeps(parse, cps[..|cps| - 1], cutoff, cp);
    }
  }

  /******* When the two agree *******/

  /** The canonical text of a time from year 1 on. */
  ghost predicate Canonical(s: string) { exists t: Time :: t >= YEAR_ONE && s == CanonicalTs(t) }

  /** One of the texts of a time that Go takes. */
  ghost predicate Spelled(s: string) { exists t: Time :: GoSpells(s, t) }

  lemma PyReads(s: string)
    ensures PyParse(s).Some? <==> Canonical(s)
  {
    hide PyParse, CanonicalTs;
    if PyParse(s).Some? { PyParseExact(s, PyParse(s).value); }
    if Canonical(s) {
      var t: Time :| t >= YEAR_ONE && s == CanonicalTs(t);
      PyParseExact(s, t);
    }
  }

  lemma GoReads(s: string)
    ensures GoParse(s).Some? <==> Spelled(s)
  {
    hide GoParse, GoSpells;
    if GoParse(s).Some? { GoParseExact(s, GoParse(s).value); }
    if Spelled(s) {
      var t: Time :| GoSpells(s, t);
      GoParseExact(s, t);
    }
  }

  /** What Python reads, Go reads, and as the same time. */
  lemma GoReadsMore(s: string)
    requires PyParse(s).Some?
    ensures GoParse(s) == PyParse(s)
  {
    hide PyParse, GoParse, CanonicalTs;
    var t := PyParse(s).value;
    PyParseExact(s, t);
    CanonicalIsSpelling(t);
  }

  lemma {:induction false} SameSince(cps: seq<Checkpoint>, cutoff: Time)
    requires forall cp | cp in cps :: PyParse(cp.anchoredAt).Some?
    ensures Since(GoParse, cps, cutoff) == Since(PyParse, cps, cutoff) && Since(PyParse, cps, cutoff).Some?
  {
    hide PyParse, GoParse;
    if cps != [] {
      SameSince(cps[..|cps| - 1], cutoff);
      GoReadsMore(cps[|cps| - 1].anchoredAt);
    }
  }

  lemma {:induction false} SomeBadAnchor(parse: string -> Option<Time>, cps: seq<Checkpoint>, cutoff: Time, cp: Checkpoint)
    requires cp in cps && parse(cp.anchoredAt).None?
    ensures Since(parse, cps, cutoff).None?
  {
    if Since(parse, cps, cutoff).Some? { SinceKeeps(parse, cps, cutoff, cp); }
  }

  lemma {:induction false} AllReadable(parse: string -> Option<Time>, cps: seq<Checkpoint>, cutoff: Time)
    requires forall cp | cp in cps :: parse(cp.anchoredAt).Some?
    ensures Since(parse, cps, cutoff).Some?
  {
    if cps != [] { AllReadable(parse, cps[..|cps| - 1], cutoff); }
  }

  /** The two calls have one outcome exactly when every anchor is canonical and
      of year 1 or later, or some anchor is none that Go takes and both fail. */
  lemma SinceAgree(cps: seq<Checkpoint>, cutoff: Time)
    ensures Since(GoParse, cps, cutoff) == Since(PyParse, cps, cutoff) <==>
      (forall cp | cp in cps :: Canonical(cp.anchoredAt)) || (exists cp | cp in cps :: !Spelled(cp.anchoredAt))
  {
    hide PyParse, GoParse, Canonical, Spelled;
    forall cp | cp in cps
      ensures PyParse(cp.anchoredAt).Some? <==> Canonical(cp.anchoredAt)
      ensures GoParse(cp.anchoredAt).Some? <==> Spelled(cp.anchoredAt)
      ensures PyParse(cp.anchoredAt).Some? ==> GoParse(cp.anchoredAt).Some?
    {
      PyReads(cp.anchoredAt);
      GoReads(cp.anchoredAt);
      if PyParse(cp.anchoredAt).Some? { GoReadsMore(cp.anchoredAt); }
    }
    if forall cp | cp in cps :: Canonical(cp.anchoredAt) {
      SameSince(cps, cutoff);
    } else {
      var bad :| bad in cps && !Canonical(bad.anchoredAt);
      SomeBadAnchor(PyParse, cps, cutoff, bad);
      if cp :| cp in cps && !Spelled(cp.anchoredAt) {
        SomeBadAnchor(GoParse, cps, cutoff, cp);
      } else {
        AllReadable(GoParse, cps, cutoff);
      }
    }
  }

  /** An anchor with an hour of one digit: Go keeps it, Python fails. */
  lemma SincePart(cp: Checkpoint, cutoff: Time)
    requires cp.anchoredAt == SHORT_HOUR && ValidCivil(ONE_O_CLOCK) && cutoff <= FromCivil(ONE_O_CLOCK)
    ensures Since(GoParse, [cp], cutoff) == Some([cp]) && Since(PyParse, [cp], cutoff) == None
  {
    hide PyParse, GoParse, FromCivil;
    ShortHourParts();
    assert [cp][..0] == [] && [] + [cp] == [cp];
  }
}
