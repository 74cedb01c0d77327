/** The Python SDK's check of one row, and where it agrees with Go's. The two
    read the same row differently in three places: Python hashes a missing
    detail as null where Go hashes {}, a missing commitment as null where Go
    hashes "", and an empty wire version as itself where Go hashes "1". */
module PyRows {
  import opened Text
  import opened Json
  import opened Encoders
  import opened Timestamps
  import opened Rows
  import opened Sealing
  import opened RowLaws

  function PyDetail(d: Option<Members>): Json { if d.Some? then Obj(d.value) else Null }

  function PyCommitment(s: string): Json { if s == "" then Null else Str(s) }

  function PyForm1(r: Row, shipped: Json): Json
  {
    Hashed(r, r.wireVersion, "detail", PyDetail(r.detail), HashedTs(CanonicalTs(r.timestamp)), shipped)
  }

  function PyForm1Z(r: Row, shipped: Json): Json
  {
    Hashed(r, r.wireVersion, "detail", PyDetail(r.detail), CanonicalTs(r.timestamp), shipped)
  }

  function PyForm2(r: Row, shipped: Json): Json
  {
    Hashed(r, r.wireVersion, "detail_commitment", PyCommitment(r.commitment), CanonicalTs(r.timestamp), shipped)
  }

  /** _canonical_json, and _canonical_json_raw_del with its rewrite. */
  function PyCanon(v: Json, rawDel: bool): string
  {
    if rawDel then RewriteDel(Canon(v, false)) else Canon(v, false)
  }

  /** _hash_matches. */
  predicate PyHashMatches(sha: string -> string, r: Row, rawDel: bool)
  {
    if FormOf(r) == "1" then
      || r.hash == sha(PyCanon(PyForm1(r, Null), rawDel))
      || r.hash == sha(PyCanon(PyForm1Z(r, Null), rawDel))
      || (r.shippedAt.Some? &&
          var z := CanonicalTs(r.shippedAt.value);
          || r.hash == sha(PyCanon(PyForm1(r, Str(HashedTs(z))), rawDel))
          || r.hash == sha(PyCanon(PyForm1Z(r, Str(z)), rawDel)))
    else
      || r.hash == sha(PyCanon(PyForm2(r, Null), rawDel))
      || (r.shippedAt.Some? && r.hash == sha(PyCanon(PyForm2(r, Str(CanonicalTs(r.shippedAt.value))), rawDel)))
  }

  /** _has_del looks through the whole row, salt, commitment and hash included. */
  predicate PyHasDel(r: Row)
  {
    DelInside(PyForm1(r, Null)) || DEL in r.salt || DEL in r.commitment || DEL in r.hash
  }

  predicate PyDetailOk(sha: string -> string, r: Row)
  {
    FormOf(r) == "2" && r.detail.Some? ==>
      && r.salt != ""
      && (|| sha(r.salt + PyCanon(PyDetail(r.detail), false)) == r.commitment
          || (PyHasDel(r) && sha(r.salt + PyCanon(PyDetail(r.detail), true)) == r.commitment))
  }

  /** _row_break returns None. */
  predicate PyRowOk(sha: string -> string, r: Row)
  {
    && KnownForm(r)
    && PyDetailOk(sha, r)
    && (PyHashMatches(sha, r, false) || (PyHasDel(r) && PyHashMatches(sha, r, true)))
  }

  /** Rows both SDKs read alike: the wire version is set; a form "1" row has a
      detail; a form "2" row has a commitment, with DEL only if a string that
      Go looks at has it too. */
  predicate Portable(r: Row)
  {
    && r.wireVersion != ""
    && (FormOf(r) == "1" ==> r.detail.Some?)
    && (FormOf(r) == "2" ==> r.commitment != "" && (DEL in r.commitment ==> RowHasDel(r)))
  }

  lemma PyCanonIs(v: Json, rawDel: bool)
    ensures PyCanon(v, rawDel) == Canon(v, rawDel)
  {
    FallbacksAgree(v);
  }

  lemma SameForm1(r: Row)
    requires r.wireVersion != "" && r.detail.Some?
    ensures PyForm1(r, Null) == Form1(r) && PyForm1Z(r, Null) == Form1Z(r)
    ensures r.shippedAt.Some? ==>
      var at := r.shippedAt.value;
      && PyForm1(r, Str(HashedTs(CanonicalTs(at)))) == Form1Shipped(r, at)
      && PyForm1Z(r, Str(CanonicalTs(at))) == Form1ZShipped(r, at)
  {
    hide Hashed, HashedTs, CanonicalTs, PyIso;
    HashedTsIsPyIso(r.timestamp);
    if r.shippedAt.Some? { HashedTsIsPyIso(r.shippedAt.value); }
  }

  lemma SameForm2(r: Row, shipped: Json)
    requires r.wireVersion != "" && r.commitment != ""
    ensures PyForm2(r, shipped) == Hashed(r, WireOf(r), "detail_commitment", Str(r.commitment), CanonicalTs(r.timestamp), shipped)
  {
    hide Hashed, CanonicalTs;
  }

  lemma HashMatchesAgree1(sha: string -> string, r: Row, rawDel: bool)
    requires Portable(r) && FormOf(r) == "1"
    ensures PyHashMatches(sha, r, rawDel) == HashMatches(sha, r, rawDel)
  {
    hide Hashed, Canon, PyCanon, PyForm1, PyForm1Z, Form1, Form1Z, Form1Shipped, Form1ZShipped, RowHasDel, HashedTs, CanonicalTs;
    SameForm1(r);
    PyCanonIs(PyForm1(r, Null), rawDel);
    PyCanonIs(PyForm1Z(r, Null), rawDel);
    if r.shippedAt.Some? {
      var z := CanonicalTs(r.shippedAt.value);
      PyCanonIs(PyForm1(r, Str(HashedTs(z))), rawDel);
      PyCanonIs(PyForm1Z(r, Str(z)), rawDel);
    }
  }

  lemma HashMatchesAgree2(sha: string -> string, r: Row, rawDel: bool)
    requires Portable(r) && FormOf(r) == "2"
    ensures PyHashMatches(sha, r, rawDel) == HashMatches(sha, r, rawDel)
  {
    hide Hashed, Canon, PyCanon, RowHasDel, HashedTs, CanonicalTs;
    SameForm2(r, Null);
    PyCanonIs(PyForm2(r, Null), rawDel);
    if r.shippedAt.Some? {
      var z := Str(CanonicalTs(r.shippedAt.value));
      SameForm2(r, z);
      PyCanonIs(PyForm2(r, z), rawDel);
    }
  }

  lemma HashMatchesAgree(sha: string -> string, r: Row, rawDel: bool)
    requires Portable(r) && KnownForm(r)
    ensures PyHashMatches(sha, r, rawDel) == HashMatches(sha, r, rawDel)
  {
    if FormOf(r) == "1" { HashMatchesAgree1(sha, r, rawDel); } else { HashMatchesAgree2(sha, r, rawDel); }
  }

  /** Python finds DEL wherever Go does. */
  lemma PyFindsMoreDel(r: Row)
    requires r.wireVersion != ""
    ensures RowHasDel(r) ==> PyHasDel(r)
  {
    hide PyIso, HashedTs, CanonicalTs, Canon;
    RowDel(r);
    HashedTsIsPyIso(r.timestamp);
    TimesHaveNoDel(r.timestamp);
    assert DEL !in "detail";
    HashedDel(r, r.wireVersion, "detail", PyDetail(r.detail), PyIso(r.timestamp), Null);
    HasDelIsInside(PyForm1(r, Null));
  }

  /** Where Go sees no DEL, trying raw DEL changes nothing. */
  lemma NoDelNoRetry(sha: string -> string, r: Row)
    requires Portable(r) && KnownForm(r) && !RowHasDel(r)
    ensures HashMatches(sha, r, true) == HashMatches(sha, r, false)
    ensures r.detail.Some? ==> PyCanon(PyDetail(r.detail), true) == PyCanon(PyDetail(r.detail), false)
  {
    hide PyIso, CanonicalTs, Canon, PyCanon, HashMatches;
    RowDel(r);
    if r.detail.Some? {
      HasDelIsInside(PyDetail(r.detail));
      EncodingsCoincide(PyDetail(r.detail));
      PyCanonIs(PyDetail(r.detail), true);
      PyCanonIs(PyDetail(r.detail), false);
    }
    if FormOf(r) == "1" {
      NoDelForm1(sha, r);
    } else {
      NoDelNoDifference(sha, r);
    }
  }

  lemma NoDelForm1(sha: string -> string, r: Row)
    requires FormOf(r) == "1" && !RowHasDel(r)
    ensures HashMatches(sha, r, true) == HashMatches(sha, r, false)
  {
    hide PyIso, CanonicalTs, Canon, Hashed;
    Form1Coincides(r, PyIso(r.timestamp), Null);
    Form1Coincides(r, CanonicalTs(r.timestamp), Null);
    TimesHaveNoDel(r.timestamp);
    if r.shippedAt.Some? {
      var at := r.shippedAt.value;
      TimesHaveNoDel(at);
      Form1Coincides(r, PyIso(r.timestamp), Str(PyIso(at)));
      Form1Coincides(r, CanonicalTs(r.timestamp), Str(CanonicalTs(at)));
    }
  }

  lemma Form1Coincides(r: Row, ts: string, shipped: Json)
    ensures !RowHasDel(r) && DEL !in ts && !DelInside(shipped) ==>
      var v := Hashed(r, WireOf(r), "detail", DetailJson(r.detail), ts, shipped); Canon(v, true) == Canon(v, false)
  {
    hide Canon, PyIso;
    RowDel(r);
    if DEL !in ts {
      assert DEL !in "detail";
      HashedDel(r, WireOf(r), "detail", DetailJson(r.detail), ts, shipped);
    }
    EncodingsCoincide(Hashed(r, WireOf(r), "detail", DetailJson(r.detail), ts, shipped));
  }

  /** The two row checks give one answer on every row both SDKs read alike. */
  lemma RowChecksAgree(sha: string -> string, r: Row)
    requires Portable(r)
    ensures PyRowOk(sha, r) == RowOk(sha, r)
  {
    hide PyHashMatches, HashMatches, PyHasDel, RowHasDel, Canon, PyCanon;
    PyFindsMoreDel(r);
    if KnownForm(r) {
      HashMatchesAgree(sha, r, false);
      HashMatchesAgree(sha, r, true);
      if !RowHasDel(r) { NoDelNoRetry(sha, r); }
    }
    if r.detail.Some? {
      PyCanonIs(PyDetail(r.detail), false);
      PyCanonIs(PyDetail(r.detail), true);
    }
  }

  /******* Where they part *******/

  /** Rows of which the two SDKs hash different values. */
  predicate ReadDifferently(r: Row)
  {
    || r.wireVersion == ""
    || (FormOf(r) == "1" && r.detail.None?)
    || (FormOf(r) == "2" && r.commitment == "")
  }

  function PyPayload(r: Row): Json { if FormOf(r) == "1" then PyDetail(r.detail) else PyCommitment(r.commitment) }

  lemma PyHashedText(sha: string -> string, r: Row) returns (v: Json, rawDel: bool, ts: string, shipped: Json)
    requires PyRowOk(sha, r)
    ensures r.hash == Digest(sha, v, rawDel)
    ensures v == Hashed(r, r.wireVersion, PayloadKey(r), PyPayload(r), ts, shipped)
  {
    hide Hashed, Canon, PyCanon, HashedTs, CanonicalTs, PyHasDel, PyDetailOk;
    rawDel := !PyHashMatches(sha, r, false);
    var z := CanonicalTs(r.timestamp);
    ts, shipped := z, Null;
    if FormOf(r) == "1" {
      if r.hash == sha(PyCanon(PyForm1(r, Null), rawDel)) {
        ts := HashedTs(z);
      } else if r.hash != sha(PyCanon(PyForm1Z(r, Null), rawDel)) {
        var at := CanonicalTs(r.shippedAt.value);
        if r.hash == sha(PyCanon(PyForm1(r, Str(HashedTs(at))), rawDel)) {
          ts, shipped := HashedTs(z), Str(HashedTs(at));
        } else {
          shipped := Str(at);
        }
      }
    } else if r.hash != sha(PyCanon(PyForm2(r, Null), rawDel)) {
      shipped := Str(CanonicalTs(r.shippedAt.value));
    }
    v := Hashed(r, r.wireVersion, PayloadKey(r), PyPayload(r), ts, shipped);
    PyCanonIs(v, rawDel);
  }

  /** Whatever hash such a row carries, at most one SDK accepts it. */
  lemma OneRejects(sha: string -> string, r: Row)
    requires Collisionless(sha) && ReadDifferently(r)
    ensures !(RowOk(sha, r) && PyRowOk(sha, r))
  {
    hide Canon, PyCanon, RowOk, PyRowOk, Hashed;
    if RowOk(sha, r) && PyRowOk(sha, r) {
      var v, raw, ts, shipped := HashedText(sha, r);
      var w, raw', ts', shipped' := PyHashedText(sha, r);
      CanonInjective(v, raw, w, raw');
      HashedInjective(r, WireOf(r), PayloadKey(r), Payload(r), ts, shipped,
                      r, r.wireVersion, PayloadKey(r), PyPayload(r), ts', shipped');
      KnownFormOk(sha, r);
    }
  }

  lemma KnownFormOk(sha: string -> string, r: Row)
    requires RowOk(sha, r)
    ensures KnownForm(r)
  {
  }

  /** A redacted form "2" row with DEL in its commitment alone: sealed with DEL
      raw, Python accepts it and Go does not. */
  lemma DelInCommitmentAlone(sha: string -> string, row: Row)
    requires Collisionless(sha)
    requires FormOf(row) == "2" && row.detail.None? && row.wireVersion != ""
    requires DEL in row.commitment && !RowHasDel(row)
    ensures var r := row.(hash := Digest(sha, Form2(row), true)); PyRowOk(sha, r) && !RowOk(sha, r)
  {
    hide PyIso, CanonicalTs, Canon, PyCanon, HashedTs;
    var r := row.(hash := Digest(sha, Form2(row), true));
    assert Form2(r) == Form2(row) && Form1(r) == Form1(row);
    Form2Del(r, Null);
    EncodingsCoincide(Form2(r));
    SameForm2(r, Null);
    PyCanonIs(PyForm2(r, Null), true);
    if r.shippedAt.Some? { ShippedApart(r, true, r.shippedAt.value, false); }
  }

  /** What is hashed with shipped_at as null is never what is hashed over it. */
  lemma ShippedApart(r: Row, raw: bool, at: Time, raw': bool)
    ensures Canon(Form2(r), raw) != Canon(Form2Shipped(r, at), raw')
  {
    hide PyIso, CanonicalTs, Canon, Hashed;
    if Canon(Form2(r), raw) == Canon(Form2Shipped(r, at), raw') {
      CanonInjective(Form2(r), raw, Form2Shipped(r, at), raw');
      var z := CanonicalTs(r.timestamp);
      HashedInjective(r, WireOf(r), "detail_commitment", Str(r.commitment), z, Null,
                      r, WireOf(r), "detail_commitment", Str(r.commitment), z, Str(CanonicalTs(at)));
    }
  }

  /** The hash a row gets from Go is one that Go accepts. */
  lemma GoAcceptsOwn(sha: string -> string, row: Row)
    requires KnownForm(row) && DetailOk(sha, row)
    ensures RowOk(sha, row.(hash := OwnDigest(sha, row)))
  {
    hide PyIso, CanonicalTs, Canon, HasDel;
    SameBut(row, OwnDigest(sha, row));
    assert DetailOk(sha, row.(hash := OwnDigest(sha, row)));
  }

  function OwnDigest(sha: string -> string, r: Row): string
  {
    Digest(sha, if FormOf(r) == "1" then Form1(r) else Form2(r), false)
  }

  /** No hash covers itself. */
  lemma SameBut(row: Row, h: string)
    ensures var r := row.(hash := h);
      && Form1(r) == Form1(row) && Form2(r) == Form2(row) && RowHasDel(r) == RowHasDel(row)
      && Portable(r) == Portable(row) && ReadDifferently(r) == ReadDifferently(row)
  {
    hide PyIso, CanonicalTs, HasDel;
  }

  /** A detail that Go finds not committed to is one that Python does. */
  lemma DetailsRejected(sha: string -> string, r: Row)
    requires !DetailOk(sha, r)
    ensures !PyDetailOk(sha, r)
  {
    hide PyIso, CanonicalTs, Canon, PyCanon, PyHasDel, RowHasDel;
    var d := PyDetail(r.detail);
    PyCanonIs(d, false);
    PyCanonIs(d, true);
    RowDel(r);
    HasDelIsInside(d);
    EncodingsCoincide(d);
  }

  /** A row that keeps its detail has a digest for a commitment. */
  lemma CommitmentIsDigest(sha: string -> string, r: Row)
    requires DigestLike(sha) && DetailOk(sha, r) && FormOf(r) == "2" && r.detail.Some?
    ensures DEL !in r.commitment
  {
    hide PyIso, CanonicalTs, Canon;
  }

  ghost predicate ChecksAgree(sha: string -> string, r: Row)
  {
    forall h: string :: PyRowOk(sha, r.(hash := h)) == RowOk(sha, r.(hash := h))
  }

  lemma PartOn(sha: string -> string, row: Row) returns (h: string)
    requires Collisionless(sha) && DigestLike(sha) && KnownForm(row) && DetailOk(sha, row) && !Portable(row)
    ensures PyRowOk(sha, row.(hash := h)) != RowOk(sha, row.(hash := h))
  {
    hide PyIso, CanonicalTs, Canon, PyCanon, RowOk, PyRowOk, RowHasDel, Digest;
    if ReadDifferently(row) {
      h := OwnDigest(sha, row);
      SameBut(row, h);
      GoAcceptsOwn(sha, row);
      OneRejects(sha, row.(hash := h));
    } else {
      if row.detail.Some? { CommitmentIsDigest(sha, row); }
      h := Digest(sha, Form2(row), true);
      DelInCommitmentAlone(sha, row);
    }
  }

  /** The two row checks give one answer on a row, whatever hash it carries, if
      and only if they read it alike or both refuse it before they hash. */
  lemma ChecksAgreeExactly(sha: string -> string, row: Row)
    requires Collisionless(sha) && DigestLike(sha)
    ensures ChecksAgree(sha, row) <==> !KnownForm(row) || !DetailOk(sha, row) || Portable(row)
  {
    hide HashMatches, PyHashMatches, RowHasDel, PyHasDel, Portable, Digest, DetailOk, PyDetailOk;
    if !KnownForm(row) || !DetailOk(sha, row) || Portable(row) {
      forall h: string ensures PyRowOk(sha, row.(hash := h)) == RowOk(sha, row.(hash := h)) {
        var r := row.(hash := h);
        SameBut(row, h);
        if Portable(row) {
          RowChecksAgree(sha, r);
        } else if KnownForm(row) {
          SameDetail(sha, row, h);
          DetailsRejected(sha, r);
        }
      }
    } else {
      var h := PartOn(sha, row);
    }
  }

  lemma SameDetail(sha: string -> string, row: Row, h: string)
    ensures DetailOk(sha, row.(hash := h)) == DetailOk(sha, row)
  {
    hide Commit;
    SameBut(row, h);
  }
}
