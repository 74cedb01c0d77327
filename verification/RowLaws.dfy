/** What a row that checks out keeps through the store's updates, what its
    hash pins down, and where the two SDKs' row checks agree. */
module RowLaws {
  import opened Text
  import opened Json
  import opened Brackets
  import opened Encoders
  import opened Timestamps
  import opened Rows
  import opened Sealing

  /******* Updates *******/

  /** mark_shipped. */
  function Ship(r: Row, at: Time): Row { r.(shippedAt := Some(at)) }

  /** Redaction: detail and its salt go, the commitment stays. */
  function Redacted(r: Row): Row { r.(detail := None, salt := "") }

  /** What the insert statement writes: defaults for an empty form and wire. */
  function AsStored(r: Row): Row { r.(formId := FormOf(r), wireVersion := WireOf(r)) }

  /** A row as `Seal` leaves it, possibly shipped or redacted since. */
  predicate WellSealed(sha: string -> string, r: Row)
  {
    && r.formId == "2"
    && r.hash == Digest(sha, Form2(r), false)
    && (r.detail.Some? ==> r.salt != "" && r.commitment == Commit(sha, r.salt, r.detail, false))
  }

  lemma WellSealedOk(sha: string -> string, r: Row)
    requires WellSealed(sha, r)
    ensures RowOk(sha, r)
  {
    hide PyIso, CanonicalTs, Canon;
  }

  lemma SealIsWellSealed(sha: string -> string, prevHash: string, row: Row, salt: string)
    requires salt != ""
    ensures WellSealed(sha, Seal(sha, prevHash, row, salt))
  {
  }

  lemma UpdatesKeepSeal(sha: string -> string, r: Row, at: Time)
    requires WellSealed(sha, r)
    ensures WellSealed(sha, Ship(r, at)) && WellSealed(sha, Redacted(r)) && WellSealed(sha, AsStored(r))
  {
    hide PyIso, CanonicalTs, Canon;
  }

  /** Rows that differ only in what no hash covers. */
  predicate SameInputs(a: Row, b: Row)
  {
    && SameFields(a, b) && WireOf(a) == WireOf(b)
    && DetailJson(a.detail) == DetailJson(b.detail) && a.commitment == b.commitment
  }

  predicate SameFields(a: Row, b: Row)
  {
    && a.id == b.id && a.originId == b.originId && a.seqNo == b.seqNo && a.timestamp == b.timestamp
    && a.code == b.code && a.action == b.action && a.severity == b.severity && a.serviceId == b.serviceId
    && a.node == b.node && a.tenant == b.tenant && a.actor == b.actor && a.actorKind == b.actorKind
    && a.target == b.target && a.category == b.category && a.domain == b.domain && a.how == b.how
    && a.requestId == b.requestId && a.prevHash == b.prevHash && FormOf(a) == FormOf(b)
  }

  lemma HashedSame(a: Row, b: Row, wire: string, k: string, payload: Json, ts: string, shipped: Json)
    requires SameFields(a, b)
    ensures Hashed(a, wire, k, payload, ts, shipped) == Hashed(b, wire, k, payload, ts, shipped)
  {
  }

  lemma SameHashes(sha: string -> string, a: Row, b: Row, rawDel: bool)
    requires SameInputs(a, b) && a.hash == b.hash
    ensures RowHasDel(a) == RowHasDel(b) && OwnHash(sha, a, rawDel) == OwnHash(sha, b, rawDel)
    ensures a.shippedAt == b.shippedAt ==> ShippedHash(sha, a, rawDel) == ShippedHash(sha, b, rawDel)
  {
    hide PyIso, CanonicalTs, Canon, Hashed, HasDel;
    var w, d, c, iso, z := WireOf(a), DetailJson(a.detail), Str(a.commitment), PyIso(a.timestamp), CanonicalTs(a.timestamp);
    HashedSame(a, b, w, "detail", d, iso, Null);
    HashedSame(a, b, w, "detail", d, z, Null);
    HashedSame(a, b, w, "detail_commitment", c, z, Null);
    if a.shippedAt.Some? {
      var at := a.shippedAt.value;
      HashedSame(a, b, w, "detail", d, iso, Str(PyIso(at)));
      HashedSame(a, b, w, "detail", d, z, Str(CanonicalTs(at)));
      HashedSame(a, b, w, "detail_commitment", c, z, Str(CanonicalTs(at)));
    }
  }

  lemma StoredRowChecks(sha: string -> string, r: Row)
    ensures RowOk(sha, AsStored(r)) == RowOk(sha, r)
  {
    hide PyIso, CanonicalTs, Canon, Hashed, HasDel, OwnHash, ShippedHash, RowHasDel;
    SameHashes(sha, r, AsStored(r), false);
    SameHashes(sha, r, AsStored(r), true);
  }

  /******* What a hash pins down *******/

  /** Every field a hash covers, whatever the form. */
  predicate SameHashed(a: Row, b: Row)
  {
    && a.id == b.id && a.originId == b.originId && a.seqNo == b.seqNo && a.timestamp == b.timestamp
    && a.code == b.code && a.action == b.action && a.severity == b.severity && a.serviceId == b.serviceId
    && a.node == b.node && a.tenant == b.tenant && a.actor == b.actor && a.actorKind == b.actorKind
    && a.target == b.target && a.category == b.category && a.domain == b.domain && a.how == b.how
    && a.requestId == b.requestId && WireOf(a) == WireOf(b) && a.prevHash == b.prevHash && FormOf(a) == FormOf(b)
    && (if FormOf(a) == "1" then DetailJson(a.detail) == DetailJson(b.detail) else a.commitment == b.commitment)
  }

  function PayloadKey(r: Row): string { if FormOf(r) == "1" then "detail" else "detail_commitment" }

  function Payload(r: Row): Json { if FormOf(r) == "1" then DetailJson(r.detail) else Str(r.commitment) }

  /** The text whose digest a good row's hash is. */
  lemma HashedText(sha: string -> string, r: Row) returns (v: Json, rawDel: bool, ts: string, shipped: Json)
    requires RowOk(sha, r)
    ensures r.hash == Digest(sha, v, rawDel)
    ensures v == Hashed(r, WireOf(r), PayloadKey(r), Payload(r), ts, shipped)
    ensures ts == PyIso(r.timestamp) || ts == CanonicalTs(r.timestamp)
  {
    hide PyIso, CanonicalTs, Canon;
    rawDel := !HashMatches(sha, r, false);
    ts, shipped := CanonicalTs(r.timestamp), Null;
    if FormOf(r) == "1" {
      if r.hash == Digest(sha, Form1(r), rawDel) {
        ts := PyIso(r.timestamp);
      } else if r.hash != Digest(sha, Form1Z(r), rawDel) {
        if r.hash == Digest(sha, Form1Shipped(r, r.shippedAt.value), rawDel) {
          ts, shipped := PyIso(r.timestamp), Str(PyIso(r.shippedAt.value));
        } else {
          shipped := Str(CanonicalTs(r.shippedAt.value));
        }
      }
    } else if r.hash != Digest(sha, Form2(r), rawDel) {
      shipped := Str(CanonicalTs(r.shippedAt.value));
    }
    v := Hashed(r, WireOf(r), PayloadKey(r), Payload(r), ts, shipped);
  }

  lemma HashedInjective(a: Row, wa: string, ka: string, pa: Json, ta: string, sa: Json,
                        b: Row, wb: string, kb: string, pb: Json, tb: string, sb: Json)
    requires Hashed(a, wa, ka, pa, ta, sa) == Hashed(b, wb, kb, pb, tb, sb)
    ensures a.id == b.id && a.originId == b.originId && a.seqNo == b.seqNo && a.code == b.code && a.action == b.action
    ensures a.severity == b.severity && a.serviceId == b.serviceId && a.node == b.node && a.tenant == b.tenant
    ensures a.actor == b.actor && a.actorKind == b.actorKind && a.target == b.target && a.category == b.category
    ensures a.domain == b.domain && a.how == b.how && a.requestId == b.requestId && a.prevHash == b.prevHash
    ensures FormOf(a) == FormOf(b) && wa == wb && ka == kb && pa == pb && ta == tb && sa == sb
  {
    var la, lb := Link(a, Request(a, Origin(a, sa, Place(a, When(a, wa, ta))))),
                  Link(b, Request(b, Origin(b, sb, Place(b, When(b, wb, tb)))));
    assert What(a, ka, pa, la) == What(b, kb, pb, lb);
    assert la == lb;
    assert IntToken(a.seqNo) == IntToken(b.seqNo);
    SignedDecimalInjective(a.seqNo, b.seqNo);
    assert TenantJson(a.tenant) == TenantJson(b.tenant);
  }

  /** Two rows that check out and have one hash agree on everything hashed,
      whichever form, timestamp spelling and DEL encoding each was sealed with. */
  lemma HashPinsRow(sha: string -> string, a: Row, b: Row)
    requires Collisionless(sha)
    requires RowOk(sha, a) && RowOk(sha, b) && a.hash == b.hash
    ensures SameHashed(a, b)
  {
    var va, ra, ta, sa := HashedText(sha, a);
    var vb, rb, tb, sb := HashedText(sha, b);
    assert Canon(va, ra) == Canon(vb, rb);
    CanonInjective(va, ra, vb, rb);
    HashedInjective(a, WireOf(a), PayloadKey(a), Payload(a), ta, sa, b, WireOf(b), PayloadKey(b), Payload(b), tb, sb);
    TimePinned(a.timestamp, b.timestamp, ta);
  }

  lemma TimePinned(t: Time, u: Time, text: string)
    requires text == PyIso(t) || text == CanonicalTs(t)
    requires text == PyIso(u) || text == CanonicalTs(u)
    ensures t == u
  {
    RenderingsDisjoint(t, u);
    RenderingsDisjoint(u, t);
    if text == PyIso(t) { PyIsoInjective(t, u); } else { CanonicalInjective(t, u); }
  }

  /** Under form "2" the commitment pins the detail too, while it is kept: the
      salt is any text, and yet the detail's text splits off in one way. */
  lemma CommitmentPinsDetail(sha: string -> string, a: Row, b: Row, rawA: bool, rawB: bool)
    requires Collisionless(sha) && a.commitment == b.commitment
    requires a.commitment == Commit(sha, a.salt, a.detail, rawA) && b.commitment == Commit(sha, b.salt, b.detail, rawB)
    ensures a.salt == b.salt && DetailJson(a.detail) == DetailJson(b.detail)
  {
    hide Canon;
    var x, y := DetailJson(a.detail), DetailJson(b.detail);
    assert a.salt + Canon(x, rawA) == b.salt + Canon(y, rawB);
    ObjectSplits(a.salt, x.members, rawA, b.salt, y.members, rawB);
    CanonInjective(x, rawA, y, rawB);
  }

  /******* Redaction *******/

  lemma RowDel(r: Row)
    ensures RowHasDel(r) <==> DelInFields(r) || DEL in WireOf(r) || DelInside(DetailJson(r.detail))
  {
    hide PyIso, CanonicalTs, Canon;
    TimesHaveNoDel(r.timestamp);
    assert DEL !in "detail";
    HashedDel(r, WireOf(r), "detail", DetailJson(r.detail), PyIso(r.timestamp), Null);
  }

  lemma Form2Del(r: Row, shipped: Json)
    ensures HasDel(Hashed(r, WireOf(r), "detail_commitment", Str(r.commitment), CanonicalTs(r.timestamp), shipped)) <==>
      DelInFields(r) || DEL in WireOf(r) || DEL in r.commitment || DelInside(shipped)
  {
    hide PyIso, CanonicalTs, Canon;
    TimesHaveNoDel(r.timestamp);
    assert DEL !in "detail_commitment";
    HashedDel(r, WireOf(r), "detail_commitment", Str(r.commitment), CanonicalTs(r.timestamp), shipped);
  }

  /** Without DEL in what form "2" hashes, raw and escaped DEL give one text. */
  lemma NoDelNoDifference(sha: string -> string, r: Row)
    requires FormOf(r) == "2" && !DelInFields(r) && DEL !in WireOf(r) && DEL !in r.commitment
    ensures HashMatches(sha, r, true) == HashMatches(sha, r, false)
  {
    hide PyIso, CanonicalTs, Canon;
    Form2Del(r, Null);
    EncodingsCoincide(Form2(r));
    if r.shippedAt.Some? {
      TimesHaveNoDel(r.shippedAt.value);
      Form2Del(r, Str(CanonicalTs(r.shippedAt.value)));
      EncodingsCoincide(Form2Shipped(r, r.shippedAt.value));
    }
  }

  lemma RedactedHash(sha: string -> string, r: Row, rawDel: bool)
    requires FormOf(r) == "2"
    ensures HashMatches(sha, Redacted(r), rawDel) == HashMatches(sha, r, rawDel)
  {
    hide PyIso, CanonicalTs, Canon;
  }

  /** Redacting a form "2" row that checks out by either encoding leaves a row
      that still does. */
  lemma RedactKeepsRow(sha: string -> string, r: Row)
    requires DigestLike(sha) && RowOk(sha, r) && FormOf(r) == "2"
    ensures RowOk(sha, Redacted(r))
  {
    hide PyIso, CanonicalTs, Canon;
    RedactedHash(sha, r, false);
    if !HashMatches(sha, r, false) {
      RedactedHash(sha, r, true);
      RowDel(r);
      RowDel(Redacted(r));
      if !DelInFields(r) && DEL !in WireOf(r) && r.detail.Some? {
        assert DEL !in r.commitment;
        NoDelNoDifference(sha, r);
      }
    }
  }

  /** A sealed form "1" row survives redaction only if it had no detail, which
      is why the stores refuse one. */
  lemma RedactForm1(sha: string -> string, r: Row)
    requires Collisionless(sha) && RowOk(sha, r) && FormOf(r) == "1"
    ensures RowOk(sha, Redacted(r)) <==> DetailJson(r.detail) == Obj(NoMembers)
  {
    hide PyIso, CanonicalTs, Canon, Hashed, HasDel, OwnHash, ShippedHash, RowHasDel;
    if RowOk(sha, Redacted(r)) {
      HashPinsRow(sha, r, Redacted(r));
    }
    if DetailJson(r.detail) == Obj(NoMembers) {
      SameHashes(sha, r, Redacted(r), false);
      SameHashes(sha, r, Redacted(r), true);
    }
  }

  /******* Shipping *******/

  /** The hash covers shipped_at as null, by either DEL encoding. */
  predicate HashedUnshipped(sha: string -> string, r: Row)
  {
    OwnHash(sha, r, false) || (RowHasDel(r) && OwnHash(sha, r, true))
  }

  /** Marking a row shipped keeps it good exactly when its hash covers
      shipped_at as null, or the stored time is the one it was sealed over. */
  lemma ShipKeepsRow(sha: string -> string, r: Row, at: Time)
    requires Collisionless(sha) && RowOk(sha, r)
    ensures RowOk(sha, Ship(r, at)) <==> HashedUnshipped(sha, r) || r.shippedAt == Some(at)
  {
    hide PyIso, CanonicalTs, Canon;
    var s := Ship(r, at);
    ShippedDetail(sha, r, at);
    if RowOk(sha, s) && !HashedUnshipped(sha, r) {
      var raw := !ShippedHash(sha, s, false);
      var raw' := !ShippedHash(sha, r, false);
      ShippedTimePinned(sha, r, at, raw, raw');
    } else if r.shippedAt == Some(at) {
      assert s == r;
    }
  }

  lemma ShippedDetail(sha: string -> string, r: Row, at: Time)
    ensures DetailOk(sha, Ship(r, at)) == DetailOk(sha, r) && KnownForm(Ship(r, at)) == KnownForm(r)
    ensures HashedUnshipped(sha, Ship(r, at)) == HashedUnshipped(sha, r)
  {
    hide PyIso, CanonicalTs, Canon, Hashed, HasDel, OwnHash, RowHasDel;
    SameHashes(sha, r, Ship(r, at), false);
    SameHashes(sha, r, Ship(r, at), true);
  }

  lemma ShippedTimePinned(sha: string -> string, r: Row, at: Time, raw: bool, raw': bool)
    requires Collisionless(sha) && ShippedHash(sha, Ship(r, at), raw) && ShippedHash(sha, r, raw') && KnownForm(r)
    ensures r.shippedAt == Some(at)
  {
    hide PyIso, CanonicalTs, Canon;
    var v, text := ShippedText(sha, Ship(r, at), raw);
    var w, text' := ShippedText(sha, r, raw');
    CanonInjective(v, raw, w, raw');
    var k, p := PayloadKey(r), Payload(r);
    var ts :| (ts == PyIso(r.timestamp) || ts == CanonicalTs(r.timestamp)) && v == Hashed(Ship(r, at), WireOf(r), k, p, ts, Str(text));
    var ts' :| (ts' == PyIso(r.timestamp) || ts' == CanonicalTs(r.timestamp)) && w == Hashed(r, WireOf(r), k, p, ts', Str(text'));
    HashedInjective(Ship(r, at), WireOf(r), k, p, ts, Str(text), r, WireOf(r), k, p, ts', Str(text'));
    TimePinned(at, r.shippedAt.value, text);
  }

  lemma ShippedText(sha: string -> string, r: Row, raw: bool) returns (v: Json, text: string)
    requires ShippedHash(sha, r, raw) && KnownForm(r)
    ensures r.hash == Digest(sha, v, raw)
    ensures text == PyIso(r.shippedAt.value) || text == CanonicalTs(r.shippedAt.value)
    ensures exists ts :: (ts == PyIso(r.timestamp) || ts == CanonicalTs(r.timestamp))
                         && v == Hashed(r, WireOf(r), PayloadKey(r), Payload(r), ts, Str(text))
  {
    hide PyIso, CanonicalTs, Canon;
    var at := r.shippedAt.value;
    var ts := CanonicalTs(r.timestamp);
    text := CanonicalTs(at);
    if FormOf(r) == "1" && r.hash == Digest(sha, Form1Shipped(r, at), raw) {
      ts, text := PyIso(r.timestamp), PyIso(at);
    }
    v := Hashed(r, WireOf(r), PayloadKey(r), Payload(r), ts, Str(text));
  }
}
