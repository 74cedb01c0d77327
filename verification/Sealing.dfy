/** What a row's hash covers: sealing a row, checking one, redacting one. The
    digest `sha` stands for hex SHA-256; nothing is known of it beyond what a
    lemma requires. */
module Sealing {
  import opened Text
  import opened Json
  import opened Encoders
  import opened Timestamps
  import opened Rows

  /** A digest is a non-empty text without DEL, as hex is. */
  ghost predicate DigestLike(sha: string -> string)
  {
    forall x :: sha(x) != "" && DEL !in sha(x)
  }

  /** No two texts have one digest. */
  ghost predicate Collisionless(sha: string -> string)
  {
    forall x, y :: sha(x) == sha(y) ==> x == y
  }

  /******* Hashed values *******/

  function FormOf(r: Row): string { if r.formId == "" then "1" else r.formId }

  function WireOf(r: Row): string { if r.wireVersion == "" then "1" else r.wireVersion }

  function DetailJson(d: Option<Members>): Json { Obj(if d.Some? then d.value else NoMembers) }

  function TenantJson(t: Option<string>): Json { if t.Some? then Str(t.value) else Null }

  /** The hashed members in key order. `payload` is detail or its commitment,
      whose keys sort to the same place. */
  function Hashed(r: Row, wire: string, payloadKey: string, payload: Json, ts: string, shipped: Json): Json
  {
    Obj(Who(r, What(r, payloadKey, payload, Link(r, Request(r, Origin(r, shipped, Place(r, When(r, wire, ts))))))))
  }

  function Who(r: Row, rest: Members): Members
  {
    Member("action", Str(r.action),
    Member("actor", Str(r.actor),
    Member("actor_kind", Str(r.actorKind),
    Member("canonical_form_id", Str(FormOf(r)), rest))))
  }

  function What(r: Row, payloadKey: string, payload: Json, rest: Members): Members
  {
    Member("category", Str(r.category),
    Member("code", Str(r.code),
    Member(payloadKey, payload,
    Member("domain", Str(r.domain),
    Member("id", Str(r.id), rest)))))
  }

  function Link(r: Row, rest: Members): Members
  {
    Member("method", Str(r.how),
    Member("monotonic_seq", Num(IntToken(r.seqNo)),
    Member("origin_id", Str(r.originId), rest)))
  }

  function Request(r: Row, rest: Members): Members
  {
    Member("prev_hash", Str(r.prevHash),
    Member("request_id", Str(r.requestId), rest))
  }

  function Origin(r: Row, shipped: Json, rest: Members): Members
  {
    Member("service_id", Str(r.serviceId),
    Member("severity", Str(r.severity),
    Member("shipped_at", shipped, rest)))
  }

  function Place(r: Row, rest: Members): Members
  {
    Member("source_node_id", Str(r.node),
    Member("target", Str(r.target), rest))
  }

  function When(r: Row, wire: string, ts: string): Members
  {
    Member("tenant_id", TenantJson(r.tenant),
    Member("timestamp", Str(ts),
    Member("wire_version", Str(wire), NoMembers)))
  }

  /** pyCanonicalRowMap, form "1". */
  function Form1(r: Row): Json { Hashed(r, WireOf(r), "detail", DetailJson(r.detail), PyIso(r.timestamp), Null) }

  /** Form "1" over the wire timestamp, as Python once sealed it. */
  function Form1Z(r: Row): Json { Hashed(r, WireOf(r), "detail", DetailJson(r.detail), CanonicalTs(r.timestamp), Null) }

  /** Form "2": the detail's commitment instead of the detail. */
  function Form2(r: Row): Json
  {
    Hashed(r, WireOf(r), "detail_commitment", Str(r.commitment), CanonicalTs(r.timestamp), Null)
  }

  /** Rows sealed with shipped_at already set were hashed over it. */
  function Form1Shipped(r: Row, at: Time): Json
  {
    Hashed(r, WireOf(r), "detail", DetailJson(r.detail), PyIso(r.timestamp), Str(PyIso(at)))
  }

  function Form1ZShipped(r: Row, at: Time): Json
  {
    Hashed(r, WireOf(r), "detail", DetailJson(r.detail), CanonicalTs(r.timestamp), Str(CanonicalTs(at)))
  }

  function Form2Shipped(r: Row, at: Time): Json
  {
    Hashed(r, WireOf(r), "detail_commitment", Str(r.commitment), CanonicalTs(r.timestamp), Str(CanonicalTs(at)))
  }

  function Digest(sha: string -> string, v: Json, rawDel: bool): string { sha(Canon(v, rawDel)) }

  function Commit(sha: string -> string, salt: string, detail: Option<Members>, rawDel: bool): string
  {
    sha(salt + Canon(DetailJson(detail), rawDel))
  }

  /******* Sealing *******/

  /** Seal: form "2", with a salt of its own unless the row brings one. */
  function Seal(sha: string -> string, prevHash: string, row: Row, freshSalt: string): Row
  {
    var salt := if row.salt == "" then freshSalt else row.salt;
    var r := row.(formId := "2", prevHash := prevHash, salt := salt, commitment := Commit(sha, salt, row.detail, false));
    r.(hash := Digest(sha, Form2(r), false))
  }

  /******* Checking: rowBreak *******/

  /** Whether the hash is the form's own, or form "1"'s legacy one, with
      shipped_at hashed as null. */
  predicate OwnHash(sha: string -> string, r: Row, rawDel: bool)
  {
    if FormOf(r) == "1" then r.hash == Digest(sha, Form1(r), rawDel) || r.hash == Digest(sha, Form1Z(r), rawDel)
    else r.hash == Digest(sha, Form2(r), rawDel)
  }

  /** Whether the hash covers the stored shipped_at. */
  predicate ShippedHash(sha: string -> string, r: Row, rawDel: bool)
  {
    r.shippedAt.Some? &&
    if FormOf(r) == "1" then
      || r.hash == Digest(sha, Form1Shipped(r, r.shippedAt.value), rawDel)
      || r.hash == Digest(sha, Form1ZShipped(r, r.shippedAt.value), rawDel)
    else r.hash == Digest(sha, Form2Shipped(r, r.shippedAt.value), rawDel)
  }

  predicate HashMatches(sha: string -> string, r: Row, rawDel: bool)
  {
    OwnHash(sha, r, rawDel) || ShippedHash(sha, r, rawDel)
  }

  /** The Go SDK looks for DEL only in what form "1" hashes. */
  predicate RowHasDel(r: Row) { HasDel(Form1(r)) }

  predicate KnownForm(r: Row) { FormOf(r) == "1" || FormOf(r) == "2" }

  /** A form "2" row that still has its detail must have the salt, and the
      commitment must be to that detail. */
  predicate DetailOk(sha: string -> string, r: Row)
  {
    FormOf(r) == "2" && r.detail.Some? ==>
      && r.salt != ""
      && (|| Commit(sha, r.salt, r.detail, false) == r.commitment
          || (RowHasDel(r) && Commit(sha, r.salt, r.detail, true) == r.commitment))
  }

  /** rowBreak reports nothing. */
  predicate RowOk(sha: string -> string, r: Row)
  {
    && KnownForm(r)
    && DetailOk(sha, r)
    && (HashMatches(sha, r, false) || (RowHasDel(r) && HashMatches(sha, r, true)))
  }

  /******* DEL in hashed values *******/

  /** Whether a string in `v` holds DEL. */
  predicate DelInside(v: Json)
  {
    match v
    case Str(s) => DEL in s
    case Arr(es) => DelInElems(es)
    case Obj(ms) => DelInMembers(ms)
    case _ => false
  }

  predicate DelInElems(es: Elems) { es.Elem? && (DelInside(es.head) || DelInElems(es.tail)) }

  predicate DelInMembers(ms: Members)
  {
    ms.Member? && (DEL in ms.key || DelInside(ms.value) || DelInMembers(ms.rest))
  }

  lemma {:induction false} DelInGoString(s: string)
    ensures DEL in GoString(s) <==> DEL in s
  {
    if s != "" {
      var g := GoChar(s[0]);
      if |g| > 2 { EscapeIsPlain(s[0]); }
      assert DEL in g <==> s[0] == DEL;
      DelInGoString(s[1..]);
      assert s == [s[0]] + s[1..];
    }
  }

  /** hasDEL looks at the encoded bytes; it finds DEL exactly when a string
      holds it. */
  lemma {:induction false} HasDelIsInside(v: Json)
    ensures HasDel(v) <==> DelInside(v)
    decreases v, 1
  {
    match v
    case Num(t) =>
      NumberChars(t);
      assert DEL !in t;
    case Str(s) => DelInGoString(s);
    case Arr(es) => if es.Elem? { ElemsDel(es); }
    case Obj(ms) => if ms.Member? { MembersDel(ms); }
    case _ =>
  }

  lemma {:induction false} ElemsDel(es: Elems)
    requires es.Elem?
    ensures DEL in GoElems(es) <==> DelInElems(es)
    decreases es, 0
  {
    HasDelIsInside(es.head);
    if es.tail.Elem? { ElemsDel(es.tail); }
  }

  lemma {:induction false} MembersDel(ms: Members)
    requires ms.Member?
    ensures DEL in GoMembers(ms) <==> DelInMembers(ms)
    decreases ms, 0
  {
    DelInGoString(ms.key);
    HasDelIsInside(ms.value);
    if ms.rest.Member? { MembersDel(ms.rest); }
  }

  /** DEL in a field that every form hashes. */
  predicate DelInFields(r: Row)
  {
    || DEL in r.action || DEL in r.actor || DEL in r.actorKind || DEL in FormOf(r) || DEL in r.category
    || DEL in r.code || DEL in r.domain || DEL in r.id || DEL in r.how
    || DEL in r.originId || DEL in r.prevHash || DEL in r.requestId || DEL in r.serviceId || DEL in r.severity
    || DEL in r.node || DEL in r.target || (r.tenant.Some? && DEL in r.tenant.value)
  }

  lemma MemberDel(k: string, v: Json, rest: Members)
    requires DEL !in k
    ensures DelInMembers(Member(k, v, rest)) == (DelInside(v) || DelInMembers(rest))
  {
  }

  lemma WhoDel(r: Row, rest: Members)
    ensures DelInMembers(Who(r, rest)) <==>
      DEL in r.action || DEL in r.actor || DEL in r.actorKind || DEL in FormOf(r) || DelInMembers(rest)
  {
    MemberDel("canonical_form_id", Str(FormOf(r)), rest);
    var m1 := Member("canonical_form_id", Str(FormOf(r)), rest);
    MemberDel("actor_kind", Str(r.actorKind), m1);
    var m2 := Member("actor_kind", Str(r.actorKind), m1);
    MemberDel("actor", Str(r.actor), m2);
    var m3 := Member("actor", Str(r.actor), m2);
    MemberDel("action", Str(r.action), m3);
  }

  lemma WhatDel(r: Row, k: string, payload: Json, rest: Members)
    requires DEL !in k
    ensures DelInMembers(What(r, k, payload, rest)) <==>
      DEL in r.category || DEL in r.code || DelInside(payload) || DEL in r.domain || DEL in r.id || DelInMembers(rest)
  {
    MemberDel("id", Str(r.id), rest);
    var m1 := Member("id", Str(r.id), rest);
    MemberDel("domain", Str(r.domain), m1);
    var m2 := Member("domain", Str(r.domain), m1);
    MemberDel(k, payload, m2);
    var m3 := Member(k, payload, m2);
    MemberDel("code", Str(r.code), m3);
    var m4 := Member("code", Str(r.code), m3);
    MemberDel("category", Str(r.category), m4);
  }

  lemma LinkDel(r: Row, rest: Members)
    ensures DelInMembers(Link(r, rest)) <==> DEL in r.how || DEL in r.originId || DelInMembers(rest)
  {
    MemberDel("origin_id", Str(r.originId), rest);
    var m1 := Member("origin_id", Str(r.originId), rest);
    MemberDel("monotonic_seq", Num(IntToken(r.seqNo)), m1);
    var m2 := Member("monotonic_seq", Num(IntToken(r.seqNo)), m1);
    MemberDel("method", Str(r.how), m2);
  }

  lemma RequestDel(r: Row, rest: Members)
    ensures DelInMembers(Request(r, rest)) <==> DEL in r.prevHash || DEL in r.requestId || DelInMembers(rest)
  {
    MemberDel("request_id", Str(r.requestId), rest);
    MemberDel("prev_hash", Str(r.prevHash), Member("request_id", Str(r.requestId), rest));
  }

  lemma OriginDel(r: Row, shipped: Json, rest: Members)
    ensures DelInMembers(Origin(r, shipped, rest)) <==>
      DEL in r.serviceId || DEL in r.severity || DelInside(shipped) || DelInMembers(rest)
  {
    MemberDel("shipped_at", shipped, rest);
    var m1 := Member("shipped_at", shipped, rest);
    MemberDel("severity", Str(r.severity), m1);
    var m2 := Member("severity", Str(r.severity), m1);
    MemberDel("service_id", Str(r.serviceId), m2);
  }

  lemma PlaceDel(r: Row, rest: Members)
    ensures DelInMembers(Place(r, rest)) <==> DEL in r.node || DEL in r.target || DelInMembers(rest)
  {
    MemberDel("target", Str(r.target), rest);
    MemberDel("source_node_id", Str(r.node), Member("target", Str(r.target), rest));
  }

  lemma WhenDel(r: Row, wire: string, ts: string)
    ensures DelInMembers(When(r, wire, ts)) <==> (r.tenant.Some? && DEL in r.tenant.value) || DEL in ts || DEL in wire
  {
    MemberDel("wire_version", Str(wire), NoMembers);
    var m1 := Member("wire_version", Str(wire), NoMembers);
    MemberDel("timestamp", Str(ts), m1);
    MemberDel("tenant_id", TenantJson(r.tenant), Member("timestamp", Str(ts), m1));
  }

  /** DEL in a hashed value is DEL in a field, the payload, the wire version or
      shipped_at. */
  lemma HashedDel(r: Row, wire: string, k: string, payload: Json, ts: string, shipped: Json)
    requires DEL !in k && DEL !in ts
    ensures HasDel(Hashed(r, wire, k, payload, ts, shipped)) <==>
      DelInFields(r) || DEL in wire || DelInside(payload) || DelInside(shipped)
  {
    var when := When(r, wire, ts);
    var place := Place(r, when);
    var origin := Origin(r, shipped, place);
    var request := Request(r, origin);
    var link := Link(r, request);
    var what := What(r, k, payload, link);
    WhenDel(r, wire, ts);
    PlaceDel(r, when);
    OriginDel(r, shipped, place);
    RequestDel(r, origin);
    LinkDel(r, request);
    WhatDel(r, k, payload, link);
    WhoDel(r, what);
    HasDelIsInside(Obj(Who(r, what)));
  }

  lemma TimesHaveNoDel(t: Time)
    ensures DEL !in PyIso(t) && DEL !in CanonicalTs(t)
  {
    var c := ToCivil(t);
    CanonicalText(c);
    assert DEL !in DateText(c);
    assert DEL !in ClockText(c);
  }
}
