/** The keys that Go joins from two strings with a NUL between: when they tell
    apart what the pair tells apart, and what happens when they do not. */
module JoinedKeys {
  import opened Text
  import opened Rows
  import opened Verify
  import opened Copies
  import opened VerifyLaws
  import opened GoVerifier

  /** The node of `b` goes on where the node of `a` ends and the id of `a`
      begins. */
  predicate Overlaps(a: Row, b: Row)
  {
    var n := |a.node|;
    && n < |b.node| && b.node[..n] == a.node && b.node[n] == NUL
    && a.id == b.node[n + 1..] + ([NUL] + b.id)
  }

  lemma OverlapJoins(a: Row, b: Row)
    requires Overlaps(a, b)
    ensures JoinedKey(a) == JoinedKey(b)
  {
    var rest := b.node[|a.node| + 1..];
    assert b.node == a.node + ([NUL] + rest);
    Assoc(a.node, [NUL] + rest, [NUL] + b.id);
    Assoc([NUL], rest, [NUL] + b.id);
  }

  lemma JoinedOverlap(a: Row, b: Row)
    requires JoinedKey(a) == JoinedKey(b) && |a.node| <= |b.node|
    ensures SameRow(a, b) || Overlaps(a, b)
  {
    var n, j, k := |a.node|, JoinedKey(a), JoinedKey(b);
    assert j[..n] == a.node && j[n] == NUL && j[n + 1..] == a.id;
    assert k[..|b.node|] == b.node && k[|b.node| + 1..] == b.id;
    if n < |b.node| {
      assert b.node[..n] == k[..n] && b.node[n] == k[n];
      assert k[n + 1..] == b.node[n + 1..] + ([NUL] + b.id);
    }
  }

  /** Two rows have one key exactly when they are copies of one row, or a NUL in
      one node id makes its rest read as the other's id. */
  lemma JoinedKeyExact(a: Row, b: Row)
    ensures JoinedKey(a) == JoinedKey(b) <==> SameRow(a, b) || Overlaps(a, b) || Overlaps(b, a)
  {
    hide Overlaps, JoinedKey;
    if JoinedKey(a) == JoinedKey(b) {
      if |a.node| <= |b.node| { JoinedOverlap(a, b); } else { JoinedOverlap(b, a); }
    }
    if Overlaps(a, b) { OverlapJoins(a, b); }
    if Overlaps(b, a) { OverlapJoins(b, a); }
    if SameRow(a, b) { JoinedCovers(); }
  }

  /** So rows whose node ids hold no NUL have faithful keys. */
  lemma NoNulFaithful(rows: seq<Row>)
    requires forall r | r in rows :: NUL !in r.node
    ensures Faithful(JoinedKey, rows)
  {
    hide JoinedKey;
    forall a, b | a in rows && b in rows && JoinedKey(a) == JoinedKey(b) ensures SameRow(a, b) { JoinedKeyExact(a, b); }
  }

  /** So do rows of one node. */
  lemma OneNodeFaithful(rows: seq<Row>, node: string)
    requires forall r | r in rows :: r.node == node
    ensures Faithful(JoinedKey, rows)
  {
    hide JoinedKey;
    forall a, b | a in rows && b in rows && JoinedKey(a) == JoinedKey(b) ensures SameRow(a, b) { JoinedKeyExact(a, b); }
  }

  /** Go and Python look at the same copies exactly when the keys are faithful
      on the rows given. */
  lemma SameCopiesExactly(check: Row -> bool, rows: seq<Row>)
    ensures KeptBy(JoinedKey, rows) == Kept(rows) <==> Faithful(JoinedKey, rows)
  {
    hide KeptBy, Kept, JoinedKey, Faithful;
    JoinedCovers();
    if Faithful(JoinedKey, rows) {
      FaithfulKept(JoinedKey, check, rows);
    } else {
      OneIsLost(rows);
    }
  }

  lemma OneIsLost(rows: seq<Row>)
    requires !Faithful(JoinedKey, rows)
    ensures KeptBy(JoinedKey, rows) != Kept(rows)
  {
    hide KeptBy, Kept, JoinedKey;
    var a, b :| a in rows && b in rows && JoinedKey(a) == JoinedKey(b) && !SameRow(a, b);
    var i :| 0 <= i < |rows| && rows[i] == a;
    var j :| 0 <= j < |rows| && rows[j] == b;
    KeptCovers(rows, i);
    KeptCovers(rows, j);
    var x :| x in Kept(rows) && SameRow(x, a);
    var y :| y in Kept(rows) && SameRow(y, b);
    JoinedCovers();
    KeptKeysDiffer(JoinedKey, rows);
    var m :| 0 <= m < |Kept(rows)| && Kept(rows)[m] == x;
    var n :| 0 <= n < |Kept(rows)| && Kept(rows)[n] == y;
    assert m != n && JoinedKey(x) == JoinedKey(y);
  }

  /** Two good rows of two nodes that share a key: Go drops the second and
      reports a break, Python keeps both and finds none. */
  lemma SharedKeyBreaks(check: Row -> bool, a: Row, b: Row)
    requires JoinedKey(a) == JoinedKey(b) && a.node != b.node
    requires a.Sealed() && b.Sealed() && a.hash != b.hash && check(a) && check(b)
    ensures KeptBy(JoinedKey, [a, b]) == [a] && Kept([a, b]) == [a, b]
    ensures FirstBreakBy(JoinedKey, check, [a, b], [], false).Some? && FirstBreak(check, [a, b], [], false) == None
  {
    hide Least, Kept, KeptBy, JoinedKey, CopyBreaksBy, Broken, ChainBreaks, CheckpointBreaks, FirstBreak;
    assert Distinct([a, b]);
    GivenOnce(check, [a, b]);
    IntactRows(check, [a, b]);
    AloneIntact(check, a, b);
    AloneIntact(check, b, a);
    assert RowSet([a, b]) == {a, b} == {b, a};
    SharedKept(check, a, b);
  }

  lemma AloneIntact(check: Row -> bool, a: Row, b: Row)
    requires a.node != b.node && a.Sealed() && check(a)
    ensures !Broken(check, {a, b}, a)
  {
  }

  lemma SharedKept(check: Row -> bool, a: Row, b: Row)
    requires JoinedKey(a) == JoinedKey(b) && a.Sealed() && b.Sealed() && a.hash != b.hash
    ensures KeptBy(JoinedKey, [a, b]) == [a] && LowerSeq(b, a) in CopyBreaksBy(JoinedKey, check, [a, b])
  {
    hide JoinedKey;
    assert [a, b][..1] == [a] && [a][..0] == [];
    assert KeptBy(JoinedKey, [a]) == [a];
    assert IndexBy(JoinedKey, [a], b) == 0;
  }

  /** Such rows, for any two parts of a node id. */
  lemma SharedKey(r: Row, node: string, middle: string, id: string)
    ensures var a, b := r.(node := node, id := middle + ([NUL] + id)), r.(node := node + ([NUL] + middle), id := id);
      JoinedKey(a) == JoinedKey(b) && a.node != b.node
  {
    var a, b := r.(node := node, id := middle + ([NUL] + id)), r.(node := node + ([NUL] + middle), id := id);
    Assoc(node, [NUL] + middle, [NUL] + id);
    Assoc([NUL], middle, [NUL] + id);
    assert |a.node| < |b.node|;
  }

  function SeqKey(node: string, seqNo: int): string { node + ([NUL] + SignedDecimal(seqNo)) }

  lemma NoNulInDecimal(n: int)
    ensures NUL !in SignedDecimal(n)
  {
  }

  /** The key of node and seq is always faithful: no number holds a NUL. */
  lemma SeqKeyFaithful(m: string, x: int, n: string, y: int)
    ensures SeqKey(m, x) == SeqKey(n, y) <==> m == n && x == y
  {
    hide SignedDecimal;
    var d, e := SignedDecimal(x), SignedDecimal(y);
    NoNulInDecimal(x);
    NoNulInDecimal(y);
    if SeqKey(m, x) == SeqKey(n, y) {
      var j, k := SeqKey(m, x), SeqKey(n, y);
      assert j[|m|] == NUL && k[|n|] == NUL;
      assert forall i | |m| < i < |j| :: j[i] == d[i - |m| - 1] && j[i] in d;
      assert forall i | |n| < i < |k| :: k[i] == e[i - |n| - 1] && k[i] in e;
      assert |m| == |n|;
      assert j[..|m|] == m && k[..|m|] == n && j[|m| + 1..] == d && k[|m| + 1..] == e;
      SignedDecimalInjective(x, y);
    }
  }
}
