/** The canonical encoding of a vote result, which is what gets signed. */
module VoteResults {
  import opened Bytes
  import opened Text

  /** b"CryptoCampus-Vote-Result-v1\x00" */
  const RESULT_DOMAIN: Bytes :=
    [67, 114, 121, 112, 116, 111, 67, 97, 109, 112, 117, 115, 45, 86, 111, 116, 101, 45, 82, 101, 115,
     117, 108, 116, 45, 118, 49, 0]

  const MAX_COUNT := 0xFFFF_FFFF_FFFF_FFFF

  /** The UUID parser: sixteen bytes, or None where it raises. Several spellings may give the same bytes. */
  type UuidParser = string -> Option<Bytes>

  /** An option id with its count. */
  type Tally = (string, int)

  ghost predicate ParsesSixteen(uuid: UuidParser) {
    forall s :: uuid(s).Some? ==> |uuid(s).value| == 16
  }

  predicate InRange(n: int) {
    0 <= n <= MAX_COUNT
  }

  lemma MaxFits()
    ensures Pow256(8) == MAX_COUNT + 1 && Pow256(4) == 0x1_0000_0000
  {
    assert Pow256(1) == 0x100;
    assert Pow256(2) == 0x1_0000;
    assert Pow256(3) == 0x100_0000;
    assert Pow256(5) == 0x100_0000_0000;
    assert Pow256(6) == 0x1_0000_0000_0000;
    assert Pow256(7) == 0x100_0000_0000_0000;
  }

  /** An eight-byte big-endian number. */
  function U64(n: int): (s: Bytes)
    requires InRange(n)
    ensures |s| == 8
  {
    MaxFits();
    BigEndian(n, 8)
  }

  lemma U64Injective(m: int, n: int)
    requires InRange(m) && InRange(n) && U64(m) == U64(n)
    ensures m == n
  {
    MaxFits();
    BigEndianRoundTrip(m, 8);
    BigEndianRoundTrip(n, 8);
  }

  predicate OptionOk(uuid: UuidParser, o: Tally) {
    uuid(o.0).Some? && InRange(o.1)
  }

  function Sum(counts: seq<Tally>): int {
    if counts == [] then 0 else Sum(counts[..|counts| - 1]) + counts[|counts| - 1].1
  }

  function OptionsPart(uuid: UuidParser, counts: seq<Tally>): (s: Bytes)
    requires forall i :: 0 <= i < |counts| ==> OptionOk(uuid, counts[i])
  {
    if counts == [] then []
    else
      var last := counts[|counts| - 1];
      assert OptionOk(uuid, last);
      OptionsPart(uuid, counts[..|counts| - 1]) + (uuid(last.0).value + U64(last.1))
  }

  predicate DistinctIds(counts: seq<Tally>) {
    forall i, j :: 0 <= i < j < |counts| ==> counts[i].0 != counts[j].0
  }

  /** What can be encoded: valid ids, each option once, counts and total in 64 bits, and a total that is the sum. */
  predicate Encodable(uuid: UuidParser, voteId: string, counts: seq<Tally>, total: int, isUtc: bool) {
    && uuid(voteId).Some? && isUtc && InRange(total)
    && DistinctIds(counts) && (forall i :: 0 <= i < |counts| ==> OptionOk(uuid, counts[i]))
    && Sum(counts) == total && |counts| < 0x1_0000_0000
  }

  function Layout(uuid: UuidParser, voteId: string, counts: seq<Tally>, total: int, publishedAt: Utc): Bytes
    requires Encodable(uuid, voteId, counts, total, true)
  {
    MaxFits();
    RESULT_DOMAIN + (uuid(voteId).value + (BigEndian(|counts|, 4) + (OptionsPart(uuid, counts)
    + (U64(total) + (BigEndian(27, 4) + CanonicalUtc(publishedAt))))))
  }

  /** `encode_vote_result`: None where it raises. */
  method EncodeVoteResult(uuid: UuidParser, voteId: string, orderedCounts: seq<Tally>, total: int, publishedAt: Utc,
                          isUtc: bool) returns (encoded: Option<Bytes>)
    ensures encoded.Some? <==> Encodable(uuid, voteId, orderedCounts, total, isUtc)
    ensures encoded.Some? ==> encoded.value == Layout(uuid, voteId, orderedCounts, total, publishedAt)
  {
    hide U64;
    if uuid(voteId).None? || !isUtc { return None; }
    if total < 0 || total > MAX_COUNT { return None; }
    var seen: set<string> := {};
    var calculated := 0;
    var part: Bytes := [];
    for i := 0 to |orderedCounts|
      invariant seen == set k | 0 <= k < i :: orderedCounts[k].0
      invariant DistinctIds(orderedCounts[..i])
      invariant forall k :: 0 <= k < i ==> OptionOk(uuid, orderedCounts[k])
      invariant calculated == Sum(orderedCounts[..i]) && part == OptionsPart(uuid, orderedCounts[..i])
    {
      var (id, count) := orderedCounts[i];
      assert orderedCounts[..i + 1][..i] == orderedCounts[..i];
      if id in seen {
        ghost var k :| 0 <= k < i && orderedCounts[k].0 == id;
        return None;
      }
      seen := seen + {id};
      if uuid(id).None? || count < 0 || count > MAX_COUNT { return None; }
      calculated := calculated + count;
      part := part + (uuid(id).value + U64(count));
    }
    assert orderedCounts[..|orderedCounts|] == orderedCounts;
    if calculated != total { return None; }
    if |orderedCounts| >= 0x1_0000_0000 { return None; }
    MaxFits();
    return Some(RESULT_DOMAIN + (uuid(voteId).value + (BigEndian(|orderedCounts|, 4) + (part
      + (U64(total) + (BigEndian(27, 4) + CanonicalUtc(publishedAt)))))));
  }

  /** The options as the encoding sees them: UUID bytes and counts, in order. */
  function Seen(uuid: UuidParser, counts: seq<Tally>): (r: seq<(Bytes, int)>)
    requires forall i :: 0 <= i < |counts| ==> OptionOk(uuid, counts[i])
    ensures |r| == |counts|
  {
    if counts == [] then []
    else
      var last := counts[|counts| - 1];
      assert OptionOk(uuid, last);
      Seen(uuid, counts[..|counts| - 1]) + [(uuid(last.0).value, last.1)]
  }

  lemma {:induction false} OptionsPartLength(uuid: UuidParser, a: seq<Tally>)
    requires ParsesSixteen(uuid) && forall i :: 0 <= i < |a| ==> OptionOk(uuid, a[i])
    ensures |OptionsPart(uuid, a)| == 24 * |a|
  {
    if a != [] { OptionsPartLength(uuid, a[..|a| - 1]); }
  }

  lemma {:induction false} OptionsPartInjective(uuid: UuidParser, a: seq<Tally>, b: seq<Tally>)
    requires ParsesSixteen(uuid) && |a| == |b|
    requires forall i :: 0 <= i < |a| ==> OptionOk(uuid, a[i])
    requires forall i :: 0 <= i < |b| ==> OptionOk(uuid, b[i])
    ensures OptionsPart(uuid, a) == OptionsPart(uuid, b) ==> Seen(uuid, a) == Seen(uuid, b)
  {
    hide U64;
    if a != [] {
      var a', b', x, y := a[..|a| - 1], b[..|b| - 1], a[|a| - 1], b[|b| - 1];
      OptionsPartInjective(uuid, a', b');
      OptionsPartLength(uuid, a');
      OptionsPartLength(uuid, b');
      if OptionsPart(uuid, a) == OptionsPart(uuid, b) {
        ConcatSplit(OptionsPart(uuid, a'), uuid(x.0).value + U64(x.1),
                    OptionsPart(uuid, b'), uuid(y.0).value + U64(y.1));
        ConcatSplit(uuid(x.0).value, U64(x.1), uuid(y.0).value, U64(y.1));
        U64Injective(x.1, y.1);
      }
    }
  }

  /** A signed result means one thing: equal encodings have the same vote, the same options in the same order
      with the same counts, the same total and the same time. */
  lemma LayoutInjective(uuid: UuidParser, v: string, a: seq<Tally>, s: int, t: Utc, w: string, b: seq<Tally>, r: int,
                        u: Utc)
    requires ParsesSixteen(uuid) && Encodable(uuid, v, a, s, true) && Encodable(uuid, w, b, r, true)
    requires Layout(uuid, v, a, s, t) == Layout(uuid, w, b, r, u)
    ensures uuid(v) == uuid(w) && Seen(uuid, a) == Seen(uuid, b) && s == r && t == u
  {
    hide U64, OptionsPart, CanonicalUtc, Sum, BigEndian, Seen;
    MaxFits();
    var a0, b0 := BigEndian(27, 4) + CanonicalUtc(t), BigEndian(27, 4) + CanonicalUtc(u);
    var a1, b1 := U64(s) + a0, U64(r) + b0;
    var a2, b2 := OptionsPart(uuid, a) + a1, OptionsPart(uuid, b) + b1;
    var a3, b3 := BigEndian(|a|, 4) + a2, BigEndian(|b|, 4) + b2;
    ConcatSplit(RESULT_DOMAIN, uuid(v).value + a3, RESULT_DOMAIN, uuid(w).value + b3);
    ConcatSplit(uuid(v).value, a3, uuid(w).value, b3);
    ConcatSplit(BigEndian(|a|, 4), a2, BigEndian(|b|, 4), b2);
    BigEndianRoundTrip(|a|, 4);
    BigEndianRoundTrip(|b|, 4);
    OptionsPartInjective(uuid, a, b);
    OptionsPartLength(uuid, a);
    OptionsPartLength(uuid, b);
    ConcatSplit(OptionsPart(uuid, a), a1, OptionsPart(uuid, b), b1);
    ConcatSplit(U64(s), a0, U64(r), b0);
    U64Injective(s, r);
    ConcatSplit(BigEndian(27, 4), CanonicalUtc(t), BigEndian(27, 4), CanonicalUtc(u));
    CanonicalUtcInjective(t, u);
  }
}
