/** The public revocation log: a hash chain rebuilt and checked from an unordered bag of rows. */
module RevocationLog {
  import opened Bytes
  import opened Text
  import opened HashChain

  /** b"CryptoCampus-Hole-Revocation-v1\x00" */
  const REVOCATION_DOMAIN: Bytes :=
    [67, 114, 121, 112, 116, 111, 67, 97, 109, 112, 117, 115, 45, 72, 111, 108, 101, 45,
     82, 101, 118, 111, 99, 97, 116, 105, 111, 110, 45, 118, 49, 0]

  const GENESIS_HASH: Bytes :=
    [0, 0, 0, 0, 0, 0, 0, 0, 0, 0, 0, 0, 0, 0, 0, 0, 0, 0, 0, 0, 0, 0, 0, 0, 0, 0, 0, 0, 0, 0, 0, 0]

  /** The columns beside the two hashes; the operator is stored but never hashed. */
  datatype Revocation = Revocation(sn: Bytes, reason: string, operator: string, ts: Utc)

  type Entry = Row<Bytes, Revocation>

  type Digest = Bytes -> Bytes

  function NormalizeReason(reason: string): Option<string> {
    var stripped := Strip(reason);
    if 1 <= |stripped| <= 500 then Some(stripped) else None
  }

  function Framed(hashPrev: Bytes, sn: Bytes, text: Bytes, ts: Utc): Bytes
    requires FitsPrefix(sn) && FitsPrefix(text)
  {
    TimestampFits(ts);
    REVOCATION_DOMAIN + (hashPrev + (LengthPrefix(sn) + (LengthPrefix(text) + LengthPrefix(CanonicalUtc(ts)))))
  }

  /** `encode_revocation_entry`, or None where the code raises. */
  function EncodeRevocationEntry(hashPrev: Bytes, sn: Bytes, reason: string, ts: Utc): Option<Bytes> {
    if |hashPrev| != 32 || |sn| < 16 || NormalizeReason(reason).None? then None
    else
      var text := Utf8(NormalizeReason(reason).value);
      if !FitsPrefix(sn) || !FitsPrefix(text) then None else Some(Framed(hashPrev, sn, text, ts))
  }

  /** An entry can be encoded exactly when the predecessor has 32 bytes, the serial number at least 16, and
      the reason between 1 and 500 characters besides outer whitespace. */
  lemma EncodableIff(hashPrev: Bytes, sn: Bytes, reason: string, ts: Utc)
    ensures EncodeRevocationEntry(hashPrev, sn, reason, ts).Some? <==>
              |hashPrev| == 32 && 16 <= |sn| < 0x1_0000_0000 && 1 <= |Strip(reason)| <= 500
  {
    Utf8Size(Strip(reason));
    assert Pow256(4) == 0x1_0000_0000;
  }

  lemma FramedInjective(p: Bytes, s: Bytes, x: Bytes, t: Utc, q: Bytes, r: Bytes, y: Bytes, u: Utc)
    requires FitsPrefix(s) && FitsPrefix(x) && FitsPrefix(r) && FitsPrefix(y) && |p| == |q|
    requires Framed(p, s, x, t) == Framed(q, r, y, u)
    ensures p == q && s == r && x == y && t == u
  {
    TimestampFits(t);
    TimestampFits(u);
    var t0, u0 := LengthPrefix(CanonicalUtc(t)), LengthPrefix(CanonicalUtc(u));
    var t1, u1 := LengthPrefix(x) + t0, LengthPrefix(y) + u0;
    var t2, u2 := LengthPrefix(s) + t1, LengthPrefix(r) + u1;
    ConcatSplit(REVOCATION_DOMAIN, p + t2, REVOCATION_DOMAIN, q + u2);
    ConcatSplit(p, t2, q, u2);
    LengthPrefixSelfDelimiting(s, t1, r, u1);
    LengthPrefixSelfDelimiting(x, t0, y, u0);
    assert t0 + [] == t0 && u0 + [] == u0;
    LengthPrefixSelfDelimiting(CanonicalUtc(t), [], CanonicalUtc(u), []);
    CanonicalUtcInjective(t, u);
  }

  /** Two encodings agree only if every encoded field agrees (reasons up to surrounding whitespace). */
  lemma EncodingInjective(p: Bytes, s: Bytes, x: string, t: Utc, q: Bytes, r: Bytes, y: string, u: Utc)
    requires EncodeRevocationEntry(p, s, x, t).Some?
    requires EncodeRevocationEntry(p, s, x, t) == EncodeRevocationEntry(q, r, y, u)
    ensures p == q && s == r && Strip(x) == Strip(y) && t == u
  {
    FramedInjective(p, s, Utf8(Strip(x)), t, q, r, Utf8(Strip(y)), u);
    Utf8Injective(Strip(x), Strip(y));
  }

  /** The column checks of the first pass that do not concern links between rows. */
  predicate ColumnsOk(e: Entry) {
    && |e.curr| == 32
    && e.prev.Some? && |e.prev.value| == 32
    && e.curr != e.prev.value
    && |e.body.sn| >= 16
    && Strip(e.body.reason) == e.body.reason && 1 <= |e.body.reason| <= 500
  }

  function Encoded(e: Entry): Option<Bytes> {
    if e.prev.None? then None else EncodeRevocationEntry(e.prev.value, e.body.sn, e.body.reason, e.body.ts)
  }

  /** The stored hash is the digest of the row's canonical encoding. */
  predicate HashOk(h: Digest, e: Entry) {
    Encoded(e).Some? && h(Encoded(e).value) == e.curr
  }

  function HashTest(h: Digest): Entry -> bool {
    (e: Entry) => HashOk(h, e)
  }

  ghost predicate LinkedWithColumns<Hash(!new), Body(!new)>(genesis: Hash, columnsOk: Row<Hash, Body> -> bool,
                                                            s: seq<Row<Hash, Body>>)
  {
    IsLinked(genesis, s) && forall k :: 0 <= k < |s| ==> columnsOk(s[k])
  }

  /** Linked from genesis in this order, every row passing both tests. */
  ghost predicate Intact<Hash(!new), Body(!new)>(genesis: Hash, columnsOk: Row<Hash, Body> -> bool,
                                                 hashOk: Row<Hash, Body> -> bool, s: seq<Row<Hash, Body>>)
  {
    LinkedWithColumns(genesis, columnsOk, s) && forall i :: 0 <= i < |s| ==> hashOk(s[i])
  }

  /** What an intact revocation log is. */
  ghost predicate IntactLog(h: Digest, s: seq<Entry>) {
    Intact(GENESIS_HASH, ColumnsOk, HashTest(h), s)
  }

  lemma BadRowRefutes<Hash(!new), Body(!new)>(genesis: Hash, columnsOk: Row<Hash, Body> -> bool,
                                             entries: seq<Row<Hash, Body>>, i: nat)
    requires i < |entries|
    requires entries[i].prev.None? || entries[i].curr == genesis || !columnsOk(entries[i])
    ensures forall s :: multiset(s) == multiset(entries) ==> !LinkedWithColumns(genesis, columnsOk, s)
  {
    forall s: seq<Row<Hash, Body>> | multiset(s) == multiset(entries)
      ensures !LinkedWithColumns(genesis, columnsOk, s)
    {
      var p := Rearranged(entries, s, i);
      assert IsLinked(genesis, s) ==> LinkedAt(genesis, s, p);
    }
  }

  lemma ClashingRowsRefute<Hash(!new), Body(!new)>(genesis: Hash, columnsOk: Row<Hash, Body> -> bool,
                                                  entries: seq<Row<Hash, Body>>, i: nat, j: nat)
    requires i < j < |entries|
    requires entries[i].curr == entries[j].curr || entries[i].prev == entries[j].prev
    ensures forall s :: multiset(s) == multiset(entries) ==> !LinkedWithColumns(genesis, columnsOk, s)
  {
    forall s: seq<Row<Hash, Body>> | multiset(s) == multiset(entries)
      ensures !LinkedWithColumns(genesis, columnsOk, s)
    {
      ClashRefutes(genesis, entries, s, i, j);
    }
  }

  /** What the first pass has established about the rows seen so far. */
  ghost predicate Scanned<Hash(!new), Body(!new)>(genesis: Hash, columnsOk: Row<Hash, Body> -> bool,
                                                  seen: seq<Row<Hash, Body>>,
                                                  index: map<Hash, Row<Hash, Body>>, currSet: set<Hash>)
  {
    && Indexed(genesis, seen, index)
    && (forall k :: 0 <= k < |seen| ==> columnsOk(seen[k]))
    && currSet == set k | 0 <= k < |seen| :: seen[k].curr
  }

  lemma ScanOneMore<Hash(!new), Body(!new)>(genesis: Hash, columnsOk: Row<Hash, Body> -> bool,
                                            seen: seq<Row<Hash, Body>>,
                                           index: map<Hash, Row<Hash, Body>>, currSet: set<Hash>, row: Row<Hash, Body>)
    requires Scanned(genesis, columnsOk, seen, index, currSet)
    requires row.prev.Some? && row.curr != genesis && columnsOk(row)
    requires row.prev.value !in index && row.curr !in currSet
    ensures Scanned(genesis, columnsOk, seen + [row], index[row.prev.value := row], currSet + {row.curr})
  {
    IndexOneMore(genesis, seen, index, row);
    var s := seen + [row];
    assert s[|seen|] == row;
    forall c | c in currSet ensures exists k :: 0 <= k < |s| && s[k].curr == c {
      var k :| 0 <= k < |seen| && seen[k].curr == c;
      assert s[k].curr == c;
    }
  }

  /** A row whose hash or predecessor has been seen before. */
  lemma ClashWithSeen<Hash(!new), Body(!new)>(genesis: Hash, columnsOk: Row<Hash, Body> -> bool,
                                             entries: seq<Row<Hash, Body>>, i: nat,
                                             index: map<Hash, Row<Hash, Body>>, currSet: set<Hash>)
    requires i < |entries| && Scanned(genesis, columnsOk, entries[..i], index, currSet)
    requires entries[i].curr in currSet || (entries[i].prev.Some? && entries[i].prev.value in index)
    ensures forall s :: multiset(s) == multiset(entries) ==> !LinkedWithColumns(genesis, columnsOk, s)
  {
    var seen := entries[..i];
    if entries[i].curr in currSet {
      var k :| 0 <= k < |seen| && seen[k].curr == entries[i].curr;
      ClashingRowsRefute(genesis, columnsOk, entries, k, i);
    } else {
      assert index[entries[i].prev.value] in seen;
      var k :| 0 <= k < |seen| && seen[k] == index[entries[i].prev.value];
      ClashingRowsRefute(genesis, columnsOk, entries, k, i);
    }
  }

  /** The first pass of `order_and_verify_chain`: check the columns and index the rows by predecessor. */
  method IndexRows<Hash(==, !new), Body(!new)>(genesis: Hash, columnsOk: Row<Hash, Body> -> bool,
                                               entries: seq<Row<Hash, Body>>)
    returns (prevMap: Option<map<Hash, Row<Hash, Body>>>)
    ensures prevMap.Some? ==> Indexed(genesis, entries, prevMap.value)
    ensures prevMap.Some? ==> forall i :: 0 <= i < |entries| ==> columnsOk(entries[i])
    ensures prevMap.None? ==> forall s :: multiset(s) == multiset(entries) ==> !LinkedWithColumns(genesis, columnsOk, s)
  {
    var index: map<Hash, Row<Hash, Body>> := map[];
    var currSet: set<Hash> := {};
    for i := 0 to |entries|
      invariant Scanned(genesis, columnsOk, entries[..i], index, currSet)
    {
      var entry := entries[i];
      if entry.prev.None? || entry.curr == genesis || !columnsOk(entry) {
        BadRowRefutes(genesis, columnsOk, entries, i);
        return None;
      }
      if entry.curr in currSet || entry.prev.value in index {
        ClashWithSeen(genesis, columnsOk, entries, i, index, currSet);
        return None;
      }
      ScanOneMore(genesis, columnsOk, entries[..i], index, currSet, entry);
      currSet := currSet + {entry.curr};
      index := index[entry.prev.value := entry];
      assert entries[..i + 1] == entries[..i] + [entry];
    }
    assert entries[..|entries|] == entries;
    return Some(index);
  }

  /** The walk of `order_and_verify_chain` from genesis; its cycle branch is dead code. */
  method WalkFromGenesis<Hash(==, !new), Body(!new)>(genesis: Hash, ghost entries: seq<Row<Hash, Body>>,
                                                    prevMap: map<Hash, Row<Hash, Body>>)
    returns (ordered: seq<Row<Hash, Body>>)
    requires Indexed(genesis, entries, prevMap)
    ensures IsLinked(genesis, ordered) && forall i :: 0 <= i < |ordered| ==> ordered[i] in entries
    ensures HashBefore(genesis, ordered, |ordered|) !in prevMap
  {
    ordered := [];
    var currHash := genesis;
    var visited: set<Hash> := {};
    while currHash in prevMap
      invariant IsLinked(genesis, ordered) && forall i :: 0 <= i < |ordered| ==> ordered[i] in entries
      invariant currHash == HashBefore(genesis, ordered, |ordered|)
      invariant forall p :: p in visited ==> exists i :: 0 <= i < |ordered| && ordered[i].prev == Some(p)
      decreases prevMap.Keys - visited
    {
      NoRevisit(genesis, entries, prevMap, ordered);
      if currHash in visited {
        assert false;
      }
      visited := visited + {currHash};
      var current := prevMap[currHash];
      StepKeepsLinked(genesis, entries, prevMap, ordered);
      ghost var before := ordered;
      ordered := ordered + [current];
      currHash := current.curr;
      assert LinkedAt(genesis, ordered, |before|);
      assert forall i :: 0 <= i < |before| ==> ordered[i] == before[i];
    }
  }

  lemma GenesisMissing<Hash(!new), Body(!new)>(genesis: Hash, entries: seq<Row<Hash, Body>>,
                                               prevMap: map<Hash, Row<Hash, Body>>)
    requires Indexed(genesis, entries, prevMap) && entries != [] && genesis !in prevMap
    ensures forall s :: multiset(s) == multiset(entries) ==> !IsLinked(genesis, s)
  {
    forall s: seq<Row<Hash, Body>> | multiset(s) == multiset(entries) ensures !IsLinked(genesis, s) {
      SameBagSameLength(s, entries);
      var p := Rearranged(s, entries, 0);
      assert IsLinked(genesis, s) ==> LinkedAt(genesis, s, 0);
    }
  }

  /** The finished walk is the only arrangement that can be linked, and it is one exactly at full length. */
  lemma WalkIsTheArrangement<Hash(!new), Body(!new)>(genesis: Hash, columnsOk: Row<Hash, Body> -> bool,
                                                    entries: seq<Row<Hash, Body>>, prevMap: map<Hash, Row<Hash, Body>>,
                                                    walk: seq<Row<Hash, Body>>)
    requires Indexed(genesis, entries, prevMap)
    requires forall i :: 0 <= i < |entries| ==> columnsOk(entries[i])
    requires IsLinked(genesis, walk) && forall i :: 0 <= i < |walk| ==> walk[i] in entries
    requires HashBefore(genesis, walk, |walk|) !in prevMap
    ensures forall s :: multiset(s) == multiset(entries) && IsLinked(genesis, s) ==> s == walk && |walk| == |entries|
    ensures |walk| == |entries| ==> multiset(walk) == multiset(entries)
    ensures forall i :: 0 <= i < |walk| ==> columnsOk(walk[i])
  {
    forall s | multiset(s) == multiset(entries) && IsLinked(genesis, s) ensures s == walk && |walk| == |entries| {
      SameBagSameLength(s, entries);
      WalkFollows(genesis, entries, prevMap, walk, s);
    }
    LinkedSubBag(genesis, entries, walk);
  }

  /** `order_and_verify_chain` on any bag of rows. */
  method OrderAndVerifyRows<Hash(==, !new), Body(!new)>(genesis: Hash, columnsOk: Row<Hash, Body> -> bool,
                                                       hashOk: Row<Hash, Body> -> bool, entries: seq<Row<Hash, Body>>)
    returns (r: Option<seq<Row<Hash, Body>>>)
    ensures r.Some? ==> Intact(genesis, columnsOk, hashOk, r.value) && multiset(r.value) == multiset(entries)
    ensures r.None? ==> forall s :: multiset(s) == multiset(entries) ==> !Intact(genesis, columnsOk, hashOk, s)
  {
    if entries == [] {
      return Some([]);
    }
    var prevMap := IndexRows(genesis, columnsOk, entries);
    if prevMap.None? {
      return None;
    }
    if genesis !in prevMap.value {
      GenesisMissing(genesis, entries, prevMap.value);
      return None;
    }
    var ordered := WalkFromGenesis(genesis, entries, prevMap.value);
    WalkIsTheArrangement(genesis, columnsOk, entries, prevMap.value, ordered);
    if |ordered| != |entries| {
      return None;
    }
    for i := 0 to |ordered|
      invariant forall k :: 0 <= k < i ==> hashOk(ordered[k])
    {
      if !hashOk(ordered[i]) {
        return None;
      }
    }
    return Some(ordered);
  }

  /** A bag of rows has at most one arrangement that is an intact log. */
  lemma IntactUnique(h: Digest, s: seq<Entry>, t: seq<Entry>)
    requires IntactLog(h, s) && IntactLog(h, t) && multiset(s) == multiset(t)
    ensures s == t
  {
    LinkedUnique(GENESIS_HASH, s, t);
  }

  /** What reading back the log should answer, stated without an algorithm: the arrangement of the rows
      that is an intact log, if there is one. */
  ghost function OrderedLog(h: Digest, entries: seq<Entry>): (r: Option<seq<Entry>>)
    ensures r.Some? ==> IntactLog(h, r.value) && multiset(r.value) == multiset(entries)
    ensures r.None? ==> forall s :: multiset(s) == multiset(entries) ==> !IntactLog(h, s)
  {
    if exists s :: multiset(s) == multiset(entries) && IntactLog(h, s) then
      var s :| multiset(s) == multiset(entries) && IntactLog(h, s);
      Some(s)
    else None
  }

  /** The answer depends only on the bag, and an intact arrangement of it is the answer. */
  lemma OrderedLogCanonical(h: Digest, entries: seq<Entry>, rearranged: seq<Entry>)
    requires multiset(entries) == multiset(rearranged)
    ensures OrderedLog(h, entries) == OrderedLog(h, rearranged)
    ensures IntactLog(h, rearranged) ==> OrderedLog(h, entries) == Some(rearranged)
  {
    var r, q := OrderedLog(h, entries), OrderedLog(h, rearranged);
    if r.Some? && q.Some? { IntactUnique(h, r.value, q.value); }
    if r.Some? && IntactLog(h, rearranged) { IntactUnique(h, r.value, rearranged); }
  }

  /** `order_and_verify_chain`: a list comes back exactly when some arrangement of the rows is an intact
      log, and then it is that arrangement, the only one; the order the rows arrive in is irrelevant. */
  method OrderAndVerifyChain(entries: seq<Entry>, h: Digest) returns (r: Option<seq<Entry>>)
    ensures r == OrderedLog(h, entries)
  {
    r := OrderAndVerifyRows(GENESIS_HASH, ColumnsOk, HashTest(h), entries);
    if r.Some? { OrderedLogCanonical(h, entries, r.value); }
  }

  function TailHash(s: seq<Entry>): Bytes {
    HashBefore(GENESIS_HASH, s, |s|)
  }

  lemma RowNamesPredecessor(h: Digest, s: seq<Entry>, i: nat)
    requires IntactLog(h, s) && i < |s|
    ensures s[i].prev == Some(TailHash(s[..i]))
  {
    assert LinkedAt(GENESIS_HASH, s, i);
  }

  /** A row with a new hash, chained to the tail, extends an intact log exactly when the row itself is
      good and its hash is not the genesis value. */
  lemma IntactExtend(h: Digest, s: seq<Entry>, e: Entry)
    requires IntactLog(h, s) && e.prev == Some(TailHash(s))
    requires forall i :: 0 <= i < |s| ==> s[i].curr != e.curr
    ensures IntactLog(h, s + [e]) <==> ColumnsOk(e) && HashOk(h, e) && e.curr != GENESIS_HASH
  {
    LinkedExtend(GENESIS_HASH, s, e);
    var t, test := s + [e], HashTest(h);
    assert t[|s|] == e && forall i :: 0 <= i < |s| ==> t[i] == s[i];
    assert test(e) <==> HashOk(h, e);
  }

  /** What a row commits to: the operator column is not part of the hashed content. */
  datatype Content = Content(prev: Option<Bytes>, sn: Bytes, reason: string, ts: Utc)

  function ContentOf(e: Entry): Content {
    Content(e.prev, e.body.sn, e.body.reason, e.body.ts)
  }

  predicate Collide(h: Digest, x: Entry, y: Entry) {
    Encoded(x).Some? && Encoded(y).Some? && Encoded(x) != Encoded(y) && h(Encoded(x).value) == h(Encoded(y).value)
  }

  /** Two rows of the two logs whose different encodings have the same digest. */
  ghost predicate CollisionBetween(h: Digest, s: seq<Entry>, t: seq<Entry>) {
    exists i, j :: 0 <= i < |s| && 0 <= j < |t| && Collide(h, s[i], t[j])
  }

  lemma SameHashSameContent(h: Digest, x: Entry, y: Entry)
    requires ColumnsOk(x) && ColumnsOk(y) && HashOk(h, x) && HashOk(h, y)
    requires x.curr == y.curr && !Collide(h, x, y)
    ensures ContentOf(x) == ContentOf(y)
  {
    EncodingInjective(x.prev.value, x.body.sn, x.body.reason, x.body.ts,
                      y.prev.value, y.body.sn, y.body.reason, y.body.ts);
  }

  lemma SameHashSameContentAt(h: Digest, s: seq<Entry>, t: seq<Entry>, i: nat, j: nat)
    requires IntactLog(h, s) && IntactLog(h, t) && !CollisionBetween(h, s, t)
    requires i < |s| && j < |t| && s[i].curr == t[j].curr
    ensures ContentOf(s[i]) == ContentOf(t[j])
  {
    var test := HashTest(h);
    assert test(s[i]) && test(t[j]);
    SameHashSameContent(h, s[i], t[j]);
  }

  lemma NoCollisionSameContent(h: Digest, s: seq<Entry>, t: seq<Entry>)
    requires IntactLog(h, s) && IntactLog(h, t) && !CollisionBetween(h, s, t)
    ensures forall i, j :: 0 <= i < |s| && 0 <= j < |t| && s[i].curr == t[j].curr ==>
      s[i].prev == t[j].prev && ContentOf(s[i]) == ContentOf(t[j])
    ensures IsLinked(GENESIS_HASH, s) && IsLinked(GENESIS_HASH, t)
  {
    forall i, j | 0 <= i < |s| && 0 <= j < |t| && s[i].curr == t[j].curr
      ensures s[i].prev == t[j].prev && ContentOf(s[i]) == ContentOf(t[j])
    {
      SameHashSameContentAt(h, s, t, i, j);
    }
  }

  /** Two logs of the same length with the same hashed content row by row. */
  predicate SameContents(s: seq<Entry>, t: seq<Entry>) {
    |s| == |t| && forall k :: 0 <= k < |s| ==> ContentOf(s[k]) == ContentOf(t[k])
  }

  /** Tamper evidence: the last hash determines the length and content of the whole log, unless two of
      its rows exhibit a digest collision. Nothing is assumed of the digest. */
  lemma TailHashFixesLog(h: Digest, s: seq<Entry>, t: seq<Entry>)
    requires IntactLog(h, s) && IntactLog(h, t) && s != [] && t != []
    requires s[|s| - 1].curr == t[|t| - 1].curr
    ensures CollisionBetween(h, s, t) || SameContents(s, t)
  {
    if !CollisionBetween(h, s, t) {
      NoCollisionSameContent(h, s, t);
      TailFixesContents(GENESIS_HASH, ContentOf, s, t);
    }
  }
}
