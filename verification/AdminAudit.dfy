/** The administrator audit chain: an append under unique constraints, a tail found by set difference, and a
    verifying walk without a visited set. */
module AdminAudit {
  import opened Bytes
  import opened Text
  import opened HashChain

  /** b"CryptoCampus-Admin-Audit-v1\x00" */
  const AUDIT_DOMAIN: Bytes :=
    [67, 114, 121, 112, 116, 111, 67, 97, 109, 112, 117, 115, 45, 65, 100, 109, 105, 110, 45, 65, 117, 100, 105, 116,
     45, 118, 49, 0]

  const GENESIS_HASH_PREV: Bytes :=
    [0, 0, 0, 0, 0, 0, 0, 0, 0, 0, 0, 0, 0, 0, 0, 0, 0, 0, 0, 0, 0, 0, 0, 0, 0, 0, 0, 0, 0, 0, 0, 0]

  /** The columns beside the two hashes; the actor is a UUID, as its sixteen bytes. */
  datatype Audit = Audit(actor: Bytes, action: string, target: string, detail: Bytes, ts: Utc)

  type Entry = Row<Bytes, Audit>

  type Digest = Bytes -> Bytes

  // Encoding

  function Framed(prev: Bytes, actor: Bytes, action: Bytes, target: Bytes, detail: Bytes, ts: Utc): Bytes
    requires FitsPrefix(action) && FitsPrefix(target)
  {
    TimestampFits(ts);
    AUDIT_DOMAIN + (prev + (actor + (LengthPrefix(action) + (LengthPrefix(target) +
      (detail + LengthPrefix(CanonicalUtc(ts)))))))
  }

  /** `encode_admin_audit_entry`: None where it raises. */
  function Encode(prev: Bytes, b: Audit): (r: Option<Bytes>) {
    if |prev| != 32 || |b.detail| != 32 || |b.actor| != 16 then None
    else if !FitsPrefix(Utf8(b.action)) || !FitsPrefix(Utf8(b.target)) then None
    else Some(Framed(prev, b.actor, Utf8(b.action), Utf8(b.target), b.detail, b.ts))
  }

  /** Equal encodings come from equal fields. */
  lemma EncodeInjective(p: Bytes, a: Audit, q: Bytes, b: Audit)
    requires Encode(p, a).Some? && Encode(p, a) == Encode(q, b)
    ensures p == q && a == b
  {
    hide Utf8, CanonicalUtc, LengthPrefix, FitsPrefix;
    TimestampFits(a.ts);
    TimestampFits(b.ts);
    var a0, b0 := LengthPrefix(CanonicalUtc(a.ts)), LengthPrefix(CanonicalUtc(b.ts));
    var a1, b1 := a.detail + a0, b.detail + b0;
    var a2, b2 := LengthPrefix(Utf8(a.target)) + a1, LengthPrefix(Utf8(b.target)) + b1;
    var a3, b3 := LengthPrefix(Utf8(a.action)) + a2, LengthPrefix(Utf8(b.action)) + b2;
    ConcatSplit(AUDIT_DOMAIN, p + (a.actor + a3), AUDIT_DOMAIN, q + (b.actor + b3));
    ConcatSplit(p, a.actor + a3, q, b.actor + b3);
    ConcatSplit(a.actor, a3, b.actor, b3);
    LengthPrefixSelfDelimiting(Utf8(a.action), a2, Utf8(b.action), b2);
    LengthPrefixSelfDelimiting(Utf8(a.target), a1, Utf8(b.target), b1);
    ConcatSplit(a.detail, a0, b.detail, b0);
    assert a0 + [] == a0 && b0 + [] == b0;
    LengthPrefixSelfDelimiting(CanonicalUtc(a.ts), [], CanonicalUtc(b.ts), []);
    Utf8Injective(a.action, b.action);
    Utf8Injective(a.target, b.target);
    CanonicalUtcInjective(a.ts, b.ts);
  }

  /** Whatever fits the table's columns can be encoded: sixteen bytes of actor, 128 characters of action, 255 of
      target and 32 bytes of detail. */
  lemma ColumnsEncode(prev: Bytes, b: Audit)
    requires |prev| == 32 && |b.actor| == 16 && |b.action| <= 128 && |b.target| <= 255 && |b.detail| == 32
    ensures Encode(prev, b).Some?
  {
    Utf8Size(b.action);
    Utf8Size(b.target);
    assert Pow256(4) == 0x1_0000_0000;
    hide Framed, Utf8;
  }

  // The tail

  datatype ChainTail<+Hash, +Body> = Empty | Tail(row: Row<Hash, Body>) | Fork | Cycle

  function PrevHashes<Hash(==, !new), Body(!new)>(entries: seq<Row<Hash, Body>>): set<Option<Hash>> {
    set i | 0 <= i < |entries| :: entries[i].prev
  }

  /** The rows no other row names as its predecessor, in table order. */
  function Tails<Hash(==), Body>(entries: seq<Row<Hash, Body>>, prevs: set<Option<Hash>>): seq<Row<Hash, Body>> {
    if entries == [] then []
    else (if Some(entries[0].curr) in prevs then [] else [entries[0]]) + Tails(entries[1..], prevs)
  }

  /** `get_chain_tail`. */
  function FindTail<Hash(==, !new), Body(!new)>(entries: seq<Row<Hash, Body>>): ChainTail<Hash, Body> {
    if entries == [] then Empty
    else
      var tails := Tails(entries, PrevHashes(entries));
      if |tails| > 1 then Fork else if |tails| == 0 then Cycle else Tail(tails[0])
  }

  lemma {:induction false} OnlyTail<Hash, Body>(entries: seq<Row<Hash, Body>>, prevs: set<Option<Hash>>, k: nat)
    requires k < |entries|
    requires forall i :: 0 <= i < |entries| ==> (Some(entries[i].curr) !in prevs <==> i == k)
    ensures Tails(entries, prevs) == [entries[k]]
  {
    var rest := entries[1..];
    assert forall i :: 0 <= i < |rest| ==> rest[i] == entries[i + 1];
    if k > 0 { OnlyTail(rest, prevs, k - 1); } else { NoTail(rest, prevs); }
  }

  lemma {:induction false} NoTail<Hash, Body>(entries: seq<Row<Hash, Body>>, prevs: set<Option<Hash>>)
    requires forall i :: 0 <= i < |entries| ==> Some(entries[i].curr) in prevs
    ensures Tails(entries, prevs) == []
  {
    if entries != [] { NoTail(entries[1..], prevs); }
  }

  /** In a linked list, the last hash is the only one that is nobody's predecessor. */
  lemma PrevOfLinked<Hash(!new), Body(!new)>(genesis: Hash, s: seq<Row<Hash, Body>>, i: nat)
    requires IsLinked(genesis, s) && i < |s|
    ensures Some(s[i].curr) in PrevHashes(s) <==> i + 1 < |s|
  {
    if i + 1 < |s| {
      assert LinkedAt(genesis, s, i + 1);
      assert s[i + 1].prev == Some(s[i].curr);
    } else {
      forall k | 0 <= k < |s| ensures s[k].prev != Some(s[i].curr) { assert LinkedAt(genesis, s, k); }
    }
  }

  lemma SamePrevHashes<Hash(!new), Body(!new)>(a: seq<Row<Hash, Body>>, b: seq<Row<Hash, Body>>)
    requires multiset(a) == multiset(b)
    ensures PrevHashes(a) <= PrevHashes(b)
  {
    forall p | p in PrevHashes(a) ensures p in PrevHashes(b) {
      var i :| 0 <= i < |a| && a[i].prev == p;
      var k := Rearranged(a, b, i);
      assert b[k].prev == p;
    }
  }

  /** The set difference finds the end of the list, in whatever order the rows are read. */
  lemma TailIsLast<Hash(!new), Body(!new)>(genesis: Hash, s: seq<Row<Hash, Body>>, entries: seq<Row<Hash, Body>>)
    requires IsLinked(genesis, s) && multiset(s) == multiset(entries)
    ensures FindTail(entries) == if s == [] then Empty else Tail(s[|s| - 1])
  {
    SameBagSameLength(s, entries);
    if s != [] {
      SamePrevHashes(s, entries);
      SamePrevHashes(entries, s);
      var k := Rearranged(s, entries, |s| - 1);
      PrevOfLinked(genesis, s, |s| - 1);
      forall i | 0 <= i < |entries| ensures Some(entries[i].curr) !in PrevHashes(entries) <==> i == k {
        if i != k { OtherIsNoTail(genesis, s, entries, i, k); }
      }
      OnlyTail(entries, PrevHashes(entries), k);
    }
  }

  lemma OtherIsNoTail<Hash(!new), Body(!new)>(genesis: Hash, s: seq<Row<Hash, Body>>, entries: seq<Row<Hash, Body>>,
                                              i: nat, k: nat)
    requires IsLinked(genesis, s) && multiset(s) == multiset(entries) && s != []
    requires i < |entries| && k < |entries| && i != k && entries[k] == s[|s| - 1]
    ensures Some(entries[i].curr) in PrevHashes(s)
  {
    var p, q: nat;
    if i < k { p, q := RearrangedPair(entries, s, i, k); } else { q, p := RearrangedPair(entries, s, k, i); }
    assert s[q].curr == s[|s| - 1].curr;
    PrevOfLinked(genesis, s, p);
  }

  // The walk

  /** Linked from genesis in this order, every row passing the hash test. */
  ghost predicate Intact<Hash(!new), Body(!new)>(genesis: Hash, hashOk: Row<Hash, Body> -> bool,
                                                 s: seq<Row<Hash, Body>>)
  {
    IsLinked(genesis, s) && forall i :: 0 <= i < |s| ==> hashOk(s[i])
  }

  ghost predicate NoArrangement<Hash(!new), Body(!new)>(genesis: Hash, hashOk: Row<Hash, Body> -> bool,
                                                        entries: seq<Row<Hash, Body>>)
  {
    forall s :: multiset(s) == multiset(entries) ==> !Intact(genesis, hashOk, s)
  }

  /** The unique constraint on the row hash. */
  ghost predicate UniqueHashes<Hash(!new), Body(!new)>(entries: seq<Row<Hash, Body>>) {
    forall i, j :: 0 <= i < j < |entries| ==> entries[i].curr != entries[j].curr
  }

  /** The predecessor column is not nullable. */
  predicate NotNull<Hash, Body>(entries: seq<Row<Hash, Body>>) {
    forall i :: 0 <= i < |entries| ==> entries[i].prev.Some?
  }

  /** No two rows name the same predecessor. */
  ghost predicate DistinctPrevs<Hash(!new), Body(!new)>(entries: seq<Row<Hash, Body>>) {
    forall i, j :: 0 <= i < j < |entries| ==> entries[i].prev != entries[j].prev
  }

  /** The index built by the first loop of `verify_chain`: every row, by its predecessor. */
  ghost predicate ByPrev<Hash(!new), Body(!new)>(entries: seq<Row<Hash, Body>>, byPrev: map<Hash, Row<Hash, Body>>) {
    && (forall i :: 0 <= i < |entries| ==>
          entries[i].prev.Some? && entries[i].prev.value in byPrev && byPrev[entries[i].prev.value] == entries[i])
    && (forall p :: p in byPrev ==> byPrev[p] in entries && byPrev[p].prev == Some(p))
  }

  // When the walk does not end

  /** The walk's current hash after n rounds; None once it has left the loop, by its end or by an error. */
  function WalkHash<Hash(==), Body>(genesis: Hash, hashOk: Row<Hash, Body> -> bool, byPrev: map<Hash, Row<Hash, Body>>,
                                    n: nat): Option<Hash>
  {
    if n == 0 then Some(genesis)
    else
      match WalkHash(genesis, hashOk, byPrev, n - 1)
      case None => None
      case Some(p) => if p in byPrev && hashOk(byPrev[p]) then Some(byPrev[p].curr) else None
  }

  ghost predicate Endless<Hash(!new), Body(!new)>(genesis: Hash, hashOk: Row<Hash, Body> -> bool,
                                                  byPrev: map<Hash, Row<Hash, Body>>)
  {
    forall n: nat :: WalkHash(genesis, hashOk, byPrev, n).Some?
  }

  /** Rounds i and j of the walk have the same current hash. */
  predicate Repeats<Hash(==), Body>(genesis: Hash, hashOk: Row<Hash, Body> -> bool, byPrev: map<Hash, Row<Hash, Body>>,
                                    i: nat, j: nat)
  {
    WalkHash(genesis, hashOk, byPrev, i).Some? &&
    WalkHash(genesis, hashOk, byPrev, i) == WalkHash(genesis, hashOk, byPrev, j)
  }

  ghost predicate NoRepeat<Hash(!new), Body(!new)>(genesis: Hash, hashOk: Row<Hash, Body> -> bool,
                                                   byPrev: map<Hash, Row<Hash, Body>>, n: nat)
  {
    forall i: nat, j: nat :: i < j <= n ==> !Repeats(genesis, hashOk, byPrev, i, j)
  }

  lemma {:induction false} WalkPeriodic<Hash(!new), Body(!new)>(genesis: Hash, hashOk: Row<Hash, Body> -> bool,
                                                               byPrev: map<Hash, Row<Hash, Body>>, i: nat,
                                                               j: nat, k: nat)
    requires Repeats(genesis, hashOk, byPrev, i, j)
    ensures WalkHash(genesis, hashOk, byPrev, j + k) == WalkHash(genesis, hashOk, byPrev, i + k)
  {
    if k > 0 { WalkPeriodic(genesis, hashOk, byPrev, i, j, k - 1); }
  }

  lemma {:induction false} WalkEarlier<Hash(!new), Body(!new)>(genesis: Hash, hashOk: Row<Hash, Body> -> bool,
                                                              byPrev: map<Hash, Row<Hash, Body>>, m: nat, n: nat)
    requires m <= n && WalkHash(genesis, hashOk, byPrev, n).Some?
    ensures WalkHash(genesis, hashOk, byPrev, m).Some?
  {
    if m < n { WalkEarlier(genesis, hashOk, byPrev, m, n - 1); }
  }

  /** A walk that has repeated itself goes on. */
  lemma {:induction false} RepeatGoesOn<Hash(!new), Body(!new)>(genesis: Hash, hashOk: Row<Hash, Body> -> bool,
                                                               byPrev: map<Hash, Row<Hash, Body>>, i: nat,
                                                               j: nat, m: nat)
    requires i < j && Repeats(genesis, hashOk, byPrev, i, j)
    ensures WalkHash(genesis, hashOk, byPrev, m).Some?
    decreases m
  {
    if m < j {
      WalkEarlier(genesis, hashOk, byPrev, m, j);
    } else {
      WalkPeriodic(genesis, hashOk, byPrev, i, j, m - j);
      RepeatGoesOn(genesis, hashOk, byPrev, i, j, i + (m - j));
    }
  }

  lemma RepeatIsEndless<Hash(!new), Body(!new)>(genesis: Hash, hashOk: Row<Hash, Body> -> bool,
                                               byPrev: map<Hash, Row<Hash, Body>>, i: nat, j: nat)
    requires i < j && Repeats(genesis, hashOk, byPrev, i, j)
    ensures Endless(genesis, hashOk, byPrev)
  {
    forall m: nat ensures WalkHash(genesis, hashOk, byPrev, m).Some? { RepeatGoesOn(genesis, hashOk, byPrev, i, j, m); }
  }

  /** The rows passed in the first n rounds. */
  function Passed<Hash(==), Body>(genesis: Hash, hashOk: Row<Hash, Body> -> bool, byPrev: map<Hash, Row<Hash, Body>>,
                                  n: nat): (walk: seq<Row<Hash, Body>>)
    requires WalkHash(genesis, hashOk, byPrev, n).Some?
    ensures |walk| == n
    ensures n > 0 ==> walk[n - 1].curr == WalkHash(genesis, hashOk, byPrev, n).value
  {
    if n == 0 then [] else
      Passed(genesis, hashOk, byPrev, n - 1) + [byPrev[WalkHash(genesis, hashOk, byPrev, n - 1).value]]
  }

  lemma {:induction false} PassedAt<Hash(!new), Body(!new)>(genesis: Hash, hashOk: Row<Hash, Body> -> bool,
                                                           byPrev: map<Hash, Row<Hash, Body>>, n: nat, i: nat)
    requires i < n && WalkHash(genesis, hashOk, byPrev, n).Some?
    ensures WalkHash(genesis, hashOk, byPrev, i).Some? && WalkHash(genesis, hashOk, byPrev, i).value in byPrev
    ensures var row := Passed(genesis, hashOk, byPrev, n)[i];
      && row == byPrev[WalkHash(genesis, hashOk, byPrev, i).value]
      && WalkHash(genesis, hashOk, byPrev, i + 1) == Some(row.curr)
  {
    if i + 1 < n { PassedAt(genesis, hashOk, byPrev, n - 1, i); }
  }

  /** While the walk has not repeated a hash, the rows it has passed are distinct and linked. */
  lemma {:induction false} PassedLinked<Hash(!new), Body(!new)>(genesis: Hash, hashOk: Row<Hash, Body> -> bool,
                                                               entries: seq<Row<Hash, Body>>,
                                                               byPrev: map<Hash, Row<Hash, Body>>, n: nat)
    requires ByPrev(entries, byPrev) && WalkHash(genesis, hashOk, byPrev, n).Some?
    requires NoRepeat(genesis, hashOk, byPrev, n)
    ensures var walk := Passed(genesis, hashOk, byPrev, n);
      IsLinked(genesis, walk) && forall i :: 0 <= i < n ==> walk[i] in entries
  {
    if n > 0 {
      PassedLinked(genesis, hashOk, entries, byPrev, n - 1);
      var walk := Passed(genesis, hashOk, byPrev, n - 1);
      var row := byPrev[WalkHash(genesis, hashOk, byPrev, n - 1).value];
      forall i | 0 <= i < n - 1 ensures walk[i].curr != row.curr {
        PassedAt(genesis, hashOk, byPrev, n - 1, i);
        assert !Repeats(genesis, hashOk, byPrev, i + 1, n);
      }
      assert !Repeats(genesis, hashOk, byPrev, 0, n);
      LinkedExtend(genesis, walk, row);
    }
  }

  /** A walk that goes on for as many rounds as there are rows has by then repeated a hash. */
  lemma RepeatsInTime<Hash(!new), Body(!new)>(genesis: Hash, hashOk: Row<Hash, Body> -> bool,
                                              entries: seq<Row<Hash, Body>>,
                                             byPrev: map<Hash, Row<Hash, Body>>)
    requires ByPrev(entries, byPrev) && WalkHash(genesis, hashOk, byPrev, |entries| + 1).Some?
    ensures !NoRepeat(genesis, hashOk, byPrev, |entries|)
  {
    var n := |entries|;
    if NoRepeat(genesis, hashOk, byPrev, n) {
      PassedAt(genesis, hashOk, byPrev, n + 1, n);
      PassedLinked(genesis, hashOk, entries, byPrev, n);
      var walk := Passed(genesis, hashOk, byPrev, n);
      LinkedSubBag(genesis, entries, walk);
      var next := byPrev[WalkHash(genesis, hashOk, byPrev, n).value];
      assert next in multiset(entries);
      var i := PositionOf(walk, next);
      PassedAt(genesis, hashOk, byPrev, n, i);
      assert Repeats(genesis, hashOk, byPrev, i, n);
    }
  }

  /** The walk runs forever exactly when two of its first |entries| + 1 rounds have the same hash: running it
      that far decides the matter. */
  lemma EndlessIffRepeats<Hash(!new), Body(!new)>(genesis: Hash, hashOk: Row<Hash, Body> -> bool,
                                                 entries: seq<Row<Hash, Body>>, byPrev: map<Hash, Row<Hash, Body>>)
    requires ByPrev(entries, byPrev)
    ensures Endless(genesis, hashOk, byPrev)
       <==> exists i: nat, j: nat :: i < j <= |entries| && Repeats(genesis, hashOk, byPrev, i, j)
  {
    hide ByPrev, WalkHash, Repeats;
    if Endless(genesis, hashOk, byPrev) {
      assert WalkHash(genesis, hashOk, byPrev, |entries| + 1).Some?;
      RepeatsInTime(genesis, hashOk, entries, byPrev);
    }
    forall i: nat, j: nat | i < j <= |entries| && Repeats(genesis, hashOk, byPrev, i, j)
      ensures Endless(genesis, hashOk, byPrev)
    {
      RepeatIsEndless(genesis, hashOk, byPrev, i, j);
    }
  }

  lemma SameHashSameRow<Hash(!new), Body(!new)>(entries: seq<Row<Hash, Body>>, x: Row<Hash, Body>, y: Row<Hash, Body>)
    requires UniqueHashes(entries) && x in entries && y in entries
    ensures x.curr == y.curr ==> x == y
  {
    var i :| 0 <= i < |entries| && entries[i] == x;
    var j :| 0 <= j < |entries| && entries[j] == y;
  }

  /** With distinct row hashes a walk can be followed backwards, so that it repeats genesis first. */
  lemma {:induction false} RepeatsGenesis<Hash(!new), Body(!new)>(genesis: Hash, hashOk: Row<Hash, Body> -> bool,
                                                                 entries: seq<Row<Hash, Body>>,
                                                                 byPrev: map<Hash, Row<Hash, Body>>, i: nat, j: nat)
    requires ByPrev(entries, byPrev) && UniqueHashes(entries) && i < j && Repeats(genesis, hashOk, byPrev, i, j)
    ensures WalkHash(genesis, hashOk, byPrev, j - i) == Some(genesis)
  {
    if i > 0 {
      PassedAt(genesis, hashOk, byPrev, i, i - 1);
      PassedAt(genesis, hashOk, byPrev, j, j - 1);
      var p, q := WalkHash(genesis, hashOk, byPrev, i - 1).value, WalkHash(genesis, hashOk, byPrev, j - 1).value;
      SameHashSameRow(entries, byPrev[p], byPrev[q]);
      assert byPrev[p].prev == Some(p) && byPrev[q].prev == Some(q);
      RepeatsGenesis(genesis, hashOk, entries, byPrev, i - 1, j - 1);
    }
  }

  /** With distinct row hashes, the walk runs forever exactly when one of its first |entries| rows has the
      genesis value for its hash. */
  lemma EndlessIff<Hash(!new), Body(!new)>(genesis: Hash, hashOk: Row<Hash, Body> -> bool,
                                           entries: seq<Row<Hash, Body>>,
                                          byPrev: map<Hash, Row<Hash, Body>>)
    requires ByPrev(entries, byPrev) && UniqueHashes(entries)
    ensures Endless(genesis, hashOk, byPrev)
       <==> exists n: nat :: 0 < n <= |entries| && WalkHash(genesis, hashOk, byPrev, n) == Some(genesis)
  {
    assert WalkHash(genesis, hashOk, byPrev, 0) == Some(genesis);
    hide ByPrev, UniqueHashes, WalkHash;
    EndlessIffRepeats(genesis, hashOk, entries, byPrev);
    forall n: nat | 0 < n <= |entries| && WalkHash(genesis, hashOk, byPrev, n) == Some(genesis)
      ensures Endless(genesis, hashOk, byPrev)
    {
      RepeatIsEndless(genesis, hashOk, byPrev, 0, n);
    }
    if Endless(genesis, hashOk, byPrev) {
      var i: nat, j: nat :| i < j <= |entries| && Repeats(genesis, hashOk, byPrev, i, j);
      RepeatsGenesis(genesis, hashOk, entries, byPrev, i, j);
    }
  }

  /** One row that names genesis and hashes to it sends the walk round for ever. */
  lemma GenesisRowIsEndless<Hash(!new), Body(!new)>(genesis: Hash, hashOk: Row<Hash, Body> -> bool,
                                                    row: Row<Hash, Body>)
    requires row.prev == Some(genesis) && row.curr == genesis && hashOk(row)
    ensures ByPrev([row], map[genesis := row]) && UniqueHashes([row]) && Endless(genesis, hashOk, map[genesis := row])
  {
    var byPrev := map[genesis := row];
    assert [row][0] == row;
    forall m: nat ensures WalkHash(genesis, hashOk, byPrev, m).Some? {
      assert WalkHash(genesis, hashOk, byPrev, 0) == Some(genesis);
      assert WalkHash(genesis, hashOk, byPrev, 1) == Some(genesis);
      RepeatGoesOn(genesis, hashOk, byPrev, 0, 1, m);
    }
  }

  // verify_chain

  /** Two rows with one predecessor have no linked arrangement. */
  lemma SharedPredecessor<Hash(!new), Body(!new)>(genesis: Hash, hashOk: Row<Hash, Body> -> bool,
                                                 entries: seq<Row<Hash, Body>>, i: nat, j: nat)
    requires i < j < |entries| && entries[i].prev == entries[j].prev
    ensures NoArrangement(genesis, hashOk, entries)
  {
    forall s: seq<Row<Hash, Body>> | multiset(s) == multiset(entries) ensures !Intact(genesis, hashOk, s) {
      ClashRefutes(genesis, entries, s, i, j);
    }
  }

  /** The first loop of `verify_chain`: rows by predecessor, unless two share one. */
  method IndexByPrev<Hash(==, !new), Body(!new)>(genesis: Hash, hashOk: Row<Hash, Body> -> bool,
                                                 entries: seq<Row<Hash, Body>>)
    returns (byPrev: Option<map<Hash, Row<Hash, Body>>>)
    requires NotNull(entries)
    ensures byPrev.Some? <==> DistinctPrevs(entries)
    ensures byPrev.Some? ==> ByPrev(entries, byPrev.value)
    ensures byPrev.None? ==> NoArrangement(genesis, hashOk, entries)
  {
    var index: map<Hash, Row<Hash, Body>> := map[];
    for i := 0 to |entries|
      invariant ByPrev(entries[..i], index) && DistinctPrevs(entries[..i])
    {
      var prev := entries[i].prev.value;
      if prev in index {
        assert index[prev] in entries[..i];
        ghost var k :| 0 <= k < i && entries[k] == index[prev];
        SharedPredecessor(genesis, hashOk, entries, k, i);
        return None;
      }
      index := index[prev := entries[i]];
      assert entries[..i + 1] == entries[..i] + [entries[i]];
    }
    assert entries[..|entries|] == entries;
    return Some(index);
  }

  /** An arrangement of the rows makes the index the kind the linked-list lemmas speak of. */
  lemma ArrangementIndexed<Hash(!new), Body(!new)>(genesis: Hash, entries: seq<Row<Hash, Body>>,
                                                  byPrev: map<Hash, Row<Hash, Body>>, s: seq<Row<Hash, Body>>)
    requires ByPrev(entries, byPrev) && multiset(s) == multiset(entries) && IsLinked(genesis, s)
    ensures Indexed(genesis, entries, byPrev) && |s| == |entries|
  {
    SameBagSameLength(s, entries);
    forall i | 0 <= i < |entries| ensures entries[i].curr != genesis { var k := Rearranged(entries, s, i); }
    forall i, j | 0 <= i < j < |entries| ensures entries[i].curr != entries[j].curr {
      var p, q := RearrangedPair(entries, s, i, j);
    }
  }

  lemma MissingGenesis<Hash(!new), Body(!new)>(genesis: Hash, hashOk: Row<Hash, Body> -> bool,
                                              entries: seq<Row<Hash, Body>>, byPrev: map<Hash, Row<Hash, Body>>)
    requires ByPrev(entries, byPrev) && entries != [] && genesis !in byPrev
    ensures NoArrangement(genesis, hashOk, entries)
  {
    forall s: seq<Row<Hash, Body>> | multiset(s) == multiset(entries) ensures !Intact(genesis, hashOk, s) {
      SameBagSameLength(s, entries);
      var p := Rearranged(s, entries, 0);
      assert IsLinked(genesis, s) ==> LinkedAt(genesis, s, 0);
    }
  }

  /** A row with a wrong hash is a row of every arrangement. */
  lemma MismatchRefutes<Hash(!new), Body(!new)>(genesis: Hash, hashOk: Row<Hash, Body> -> bool,
                                               entries: seq<Row<Hash, Body>>, row: Row<Hash, Body>)
    requires row in entries && !hashOk(row)
    ensures NoArrangement(genesis, hashOk, entries)
  {
    var i :| 0 <= i < |entries| && entries[i] == row;
    forall s: seq<Row<Hash, Body>> | multiset(s) == multiset(entries) ensures !Intact(genesis, hashOk, s) {
      var k := Rearranged(entries, s, i);
    }
  }

  /** The finished walk is the arrangement, or there is none. */
  lemma WalkDecides<Hash(!new), Body(!new)>(genesis: Hash, hashOk: Row<Hash, Body> -> bool,
                                            entries: seq<Row<Hash, Body>>,
                                           byPrev: map<Hash, Row<Hash, Body>>, walk: seq<Row<Hash, Body>>)
    requires ByPrev(entries, byPrev)
    requires Intact(genesis, hashOk, walk) && forall i :: 0 <= i < |walk| ==> walk[i] in entries
    requires HashBefore(genesis, walk, |walk|) !in byPrev
    ensures |walk| == |entries| ==> multiset(walk) == multiset(entries)
    ensures |walk| != |entries| ==> NoArrangement(genesis, hashOk, entries)
  {
    LinkedSubBag(genesis, entries, walk);
    forall s | multiset(s) == multiset(entries) && Intact(genesis, hashOk, s) ensures |walk| == |entries| {
      ArrangementIndexed(genesis, entries, byPrev, s);
      WalkFollows(genesis, entries, byPrev, walk, s);
    }
  }

  /** No index of the rows makes the walk run forever. */
  ghost predicate Ends<Hash(!new), Body(!new)>(genesis: Hash, hashOk: Row<Hash, Body> -> bool,
                                               entries: seq<Row<Hash, Body>>)
  {
    forall byPrev :: ByPrev(entries, byPrev) ==> !Endless(genesis, hashOk, byPrev)
  }

  lemma NeverRepeats<Hash(!new), Body(!new)>(genesis: Hash, hashOk: Row<Hash, Body> -> bool,
                                             byPrev: map<Hash, Row<Hash, Body>>)
    requires !Endless(genesis, hashOk, byPrev)
    ensures forall n: nat :: NoRepeat(genesis, hashOk, byPrev, n)
  {
    hide Endless;
    forall i: nat, j: nat | i < j && Repeats(genesis, hashOk, byPrev, i, j) ensures false {
      RepeatIsEndless(genesis, hashOk, byPrev, i, j);
    }
  }

  /** Without a genesis-valued hash among the rows, the walk ends. */
  lemma NeverBack<Hash(!new), Body(!new)>(genesis: Hash, hashOk: Row<Hash, Body> -> bool, entries: seq<Row<Hash, Body>>,
                                         byPrev: map<Hash, Row<Hash, Body>>)
    requires ByPrev(entries, byPrev) && UniqueHashes(entries)
    requires forall i :: 0 <= i < |entries| ==> entries[i].curr != genesis
    ensures !Endless(genesis, hashOk, byPrev)
  {
    EndlessIff(genesis, hashOk, entries, byPrev);
    forall n: nat | n > 0 ensures WalkHash(genesis, hashOk, byPrev, n) != Some(genesis) {
      var p := WalkHash(genesis, hashOk, byPrev, n - 1);
      if p.Some? && p.value in byPrev { assert byPrev[p.value] in entries; }
    }
  }

  /** `verify_chain` gets past its first loop, and its walk runs forever. */
  ghost predicate Loops<Hash(!new), Body(!new)>(genesis: Hash, hashOk: Row<Hash, Body> -> bool,
                                                entries: seq<Row<Hash, Body>>)
  {
    DistinctPrevs(entries) && exists byPrev :: ByPrev(entries, byPrev) && Endless(genesis, hashOk, byPrev)
  }

  lemma LoopsIff<Hash(!new), Body(!new)>(genesis: Hash, hashOk: Row<Hash, Body> -> bool,
                                        entries: seq<Row<Hash, Body>>, byPrev: map<Hash, Row<Hash, Body>>)
    requires DistinctPrevs(entries) && ByPrev(entries, byPrev)
    ensures Loops(genesis, hashOk, entries) <==> Endless(genesis, hashOk, byPrev)
  {
    hide Endless;
    forall other | ByPrev(entries, other) ensures other == byPrev {
      forall p | p in other || p in byPrev ensures p in other && p in byPrev && other[p] == byPrev[p] {}
    }
  }

  /** Rows that have an arrangement do not make the walk run forever. */
  lemma LoopRefutes<Hash(!new), Body(!new)>(genesis: Hash, hashOk: Row<Hash, Body> -> bool,
                                           entries: seq<Row<Hash, Body>>, byPrev: map<Hash, Row<Hash, Body>>)
    requires ByPrev(entries, byPrev) && Endless(genesis, hashOk, byPrev)
    ensures NoArrangement(genesis, hashOk, entries)
  {
    hide Endless, ByPrev;
    forall s | multiset(s) == multiset(entries) && Intact(genesis, hashOk, s) ensures false {
      ArrangementIndexed(genesis, entries, byPrev, s);
      NeverBack(genesis, hashOk, entries, byPrev);
    }
  }

  /** A walk that is longer than the rows are many goes on forever. */
  lemma TooLongIsEndless<Hash(!new), Body(!new)>(genesis: Hash, hashOk: Row<Hash, Body> -> bool,
                                                entries: seq<Row<Hash, Body>>, byPrev: map<Hash, Row<Hash, Body>>)
    requires ByPrev(entries, byPrev) && WalkHash(genesis, hashOk, byPrev, |entries| + 1).Some?
    ensures Endless(genesis, hashOk, byPrev)
  {
    hide ByPrev, WalkHash, Repeats, Endless;
    RepeatsInTime(genesis, hashOk, entries, byPrev);
    EndlessIffRepeats(genesis, hashOk, entries, byPrev);
  }

  lemma StoppedIsNotEndless<Hash(!new), Body(!new)>(genesis: Hash, hashOk: Row<Hash, Body> -> bool,
                                                   byPrev: map<Hash, Row<Hash, Body>>, n: nat, at: Hash)
    requires WalkHash(genesis, hashOk, byPrev, n) == Some(at) && (at !in byPrev || !hashOk(byPrev[at]))
    ensures !Endless(genesis, hashOk, byPrev)
  {
    assert WalkHash(genesis, hashOk, byPrev, n + 1) == None;
  }

  lemma NothingToWalk<Hash(!new), Body(!new)>(genesis: Hash, hashOk: Row<Hash, Body> -> bool,
                                             entries: seq<Row<Hash, Body>>)
    requires entries == []
    ensures Intact(genesis, hashOk, entries) && !Loops(genesis, hashOk, entries)
  {
    forall byPrev | ByPrev(entries, byPrev) ensures !Endless(genesis, hashOk, byPrev) {
      StoppedIsNotEndless(genesis, hashOk, byPrev, 0, genesis);
    }
  }

  lemma SharedNeverLoops<Hash(!new), Body(!new)>(genesis: Hash, hashOk: Row<Hash, Body> -> bool,
                                                entries: seq<Row<Hash, Body>>)
    ensures Loops(genesis, hashOk, entries) ==> DistinctPrevs(entries)
  {
  }

  lemma IndexHoldsRows<Hash(!new), Body(!new)>(entries: seq<Row<Hash, Body>>, byPrev: map<Hash, Row<Hash, Body>>,
                                               p: Hash)
    requires ByPrev(entries, byPrev) && p in byPrev
    ensures byPrev[p] in entries
  {
  }

  lemma EndedWalkDecides<Hash(!new), Body(!new)>(genesis: Hash, hashOk: Row<Hash, Body> -> bool,
                                                entries: seq<Row<Hash, Body>>, byPrev: map<Hash, Row<Hash, Body>>,
                                                walk: seq<Row<Hash, Body>>)
    requires ByPrev(entries, byPrev) && !Endless(genesis, hashOk, byPrev)
    requires WalkHash(genesis, hashOk, byPrev, |walk|).Some?
    requires WalkHash(genesis, hashOk, byPrev, |walk|).value !in byPrev
    requires walk == Passed(genesis, hashOk, byPrev, |walk|)
    requires forall i :: 0 <= i < |walk| ==> hashOk(walk[i])
    ensures |walk| == |entries| ==> Intact(genesis, hashOk, walk) && multiset(walk) == multiset(entries)
    ensures |walk| != |entries| ==> NoArrangement(genesis, hashOk, entries)
  {
    NeverRepeats(genesis, hashOk, byPrev);
    PassedLinked(genesis, hashOk, entries, byPrev, |walk|);
    WalkDecides(genesis, hashOk, entries, byPrev, walk);
  }

  datatype Verdict<Hash, Body> = Ordered(rows: seq<Row<Hash, Body>>) | Refused | RunsForever

  /** `verify_chain`. Its walk keeps no record of where it has been; where the code walks on for ever, this
      stops one round after the rows are used up, and says so. */
  method VerifyChain<Hash(==, !new), Body(!new)>(genesis: Hash, hashOk: Row<Hash, Body> -> bool,
                                                 entries: seq<Row<Hash, Body>>)
    returns (r: Verdict<Hash, Body>)
    requires NotNull(entries)
    ensures r.Ordered? ==> Intact(genesis, hashOk, r.rows) && multiset(r.rows) == multiset(entries)
    ensures !r.Ordered? ==> NoArrangement(genesis, hashOk, entries)
    ensures r.RunsForever? <==> Loops(genesis, hashOk, entries)
  {
    hide Loops, NoArrangement, Endless, Intact, ByPrev, DistinctPrevs;
    if entries == [] {
      NothingToWalk(genesis, hashOk, entries);
      return Ordered([]);
    }
    var index := IndexByPrev(genesis, hashOk, entries);
    if index.None? {
      SharedNeverLoops(genesis, hashOk, entries);
      return Refused;
    }
    var byPrev := index.value;
    LoopsIff(genesis, hashOk, entries, byPrev);
    if genesis !in byPrev {
      MissingGenesis(genesis, hashOk, entries, byPrev);
      StoppedIsNotEndless(genesis, hashOk, byPrev, 0, genesis);
      return Refused;
    }
    var ordered: seq<Row<Hash, Body>> := [];
    var currPrev := genesis;
    while currPrev in byPrev
      invariant WalkHash(genesis, hashOk, byPrev, |ordered|) == Some(currPrev)
      invariant ordered == Passed(genesis, hashOk, byPrev, |ordered|)
      invariant forall i :: 0 <= i < |ordered| ==> hashOk(ordered[i])
      invariant |ordered| <= |entries|
      decreases |entries| - |ordered|
    {
      var entry := byPrev[currPrev];
      if !hashOk(entry) {
        IndexHoldsRows(entries, byPrev, currPrev);
        MismatchRefutes(genesis, hashOk, entries, entry);
        StoppedIsNotEndless(genesis, hashOk, byPrev, |ordered|, currPrev);
        return Refused;
      }
      if |ordered| == |entries| {
        TooLongIsEndless(genesis, hashOk, entries, byPrev);
        LoopRefutes(genesis, hashOk, entries, byPrev);
        return RunsForever;
      }
      ordered := ordered + [entry];
      currPrev := entry.curr;
    }
    StoppedIsNotEndless(genesis, hashOk, byPrev, |ordered|, currPrev);
    EndedWalkDecides(genesis, hashOk, entries, byPrev, ordered);
    if |ordered| != |entries| { return Refused; }
    return Ordered(ordered);
  }

  // Appending

  function HashTest(h: Digest): Entry -> bool {
    (e: Entry) => e.prev.Some? && Encode(e.prev.value, e.body).Some? && h(Encode(e.prev.value, e.body).value) == e.curr
  }

  ghost predicate IntactAudit(h: Digest, s: seq<Entry>) {
    Intact(GENESIS_HASH_PREV, HashTest(h), s)
  }

  /** The row an append makes from the log it reads, or None where encoding raises. */
  function NewRow(h: Digest, log: seq<Entry>, body: Audit): Option<Entry> {
    var prev := HashBefore(GENESIS_HASH_PREV, log, |log|);
    match Encode(prev, body)
    case None => None
    case Some(encoded) => Some(Row(Some(prev), h(encoded), body))
  }

  /** The unique constraints on `hash_prev` and `hash_curr`. */
  predicate Admits(log: seq<Entry>, e: Entry) {
    forall i :: 0 <= i < |log| ==> log[i].prev != e.prev && log[i].curr != e.curr
  }

  /** The table after an append that read its first `seen` rows, by whatever worker. */
  function Appended(h: Digest, log: seq<Entry>, seen: nat, body: Audit): seq<Entry> {
    if seen > |log| then log
    else
      match NewRow(h, log[..seen], body)
      case None => log
      case Some(e) => if Admits(log, e) then log + [e] else log
  }

  /** The unique predecessor rejects every append that read a stale table. */
  lemma StaleRejected(h: Digest, log: seq<Entry>, seen: nat, body: Audit)
    requires IntactAudit(h, log) && seen < |log|
    ensures Appended(h, log, seen, body) == log
  {
    assert LinkedAt(GENESIS_HASH_PREV, log, seen);
    assert HashBefore(GENESIS_HASH_PREV, log[..seen], seen) == HashBefore(GENESIS_HASH_PREV, log, seen);
  }

  /** An append leaves an intact log in every case but one: a new row whose digest is the genesis value. */
  lemma AppendIntactIff(h: Digest, log: seq<Entry>, seen: nat, body: Audit)
    requires IntactAudit(h, log)
    ensures var t := Appended(h, log, seen, body);
      && (t == log || (|t| == |log| + 1 && t[..|log|] == log))
      && (IntactAudit(h, t) <==> t == log || t[|log|].curr != GENESIS_HASH_PREV)
  {
    hide Encode;
    if seen < |log| {
      StaleRejected(h, log, seen, body);
    } else if seen == |log| {
      assert log[..seen] == log;
      var r := NewRow(h, log, body);
      if r.Some? && Admits(log, r.value) {
        LinkedExtend(GENESIS_HASH_PREV, log, r.value);
        assert (log + [r.value])[..|log|] == log;
      }
    }
  }

  /** An append adds a row exactly when it read the current table, its columns can be encoded after the last hash and
      their digest is no row's hash yet; the row then names the last hash and carries that digest. */
  lemma AppendAddsIff(h: Digest, log: seq<Entry>, seen: nat, body: Audit)
    requires IntactAudit(h, log)
    ensures var prev := if log == [] then GENESIS_HASH_PREV else log[|log| - 1].curr;
      var encoded, t := Encode(prev, body), Appended(h, log, seen, body);
      && (t != log <==>
          seen == |log| && encoded.Some? && forall i :: 0 <= i < |log| ==> log[i].curr != h(encoded.value))
      && (t != log ==> t == log + [Row(Some(prev), h(encoded.value), body)])
  {
    hide Encode;
    if seen < |log| {
      StaleRejected(h, log, seen, body);
    } else if seen == |log| {
      assert log[..seen] == log;
      var prev := HashBefore(GENESIS_HASH_PREV, log, |log|);
      forall i | 0 <= i < |log| ensures log[i].prev != Some(prev) { LastHashIsFree(h, log, i); }
    }
  }

  lemma LastHashIsFree(h: Digest, log: seq<Entry>, i: nat)
    requires IntactAudit(h, log) && i < |log|
    ensures log[i].prev != Some(HashBefore(GENESIS_HASH_PREV, log, |log|))
  {
    hide HashTest;
    assert LinkedAt(GENESIS_HASH_PREV, log, i);
  }

  datatype Event = Append(seen: nat, body: Audit)

  function Table(h: Digest, log: seq<Entry>, events: seq<Event>): seq<Entry>
    decreases events
  {
    if events == [] then log else Table(h, Appended(h, log, events[0].seen, events[0].body), events[1..])
  }

  /** Every table built by appends, stale or not, is intact and extends every earlier one, as long as no
      digest is the genesis value. */
  lemma {:induction false} TableIntact(h: Digest, log: seq<Entry>, events: seq<Event>)
    requires IntactAudit(h, log) && forall x :: h(x) != GENESIS_HASH_PREV
    ensures IntactAudit(h, Table(h, log, events)) && log <= Table(h, log, events)
    decreases events
  {
    hide IntactAudit, Appended;
    if events != [] {
      AppendIntactIff(h, log, events[0].seen, events[0].body);
      AppendedHash(h, log, events[0].seen, events[0].body);
      TableIntact(h, Appended(h, log, events[0].seen, events[0].body), events[1..]);
    }
  }

  lemma AppendedHash(h: Digest, log: seq<Entry>, seen: nat, body: Audit)
    requires forall x :: h(x) != GENESIS_HASH_PREV
    ensures var t := Appended(h, log, seen, body); t != log ==> |t| == |log| + 1 && t[|log|].curr != GENESIS_HASH_PREV
  {
    hide Encode;
  }

  /** An intact log meets the walk's conditions in whatever order it is read, and is the only arrangement. */
  lemma IntactReads(h: Digest, log: seq<Entry>, read: seq<Entry>)
    requires IntactAudit(h, log) && multiset(read) == multiset(log)
    ensures NotNull(read) && UniqueHashes(read) && Ends(GENESIS_HASH_PREV, HashTest(h), read)
    ensures forall s :: multiset(s) == multiset(read) && IntactAudit(h, s) ==> s == log
  {
    hide HashTest, Endless;
    forall i, j | 0 <= i < j < |read| ensures read[i].curr != read[j].curr {
      var p, q := RearrangedPair(read, log, i, j);
    }
    forall i | 0 <= i < |read| ensures read[i].prev.Some? && read[i].curr != GENESIS_HASH_PREV {
      var p := Rearranged(read, log, i);
      assert LinkedAt(GENESIS_HASH_PREV, log, p);
    }
    forall byPrev | ByPrev(read, byPrev) ensures !Endless(GENESIS_HASH_PREV, HashTest(h), byPrev) {
      NeverBack(GENESIS_HASH_PREV, HashTest(h), read, byPrev);
    }
    forall s | multiset(s) == multiset(read) && IntactAudit(h, s) ensures s == log {
      LinkedUnique(GENESIS_HASH_PREV, s, log);
    }
  }

  class AdminAuditChainService {
    var rows: seq<Entry>

    /** `append`. `read` is what the query returned: the first `seen` rows, in any order. */
    method Append(h: Digest, seen: nat, read: seq<Entry>, body: Audit) returns (r: Option<Entry>)
      requires IntactAudit(h, rows) && seen <= |rows| && multiset(read) == multiset(rows[..seen])
      modifies this
      ensures rows == Appended(h, old(rows), seen, body)
      ensures r.Some? <==> rows != old(rows)
      ensures r.Some? ==> rows == old(rows) + [r.value]
    {
      hide Encode;
      PrefixIntact(h, rows, seen);
      TailIsLast(GENESIS_HASH_PREV, rows[..seen], read);
      var tail := FindTail(read);
      var prev := if tail.Tail? then tail.row.curr else GENESIS_HASH_PREV;
      var encoded := Encode(prev, body);
      if encoded.None? { return None; }
      var entry := Row(Some(prev), h(encoded.value), body);
      if !Admits(rows, entry) { return None; }
      rows := rows + [entry];
      return Some(entry);
    }

    /** `verify_chain`, on the rows in whatever order the query returns them. */
    method Verify(h: Digest, read: seq<Entry>) returns (r: Option<seq<Entry>>)
      requires IntactAudit(h, rows) && multiset(read) == multiset(rows)
      ensures r == Some(rows)
    {
      IntactReads(h, rows, read);
      var verdict := VerifyChain(GENESIS_HASH_PREV, HashTest(h), read);
      ArrangementExists(GENESIS_HASH_PREV, HashTest(h), read, rows);
      assert verdict.Ordered? ==> IntactAudit(h, verdict.rows);
      return if verdict.Ordered? then Some(verdict.rows) else None;
    }
  }

  lemma ArrangementExists<Hash(!new), Body(!new)>(genesis: Hash, hashOk: Row<Hash, Body> -> bool,
                                                 entries: seq<Row<Hash, Body>>, s: seq<Row<Hash, Body>>)
    requires multiset(s) == multiset(entries) && Intact(genesis, hashOk, s)
    ensures !NoArrangement(genesis, hashOk, entries)
  {
  }

  lemma PrefixIntact(h: Digest, log: seq<Entry>, n: nat)
    requires IntactAudit(h, log) && n <= |log|
    ensures IntactAudit(h, log[..n])
  {
    hide HashTest;
    var s := log[..n];
    forall i | 0 <= i < n ensures LinkedAt(GENESIS_HASH_PREV, s, i) { assert LinkedAt(GENESIS_HASH_PREV, log, i); }
  }

  // Tamper evidence

  predicate Collide(h: Digest, x: Entry, y: Entry) {
    x.prev.Some? && y.prev.Some? &&
    var a, b := Encode(x.prev.value, x.body), Encode(y.prev.value, y.body);
    a.Some? && b.Some? && a != b && h(a.value) == h(b.value)
  }

  ghost predicate CollisionBetween(h: Digest, s: seq<Entry>, t: seq<Entry>) {
    exists i, j :: 0 <= i < |s| && 0 <= j < |t| && Collide(h, s[i], t[j])
  }

  lemma SameHashSameEntry(h: Digest, s: seq<Entry>, t: seq<Entry>, i: nat, j: nat)
    requires IntactAudit(h, s) && IntactAudit(h, t) && !CollisionBetween(h, s, t)
    requires i < |s| && j < |t| && s[i].curr == t[j].curr
    ensures s[i] == t[j]
  {
    hide Encode;
    var test := HashTest(h);
    assert test(s[i]) && test(t[j]);
    assert !Collide(h, s[i], t[j]);
    EncodeInjective(s[i].prev.value, s[i].body, t[j].prev.value, t[j].body);
  }

  /** The last hash determines every column of every row, unless two rows exhibit a digest collision. */
  lemma TailHashFixesAudit(h: Digest, s: seq<Entry>, t: seq<Entry>)
    requires IntactAudit(h, s) && IntactAudit(h, t) && s != [] && t != []
    requires s[|s| - 1].curr == t[|t| - 1].curr
    ensures CollisionBetween(h, s, t) || s == t
  {
    hide HashTest;
    if !CollisionBetween(h, s, t) {
      hide CollisionBetween;
      forall i, j | 0 <= i < |s| && 0 <= j < |t| && s[i].curr == t[j].curr ensures s[i] == t[j] {
        SameHashSameEntry(h, s, t, i, j);
      }
      TailFixesContents(GENESIS_HASH_PREV, (e: Entry) => e, s, t);
    }
  }
}
