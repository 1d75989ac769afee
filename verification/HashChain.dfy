/** Hash-chained tables: rows that name their predecessor's hash, kept as an unordered bag. Both the
    revocation log and the administrator audit log are read back through this module. The hash values
    are any type with equality; `genesis` is the value the first row names. */
module HashChain {
  import opened Bytes

  /** A table row: the predecessor column may be null. */
  datatype Row<+Hash, +Body> = Row(prev: Option<Hash>, curr: Hash, body: Body)

  function HashBefore<Hash, Body>(genesis: Hash, s: seq<Row<Hash, Body>>, i: nat): Hash
    requires i <= |s|
  {
    if i == 0 then genesis else s[i - 1].curr
  }

  predicate LinkedAt<Hash(==), Body>(genesis: Hash, s: seq<Row<Hash, Body>>, i: nat)
    requires i < |s|
  {
    s[i].prev == Some(HashBefore(genesis, s, i))
  }

  /** In this order the rows form one list from genesis, and no hash is used twice. */
  ghost predicate IsLinked<Hash, Body>(genesis: Hash, s: seq<Row<Hash, Body>>) {
    && (forall i :: 0 <= i < |s| ==> LinkedAt(genesis, s, i))
    && (forall i :: 0 <= i < |s| ==> s[i].curr != genesis)
    && (forall i, j :: 0 <= i < j < |s| ==> s[i].curr != s[j].curr)
  }

  lemma LinkedPrevsDistinct<Hash, Body>(genesis: Hash, s: seq<Row<Hash, Body>>, i: nat, j: nat)
    requires IsLinked(genesis, s) && i < |s| && j < |s| && s[i].prev == s[j].prev
    ensures i == j
  {
    assert LinkedAt(genesis, s, i) && LinkedAt(genesis, s, j);
  }

  /** A row with a new hash, chained to the tail, keeps the list linked unless its hash is the genesis value. */
  lemma LinkedExtend<Hash, Body>(genesis: Hash, s: seq<Row<Hash, Body>>, e: Row<Hash, Body>)
    requires IsLinked(genesis, s) && e.prev == Some(HashBefore(genesis, s, |s|))
    requires forall i :: 0 <= i < |s| ==> s[i].curr != e.curr
    ensures IsLinked(genesis, s + [e]) <==> e.curr != genesis
  {
    var t := s + [e];
    forall i | 0 <= i < |t| ensures LinkedAt(genesis, t, i) {
      assert i < |s| ==> LinkedAt(genesis, s, i);
    }
    assert t[|s|] == e;
  }

  lemma RemoveAt<T>(a: seq<T>, i: nat)
    requires i < |a|
    ensures multiset(a[..i] + a[i + 1..]) == multiset(a) - multiset{a[i]}
  {
    assert a == (a[..i] + [a[i]]) + a[i + 1..];
    assert multiset(a) == multiset(a[..i]) + multiset{a[i]} + multiset(a[i + 1..]);
  }

  lemma PositionOf<T>(a: seq<T>, x: T) returns (p: nat)
    requires x in multiset(a)
    ensures p < |a| && a[p] == x
  {
    p :| 0 <= p < |a| && a[p] == x;
  }

  lemma Rearranged<T>(a: seq<T>, b: seq<T>, i: nat) returns (p: nat)
    requires multiset(a) == multiset(b) && i < |a|
    ensures p < |b| && b[p] == a[i]
  {
    assert a[i] in multiset(a);
    p := PositionOf(b, a[i]);
  }

  /** Two positions of a bag stay two positions in every rearrangement of it. */
  lemma RearrangedPair<T>(a: seq<T>, b: seq<T>, i: nat, j: nat) returns (p: nat, q: nat)
    requires multiset(a) == multiset(b) && i < j < |a|
    ensures p < |b| && q < |b| && p != q && b[p] == a[i] && b[q] == a[j]
  {
    p := Rearranged(a, b, i);
    RemoveAt(a, i);
    RemoveAt(b, p);
    var restA, restB := a[..i] + a[i + 1..], b[..p] + b[p + 1..];
    assert restA[j - 1] == a[j];
    var k := Rearranged(restA, restB, j - 1);
    q := if k < p then k else k + 1;
  }

  lemma SameBagSameLength<T>(a: seq<T>, b: seq<T>)
    requires multiset(a) == multiset(b)
    ensures |a| == |b|
  {
    assert |a| == |multiset(a)| && |b| == |multiset(b)|;
  }

  /** A bag of rows has at most one arrangement that is a linked list. */
  lemma {:induction false} LinkedUnique<Hash, Body>(genesis: Hash, s: seq<Row<Hash, Body>>, t: seq<Row<Hash, Body>>)
    requires IsLinked(genesis, s) && IsLinked(genesis, t) && multiset(s) == multiset(t)
    ensures s == t
  {
    SameBagSameLength(s, t);
    for i := 0 to |s|
      invariant forall k :: 0 <= k < i ==> s[k] == t[k]
    {
      var k := Rearranged(t, s, i);
      assert LinkedAt(genesis, t, i) && LinkedAt(genesis, s, i);
      LinkedPrevsDistinct(genesis, s, k, i);
    }
  }

  /** Everything the first pass over the rows has established about the rows seen so far. */
  ghost predicate Indexed<Hash, Body>(genesis: Hash, seen: seq<Row<Hash, Body>>, prevMap: map<Hash, Row<Hash, Body>>) {
    && (forall i :: 0 <= i < |seen| ==> seen[i].prev.Some? && seen[i].curr != genesis)
    && (forall i :: 0 <= i < |seen| ==> seen[i].prev.value in prevMap && prevMap[seen[i].prev.value] == seen[i])
    && (forall p :: p in prevMap ==> prevMap[p] in seen && prevMap[p].prev == Some(p))
    && (forall i, j :: 0 <= i < j < |seen| ==> seen[i].curr != seen[j].curr)
  }

  lemma IndexOneMore<Hash, Body>(genesis: Hash, seen: seq<Row<Hash, Body>>, prevMap: map<Hash, Row<Hash, Body>>,
                                 row: Row<Hash, Body>)
    requires Indexed(genesis, seen, prevMap)
    requires row.prev.Some? && row.curr != genesis && row.prev.value !in prevMap
    requires forall i :: 0 <= i < |seen| ==> seen[i].curr != row.curr
    ensures Indexed(genesis, seen + [row], prevMap[row.prev.value := row])
  {
    var s := seen + [row];
    var extended := prevMap[row.prev.value := row];
    forall p | p in extended ensures extended[p] in s {
      if p in prevMap { assert prevMap[p] in seen; } else { assert s[|seen|] == row; }
    }
  }

  /** No arrangement of the rows is linked when two of them share a hash on the same side. */
  lemma ClashRefutes<Hash, Body>(genesis: Hash, entries: seq<Row<Hash, Body>>, s: seq<Row<Hash, Body>>, i: nat, j: nat)
    requires multiset(s) == multiset(entries) && i < j < |entries|
    requires entries[i].curr == entries[j].curr || entries[i].prev == entries[j].prev
    ensures !IsLinked(genesis, s)
  {
    if IsLinked(genesis, s) {
      var p, q := RearrangedPair(entries, s, i, j);
      if s[p].prev == s[q].prev { LinkedPrevsDistinct(genesis, s, p, q); }
    }
  }

  /** The walk cannot come back to a predecessor it has already used, nor to a hash it has already passed. */
  lemma NoRevisit<Hash, Body>(genesis: Hash, entries: seq<Row<Hash, Body>>, prevMap: map<Hash, Row<Hash, Body>>,
                              walk: seq<Row<Hash, Body>>)
    requires Indexed(genesis, entries, prevMap)
    requires IsLinked(genesis, walk)
    ensures forall i :: 0 <= i < |walk| ==> walk[i].prev != Some(HashBefore(genesis, walk, |walk|))
  {
    forall i | 0 <= i < |walk| ensures walk[i].prev != Some(HashBefore(genesis, walk, |walk|)) {
      assert LinkedAt(genesis, walk, i);
    }
  }

  /** One step of the walk: following the index extends a linked list of rows of the bag. */
  lemma StepKeepsLinked<Hash, Body>(genesis: Hash, entries: seq<Row<Hash, Body>>, prevMap: map<Hash, Row<Hash, Body>>,
                                    walk: seq<Row<Hash, Body>>)
    requires Indexed(genesis, entries, prevMap)
    requires IsLinked(genesis, walk) && forall i :: 0 <= i < |walk| ==> walk[i] in entries
    requires HashBefore(genesis, walk, |walk|) in prevMap
    ensures IsLinked(genesis, walk + [prevMap[HashBefore(genesis, walk, |walk|)]])
  {
    var next := prevMap[HashBefore(genesis, walk, |walk|)];
    var s := walk + [next];
    NoRevisit(genesis, entries, prevMap, walk);
    forall i | 0 <= i < |walk| ensures walk[i].curr != next.curr {
      var a :| 0 <= a < |entries| && entries[a] == walk[i];
      var b :| 0 <= b < |entries| && entries[b] == next;
      assert a != b;
    }
    forall i | 0 <= i < |s| ensures LinkedAt(genesis, s, i) {
      assert HashBefore(genesis, s, i) == HashBefore(genesis, walk, i);
      assert i < |walk| ==> LinkedAt(genesis, walk, i);
    }
  }

  lemma IndexDecides<Hash, Body>(genesis: Hash, entries: seq<Row<Hash, Body>>, prevMap: map<Hash, Row<Hash, Body>>,
                                 x: Row<Hash, Body>, y: Row<Hash, Body>)
    requires Indexed(genesis, entries, prevMap)
    requires x in entries && y in entries && x.prev == y.prev
    ensures x == y && x.prev.Some? && x.prev.value in prevMap
  {
  }

  /** Two linked lists of rows of the bag agree as far as both go. */
  lemma {:induction false} LinkedListsAgree<Hash, Body>(genesis: Hash, entries: seq<Row<Hash, Body>>,
                                                        prevMap: map<Hash, Row<Hash, Body>>,
                                                        walk: seq<Row<Hash, Body>>, s: seq<Row<Hash, Body>>, n: nat)
    requires Indexed(genesis, entries, prevMap)
    requires IsLinked(genesis, walk) && forall i :: 0 <= i < |walk| ==> walk[i] in entries
    requires IsLinked(genesis, s) && forall i :: 0 <= i < |s| ==> s[i] in entries
    requires n <= |walk| && n <= |s|
    ensures forall k :: 0 <= k < n ==> walk[k] == s[k]
  {
    if n > 0 {
      LinkedListsAgree(genesis, entries, prevMap, walk, s, n - 1);
      assert LinkedAt(genesis, walk, n - 1);
      assert LinkedAt(genesis, s, n - 1);
      IndexDecides(genesis, entries, prevMap, walk[n - 1], s[n - 1]);
    }
  }

  /** The walk can only retrace a linked arrangement that exists, all the way to its end. */
  lemma WalkFollows<Hash, Body>(genesis: Hash, entries: seq<Row<Hash, Body>>, prevMap: map<Hash, Row<Hash, Body>>,
                                walk: seq<Row<Hash, Body>>, s: seq<Row<Hash, Body>>)
    requires Indexed(genesis, entries, prevMap)
    requires IsLinked(genesis, walk) && forall i :: 0 <= i < |walk| ==> walk[i] in entries
    requires HashBefore(genesis, walk, |walk|) !in prevMap
    requires multiset(s) == multiset(entries) && IsLinked(genesis, s)
    ensures walk == s
  {
    forall i | 0 <= i < |s| ensures s[i] in entries { var p := Rearranged(s, entries, i); }
    if |walk| < |s| {
      LinkedListsAgree(genesis, entries, prevMap, walk, s, |walk|);
      assert LinkedAt(genesis, s, |walk|);
      IndexDecides(genesis, entries, prevMap, s[|walk|], s[|walk|]);
    } else {
      LinkedListsAgree(genesis, entries, prevMap, walk, s, |s|);
      if |s| < |walk| {
        var q :| 0 <= q < |entries| && entries[q] == walk[|s|];
        var k := Rearranged(entries, s, q);
        LinkedPrevsDistinct(genesis, walk, k, |s|);
      }
    }
  }

  /** A linked list of rows of the bag, as long as the bag, uses every row exactly once. */
  lemma {:induction false} LinkedSubBag<Hash, Body>(genesis: Hash, entries: seq<Row<Hash, Body>>,
                                                    walk: seq<Row<Hash, Body>>)
    requires IsLinked(genesis, walk) && forall i :: 0 <= i < |walk| ==> walk[i] in entries
    ensures multiset(walk) <= multiset(entries)
    ensures |walk| == |entries| ==> multiset(walk) == multiset(entries)
  {
    forall e | e in multiset(walk) ensures multiset(walk)[e] == 1 && e in multiset(entries) {
      var i := PositionOf(walk, e);
      RemoveAt(walk, i);
      if e in multiset(walk[..i] + walk[i + 1..]) {
        var k := PositionOf(walk[..i] + walk[i + 1..], e);
      }
    }
    if |walk| == |entries| {
      assert multiset(entries) == multiset(walk) + (multiset(entries) - multiset(walk));
      assert |multiset(walk)| == |multiset(entries)|;
    }
  }

  /** Where a row's hash determines its predecessor's, equal hashes at two positions of two linked lists
      force equal positions and equal hashes all the way back to genesis. */
  lemma {:induction false} HashFixesPrefix<Hash, Body>(genesis: Hash, s: seq<Row<Hash, Body>>, t: seq<Row<Hash, Body>>,
                                                       i: nat, j: nat)
    requires IsLinked(genesis, s) && IsLinked(genesis, t) && i < |s| && j < |t|
    requires forall a, b :: 0 <= a < |s| && 0 <= b < |t| && s[a].curr == t[b].curr ==> s[a].prev == t[b].prev
    requires s[i].curr == t[j].curr
    ensures i == j && forall k :: 0 <= k <= i ==> s[k].curr == t[k].curr
    decreases i
  {
    assert LinkedAt(genesis, s, i) && LinkedAt(genesis, t, j);
    if i > 0 && j > 0 {
      HashFixesPrefix(genesis, s, t, i - 1, j - 1);
    }
  }

  /** ... so the last hash fixes the length of the list and whatever content a row's hash determines. */
  lemma TailFixesContents<Hash, Body, Content>(genesis: Hash, content: Row<Hash, Body> -> Content,
                                               s: seq<Row<Hash, Body>>, t: seq<Row<Hash, Body>>)
    requires IsLinked(genesis, s) && IsLinked(genesis, t) && s != [] && t != []
    requires forall a, b :: 0 <= a < |s| && 0 <= b < |t| && s[a].curr == t[b].curr
                            ==> s[a].prev == t[b].prev && content(s[a]) == content(t[b])
    requires s[|s| - 1].curr == t[|t| - 1].curr
    ensures |s| == |t| && forall k :: 0 <= k < |s| ==> content(s[k]) == content(t[k])
  {
    HashFixesPrefix(genesis, s, t, |s| - 1, |t| - 1);
  }
}
