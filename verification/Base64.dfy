/** Base64 (section 4 of RFC 4648), as the strict decoder of Python's binascii reads it. */
module Base64 {
  import opened Bytes

  const PAD: Byte := 61

  type Six = v: int | 0 <= v < 64

  function Symbol(v: Six): (c: Byte)
    ensures c != PAD && c != 10 && c != 13
  {
    if v < 26 then 65 + v else if v < 52 then 71 + v else if v < 62 then v - 4 else if v == 62 then 43 else 47
  }

  function Sextet(c: Byte): (v: Option<Six>)
    ensures v.Some? ==> Symbol(v.value) == c
  {
    if 65 <= c <= 90 then Some(c - 65)
    else if 97 <= c <= 122 then Some(c - 71)
    else if 48 <= c <= 57 then Some(c + 4)
    else if c == 43 then Some(62)
    else if c == 47 then Some(63)
    else None
  }

  lemma SextetInverts(v: Six)
    ensures Sextet(Symbol(v)) == Some(v)
  {
  }

  /** Table 1 of RFC 4648. */
  const ALPHABET := "ABCDEFGHIJKLMNOPQRSTUVWXYZ" + "abcdefghijklmnopqrstuvwxyz" + "0123456789+/"

  /** Every sextet is written as its character in that table. */
  lemma SymbolsAreTheAlphabet(v: Six)
    ensures |ALPHABET| == 64 && Symbol(v) == ALPHABET[v] as int
  {
    assert forall i :: 0 <= i < 26 ==> ALPHABET[i] as int == 65 + i;
    assert forall i :: 26 <= i < 52 ==> ALPHABET[i] as int == 71 + i;
    assert forall i :: 52 <= i < 62 ==> ALPHABET[i] as int == i - 4;
  }

  // Sextets

  function SextetCount(n: nat): nat {
    (4 * n + 2) / 3
  }

  /** How many padding characters complete the last group. */
  function PadCount(n: nat): (k: nat)
    ensures k <= 2
  {
    2 - (n + 2) % 3
  }

  /** A complete group of three bytes, as four sextets. */
  function FourOf(a: Byte, b: Byte, c: Byte): (s: seq<Six>)
    ensures |s| == 4
  {
    [a / 4, a % 4 * 16 + b / 16, b % 16 * 4 + c / 64, c % 64]
  }

  /** The sextets of a byte string; a final group of one or two bytes is filled up with zero bits. */
  function ToSextets(b: Bytes): (s: seq<Six>)
    ensures |s| == SextetCount(|b|)
  {
    if b == [] then []
    else if |b| == 1 then [b[0] / 4, b[0] % 4 * 16]
    else if |b| == 2 then [b[0] / 4, b[0] % 4 * 16 + b[1] / 16, b[1] % 16 * 4]
    else FourOf(b[0], b[1], b[2]) + ToSextets(b[3..])
  }

  function First(x: int, y: int): (b: Byte)
    requires 0 <= x < 64 && 0 <= y < 64
  {
    x * 4 + y / 16
  }

  function Second(x: int, y: int): (b: Byte)
    requires 0 <= x < 64 && 0 <= y < 64
  {
    x % 16 * 16 + y / 4
  }

  function Third(x: int, y: int): (b: Byte)
    requires 0 <= x < 64 && 0 <= y < 64
  {
    x % 4 * 64 + y
  }

  function ThreeOf(w: Six, x: Six, y: Six, z: Six): (b: Bytes)
    ensures |b| == 3
  {
    [First(w, x), Second(x, y), Third(y, z)]
  }

  lemma FourOfThree(w: Six, x: Six, y: Six, z: Six)
    ensures var b := ThreeOf(w, x, y, z); FourOf(b[0], b[1], b[2]) == [w, x, y, z]
  {
    var a, b, c := First(w, x), Second(x, y), Third(y, z);
    assert a / 4 == w && a % 4 == x / 16;
    assert b / 16 == x % 16 && b % 16 == y / 4;
    assert c / 64 == y % 4 && c % 64 == z;
    hide First, Second, Third;
    assert ThreeOf(w, x, y, z) == [a, b, c];
    assert a % 4 * 16 + b / 16 == x && b % 16 * 4 + c / 64 == y;
  }

  lemma ThreeOfFour(a: Byte, b: Byte, c: Byte)
    ensures var s := FourOf(a, b, c); ThreeOf(s[0], s[1], s[2], s[3]) == [a, b, c]
  {
    var w, x, y, z := a / 4, a % 4 * 16 + b / 16, b % 16 * 4 + c / 64, c % 64;
    assert x / 16 == a % 4 && x % 16 == b / 16;
    assert y / 4 == b % 16 && y % 4 == c / 64;
    assert FourOf(a, b, c) == [w, x, y, z];
    assert First(w, x) == a && Second(x, y) == b && Third(y, z) == c;
  }

  /** The whole bytes in a string of sextets. The bits left over are ignored, whatever they are. */
  function FromSextets(s: seq<Six>): (b: Bytes)
    ensures |b| == |s| * 3 / 4
  {
    if |s| < 2 then []
    else if |s| == 2 then [First(s[0], s[1])]
    else if |s| == 3 then [First(s[0], s[1]), Second(s[1], s[2])]
    else ThreeOf(s[0], s[1], s[2], s[3]) + FromSextets(s[4..])
  }

  lemma {:induction false} SextetsInvert(b: Bytes)
    ensures FromSextets(ToSextets(b)) == b
  {
    if |b| >= 3 {
      var group := FourOf(b[0], b[1], b[2]);
      SextetsInvert(b[3..]);
      ThreeOfFour(b[0], b[1], b[2]);
      FromSextetsGroup(group, ToSextets(b[3..]));
      assert ToSextets(b) == group + ToSextets(b[3..]);
      hide FourOf, ThreeOf, ToSextets, FromSextets;
      assert b == [b[0], b[1], b[2]] + b[3..];
    }
  }

  lemma FromSextetsGroup(group: seq<Six>, rest: seq<Six>)
    requires |group| == 4
    ensures FromSextets(group + rest) == ThreeOf(group[0], group[1], group[2], group[3]) + FromSextets(rest)
  {
    assert (group + rest)[4..] == rest;
  }

  // Symbols

  function Symbols(s: seq<Six>): (t: Bytes)
    ensures |t| == |s|
    ensures forall i :: 0 <= i < |t| ==> t[i] == Symbol(s[i])
  {
    if s == [] then [] else [Symbol(s[0])] + Symbols(s[1..])
  }

  predicate InAlphabet(t: Bytes) {
    forall c <- t :: Sextet(c).Some?
  }

  function Sextets(t: Bytes): (s: seq<Six>)
    requires InAlphabet(t)
    ensures |s| == |t| && forall i :: 0 <= i < |t| ==> Sextet(t[i]) == Some(s[i])
  {
    if t == [] then [] else
      assert t[0] in t;
      [Sextet(t[0]).value] + Sextets(t[1..])
  }

  lemma SymbolsInvert(s: seq<Six>)
    ensures InAlphabet(Symbols(s)) && Sextets(Symbols(s)) == s
  {
    forall i | 0 <= i < |s| ensures Sextet(Symbols(s)[i]) == Some(s[i]) {
      assert s[i] in s;
      SextetInverts(s[i]);
    }
  }

  function Padding(n: nat): (p: Bytes)
    requires n <= 2
    ensures |p| == n
  {
    if n == 0 then [] else if n == 1 then [PAD] else [PAD, PAD]
  }

  /** `base64.b64encode`. */
  function Encode(b: Bytes): (t: Bytes)
    ensures |t| == (|b| + 2) / 3 * 4
  {
    EncodedSize(|b|);
    Symbols(ToSextets(b)) + Padding(PadCount(|b|))
  }

  lemma EncodedSize(n: nat)
    ensures SextetCount(n) + PadCount(n) == (n + 2) / 3 * 4
  {
    var q, r := n / 3, n % 3;
    assert n == 3 * q + r;
    assert SextetCount(n) == 4 * q + (4 * r + 2) / 3;
    assert (n + 2) / 3 == q + (r + 2) / 3 && (n + 2) % 3 == (r + 2) % 3;
  }

  /** Where the padding starts. */
  function DataLength(t: Bytes): (n: nat)
    ensures n <= |t| && (n < |t| ==> t[n] == PAD) && forall i :: 0 <= i < n ==> t[i] != PAD
  {
    if t == [] || t[0] == PAD then 0 else 1 + DataLength(t[1..])
  }

  /** Whether k padding characters may follow n symbols: they complete the last group, and a group that is
      already complete tolerates any number of them. */
  predicate PaddingOk(n: nat, k: nat) {
    match n % 4
    case 0 => k == 0 || n > 0
    case 1 => false
    case 2 => k == 2
    case _ => k == 1
  }

  predicate AllPad(p: Bytes) {
    forall c <- p :: c == PAD
  }

  /** Symbols, then only padding, and the right amount of it. */
  predicate Accepts(t: Bytes) {
    var n := DataLength(t);
    InAlphabet(t[..n]) && AllPad(t[n..]) && PaddingOk(n, |t| - n)
  }

  /** `base64.b64decode(t, validate=True)`: None where it raises. */
  function Decode(t: Bytes): (b: Option<Bytes>)
    ensures b.Some? <==> Accepts(t)
  {
    if Accepts(t) then Some(FromSextets(Sextets(t[..DataLength(t)]))) else None
  }

  lemma {:induction false} DataLengthIs(d: Bytes, p: Bytes)
    requires (forall i :: 0 <= i < |d| ==> d[i] != PAD) && (p != [] ==> p[0] == PAD)
    ensures DataLength(d + p) == |d|
  {
    if d == [] {
      assert d + p == p;
    } else {
      assert (d + p)[1..] == d[1..] + p;
      DataLengthIs(d[1..], p);
    }
  }

  /** Decoding inverts encoding. */
  lemma DecodeEncode(b: Bytes)
    ensures Decode(Encode(b)) == Some(b)
  {
    var s, p := ToSextets(b), Padding(PadCount(|b|));
    SymbolsInvert(s);
    SextetsInvert(b);
    PaddingFits(|b|);
    assert Encode(b) == Symbols(s) + p && AllPad(p);
    hide SextetCount, PadCount, Encode, PaddingOk, InAlphabet, Padding, Decode, ToSextets, FromSextets, Symbols;
    hide Sextets;
    DecodePadded(Symbols(s), p);
  }

  lemma DecodePadded(d: Bytes, p: Bytes)
    requires InAlphabet(d) && PaddingOk(|d|, |p|) && AllPad(p)
    ensures Decode(d + p) == Some(FromSextets(Sextets(d)))
  {
    hide FromSextets, Sextets;
    forall i | 0 <= i < |d| ensures d[i] != PAD {
      assert d[i] in d;
      assert Sextet(d[i]).Some?;
    }
    assert p != [] ==> p[0] in p;
    DataLengthIs(d, p);
    assert (d + p)[..|d|] == d && (d + p)[|d|..] == p;
  }

  lemma PaddingFits(n: nat)
    ensures PaddingOk(SextetCount(n), PadCount(n))
  {
    var q, r := n / 3, n % 3;
    assert (4 * n + 2) / 3 == 4 * q + (4 * r + 2) / 3;
    assert (n + 2) % 3 == (r + 2) % 3;
  }

  /** Whether the bits a final short group leaves over are zero. */
  predicate LeftoverClear(s: seq<Six>) {
    && (|s| % 4 == 2 ==> s[|s| - 1] % 16 == 0)
    && (|s| % 4 == 3 ==> s[|s| - 1] % 4 == 0)
  }

  lemma {:induction false} SextetsRestoredIff(s: seq<Six>)
    requires |s| % 4 != 1
    ensures ToSextets(FromSextets(s)) == s <==> LeftoverClear(s)
  {
    if |s| < 4 {
      ShortSextets(s);
    } else {
      hide ToSextets, FromSextets, LeftoverClear;
      SextetsRestoredIff(s[4..]);
      FourSextets(s);
    }
  }

  lemma ShortSextets(s: seq<Six>)
    requires |s| % 4 != 1 && |s| < 4
    ensures ToSextets(FromSextets(s)) == s <==> LeftoverClear(s)
  {
    hide *;
    if s == [] {
      NoSextets();
    } else if |s| == 2 {
      assert s == [s[0], s[1]];
      TwoSextets(s[0], s[1]);
    } else {
      assert s == [s[0], s[1], s[2]];
      ThreeSextets(s[0], s[1], s[2]);
    }
  }

  lemma NoSextets()
    ensures ToSextets(FromSextets([])) == [] && LeftoverClear([])
  {
  }

  lemma TwoSextets(x: Six, y: Six)
    ensures ToSextets(FromSextets([x, y])) == [x, y] <==> LeftoverClear([x, y])
  {
    var a := First(x, y);
    assert a / 4 == x && a % 4 == y / 16;
    assert FromSextets([x, y]) == [a];
    hide First, FromSextets;
    assert ToSextets([a]) == [x, y / 16 * 16];
    hide ToSextets;
    assert y == y / 16 * 16 + y % 16;
    assert [x, y / 16 * 16][1] == y / 16 * 16 && [x, y][1] == y;
  }

  lemma ThreeSextets(x: Six, y: Six, z: Six)
    ensures ToSextets(FromSextets([x, y, z])) == [x, y, z] <==> LeftoverClear([x, y, z])
  {
    var a, b := First(x, y), Second(y, z);
    assert a / 4 == x && a % 4 == y / 16;
    assert b / 16 == y % 16 && b % 16 == z / 4;
    assert FromSextets([x, y, z]) == [a, b];
    hide First, Second, FromSextets;
    assert ToSextets([a, b]) == [x, y, z / 4 * 4];
    hide ToSextets;
    assert z == z / 4 * 4 + z % 4;
    assert [x, y, z / 4 * 4][2] == z / 4 * 4 && [x, y, z][2] == z;
  }

  lemma FourSextets(s: seq<Six>)
    requires |s| >= 4
    ensures ToSextets(FromSextets(s)) == s[..4] + ToSextets(FromSextets(s[4..]))
    ensures ToSextets(FromSextets(s)) == s <==> ToSextets(FromSextets(s[4..])) == s[4..]
    ensures LeftoverClear(s) <==> LeftoverClear(s[4..])
  {
    var group, rest := ThreeOf(s[0], s[1], s[2], s[3]), FromSextets(s[4..]);
    FourOfThree(s[0], s[1], s[2], s[3]);
    TakeFour(s);
    FromSextetsGroup(s[..4], s[4..]);
    ToSextetsGroup(group, rest);
    LeftoverTail(s);
    hide FourOf, ThreeOf, ToSextets, FromSextets, LeftoverClear;
    ConcatTail(ToSextets(group + rest), s, s[..4], ToSextets(rest), s[4..]);
  }

  lemma LeftoverTail(s: seq<Six>)
    requires |s| >= 4
    ensures LeftoverClear(s) <==> LeftoverClear(s[4..])
  {
    var t := s[4..];
    assert |t| % 4 == |s| % 4;
    if |t| > 0 { assert t[|t| - 1] == s[|s| - 1]; }
  }

  lemma ToSextetsGroup(group: Bytes, rest: Bytes)
    requires |group| == 3
    ensures ToSextets(group + rest) == FourOf(group[0], group[1], group[2]) + ToSextets(rest)
  {
    assert (group + rest)[3..] == rest;
  }

  lemma TakeFour<T>(s: seq<T>)
    requires |s| >= 4
    ensures s[..4] == [s[0], s[1], s[2], s[3]] && s == s[..4] + s[4..]
  {
  }

  lemma ConcatTail<T>(x: seq<T>, y: seq<T>, head: seq<T>, a: seq<T>, b: seq<T>)
    requires x == head + a && y == head + b
    ensures x == y <==> a == b
  {
    if x == y { ConcatSplit(head, a, head, b); }
  }

  lemma SymbolsRestore(t: Bytes)
    requires InAlphabet(t)
    ensures Symbols(Sextets(t)) == t
  {
    forall i | 0 <= i < |t| ensures Symbols(Sextets(t))[i] == t[i] {
      assert Sextet(t[i]) == Some(Sextets(t)[i]);
    }
  }

  /** The decoder is not one-to-one: an accepted text is the canonical one exactly when its leftover bits are
      zero and no padding follows a complete group. */
  lemma CanonicalIff(t: Bytes)
    requires Decode(t).Some?
    ensures Encode(Decode(t).value) == t <==>
            LeftoverClear(Sextets(t[..DataLength(t)])) && (DataLength(t) % 4 == 0 ==> DataLength(t) == |t|)
  {
    hide DataLength, Sextets, FromSextets, InAlphabet, PaddingOk, AllPad, Encode, LeftoverClear;
    SplitAt(t, DataLength(t));
    CanonicalData(t[..DataLength(t)], t[DataLength(t)..]);
  }

  lemma SplitAt<T>(s: seq<T>, n: nat)
    requires n <= |s|
    ensures s == s[..n] + s[n..]
  {
  }

  lemma CanonicalData(d: Bytes, p: Bytes)
    requires InAlphabet(d) && PaddingOk(|d|, |p|) && AllPad(p)
    ensures Encode(FromSextets(Sextets(d))) == d + p <==> LeftoverClear(Sextets(d)) && (|d| % 4 == 0 ==> p == [])
  {
    var s := Sextets(d);
    var b := FromSextets(s);
    var q := Padding(PadCount(|b|));
    SextetsRestoredIff(s);
    PaddingCount(|d|);
    EncodedLength(|d|);
    SamePadding(p, q);
    hide ToSextets, FromSextets, Sextets, Symbols, LeftoverClear, InAlphabet, Padding;
    assert |q| == |p| <==> (|d| % 4 == 0 ==> p == []);
    SymbolsRestoreIff(ToSextets(b), d);
    assert Encode(b) == Symbols(ToSextets(b)) + q;
    hide PaddingOk, Encode, PadCount, SextetCount;
    PairEqual(Symbols(ToSextets(b)), q, d, p);
  }

  lemma PairEqual<T>(a: seq<T>, x: seq<T>, b: seq<T>, y: seq<T>)
    requires |a| == |b|
    ensures a + x == b + y <==> a == b && x == y
  {
    if a + x == b + y { ConcatSplit(a, x, b, y); }
  }

  lemma SymbolsRestoreIff(s: seq<Six>, d: Bytes)
    requires InAlphabet(d)
    ensures Symbols(s) == d <==> s == Sextets(d)
  {
    SymbolsRestore(d);
    SymbolsInvert(s);
  }

  lemma SamePadding(p: Bytes, q: Bytes)
    requires AllPad(p) && |q| <= 2 && q == Padding(|q|)
    ensures p == q <==> |p| == |q|
  {
    forall i | 0 <= i < |p| ensures p[i] == PAD { assert p[i] in p; }
  }

  lemma EncodedLength(n: nat)
    requires n % 4 != 1
    ensures SextetCount(n * 3 / 4) == n
  {
    var q, r := n / 4, n % 4;
    assert n * 3 / 4 == 3 * q + r * 3 / 4;
  }

  /** The canonical padding completes the last group. */
  lemma PaddingCount(n: nat)
    requires n % 4 != 1
    ensures PadCount(n * 3 / 4) == if n % 4 == 0 then 0 else 4 - n % 4
  {
    var q, r := n / 4, n % 4;
    assert n * 3 / 4 == 3 * q + r * 3 / 4;
    assert (3 * q + r * 3 / 4 + 2) % 3 == (r * 3 / 4 + 2) % 3;
  }

  /** Any padding after a text of complete groups is accepted, and changes nothing. */
  lemma StrayPaddingIgnored(d: Bytes, p: Bytes)
    requires InAlphabet(d) && |d| % 4 == 0 && d != [] && AllPad(p)
    ensures Decode(d).Some? && Decode(d + p) == Decode(d)
  {
    hide FromSextets, Sextets, InAlphabet, Decode;
    DecodePadded(d, p);
    DecodePadded(d, []);
    AppendNothing(d);
  }

  lemma AppendNothing<T>(s: seq<T>)
    ensures s + [] == s
  {
  }
}
