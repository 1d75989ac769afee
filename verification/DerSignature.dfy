/** The converter between a raw 64-byte signature r || s and its DER form, two INTEGERs in a SEQUENCE. */
module DerSignature {
  import opened Bytes

  // Specification

  function StripZeros(v: Bytes): (t: Bytes)
    ensures |t| <= |v| && (t == [] || t[0] != 0)
  {
    if v != [] && v[0] == 0 then StripZeros(v[1..]) else v
  }

  /** The INTEGER of an unsigned big-endian value. */
  function DerInt(v: Bytes): Bytes
    requires |v| <= 32
  {
    var t := StripZeros(v);
    if t == [] then [0x02, 0x01, 0x00]
    else if t[0] >= 0x80 then [0x02, |t| + 1, 0x00] + t
    else [0x02, |t|] + t
  }

  function RawToDer(raw: Bytes): Bytes
    requires |raw| == 64
  {
    var body := DerInt(raw[..32]) + DerInt(raw[32..]);
    DerIntSize(raw[..32]);
    DerIntSize(raw[32..]);
    [0x30, |body|] + body
  }

  /** An unsigned value right-aligned in 32 bytes, if it fits. */
  function Align32(v: Bytes): (r: Option<Bytes>)
    ensures r.Some? ==> |r.value| == 32
  {
    var t := StripZeros(v);
    if |t| > 32 then None else Some(seq(32 - |t|, _ => 0) + t)
  }

  /** What the decoder accepts: it reads only short lengths, and ignores the outer length and any bytes
      after the second INTEGER. */
  function DerToRaw(der: Bytes): (raw: Option<Bytes>)
    ensures raw.Some? ==> |raw.value| == 64
  {
    if |der| < 8 || der[0] != 0x30 || der[1] >= 0x80 || der[2] != 0x02 then None
    else
      var rLen: nat := der[3];
      if 4 + rLen + 2 > |der| || der[4 + rLen] != 0x02 then None
      else
        var sLen: nat := der[4 + rLen + 1];
        if 4 + rLen + 2 + sLen > |der| then None
        else
          var r, s := Align32(der[4..4 + rLen]), Align32(der[6 + rLen..6 + rLen + sLen]);
          if r.None? || s.None? then None else Some(r.value + s.value)
  }

  // Minimality, section 8.3 of ITU-T X.690

  /** Contents octets of a nonnegative INTEGER in as few octets as possible. */
  predicate MinimalContents(c: Bytes) {
    c != [] && c[0] < 0x80 && (|c| > 1 && c[0] == 0 ==> c[1] >= 0x80)
  }

  /** Exactly a SEQUENCE of two minimal nonnegative INTEGERs, all lengths in short form. */
  predicate MinimalDer(der: Bytes) {
    && |der| >= 8 && der[0] == 0x30 && der[1] < 0x80 && der[1] == |der| - 2
    && der[2] == 0x02
    && var rLen := der[3] as int;
    && 6 + rLen <= |der| && der[4 + rLen] == 0x02 && |der| == 6 + rLen + der[5 + rLen]
    && MinimalContents(der[4..4 + rLen]) && MinimalContents(der[6 + rLen..])
  }

  lemma DerIntSize(v: Bytes)
    requires |v| <= 32
    ensures 3 <= |DerInt(v)| <= 35
  {
  }

  /** Tag, length and contents of an INTEGER. */
  lemma DerIntParts(v: Bytes)
    requires |v| <= 32
    ensures var d := DerInt(v);
      3 <= |d| <= 35 && d[0] == 0x02 && d[1] == |d| - 2 && MinimalContents(d[2..]) &&
      StripZeros(d[2..]) == StripZeros(v)
  {
    var d, t := DerInt(v), StripZeros(v);
    if t == [] {
      assert d[2..] == [0x00];
      assert [0x00][1..] == [];
    } else if t[0] >= 0x80 {
      assert d[2..] == [0x00] + t;
      assert ([0x00] + t)[1..] == t;
    } else {
      assert d[2..] == t;
    }
  }

  lemma {:induction false} PadToLength(v: Bytes)
    requires |v| <= 32
    ensures seq(|v| - |StripZeros(v)|, _ => 0) + StripZeros(v) == v
  {
    if v != [] && v[0] == 0 {
      PadToLength(v[1..]);
      var k := |v| - |StripZeros(v)|;
      assert seq(k, _ => 0) == [0] + seq(k - 1, _ => 0);
      assert v == [0] + v[1..];
    } else {
      assert [] + v == v;
    }
  }

  lemma AlignInverts(v: Bytes, c: Bytes)
    requires |v| == 32 && StripZeros(c) == StripZeros(v)
    ensures Align32(c) == Some(v)
  {
    PadToLength(v);
  }

  /** Where the two INTEGERs lie in the encoding. */
  lemma Layout(raw: Bytes)
    requires |raw| == 64
    ensures var der, a, b := RawToDer(raw), DerInt(raw[..32]), DerInt(raw[32..]);
      && |der| == 2 + |a| + |b| && 8 <= |der| <= 72 && der[0] == 0x30 && der[1] == |der| - 2
      && der[2] == 0x02 && der[3] == |a| - 2 && der[4..2 + |a|] == a[2..]
      && der[2 + |a|] == 0x02 && der[3 + |a|] == |b| - 2 && der[4 + |a|..] == b[2..]
  {
    hide DerInt;
    var der, a, b := RawToDer(raw), DerInt(raw[..32]), DerInt(raw[32..]);
    DerIntParts(raw[..32]);
    DerIntParts(raw[32..]);
    assert der == [0x30, |a| + |b|] + a + b;
    assert der[4..2 + |a|] == a[2..];
    assert der[4 + |a|..] == b[2..];
  }

  /** Every raw signature encodes to a minimal DER of 8 to 72 bytes, and decodes back to itself. */
  lemma RawRoundTrip(raw: Bytes)
    requires |raw| == 64
    ensures MinimalDer(RawToDer(raw)) && 8 <= |RawToDer(raw)| <= 72
    ensures DerToRaw(RawToDer(raw)) == Some(raw)
  {
    hide DerInt, RawToDer, Align32;
    Layout(raw);
    var der, a, b := RawToDer(raw), DerInt(raw[..32]), DerInt(raw[32..]);
    DerIntParts(raw[..32]);
    DerIntParts(raw[32..]);
    assert der[4 + |a|..4 + |a| + (|b| - 2)] == der[4 + |a|..];
    AlignInverts(raw[..32], a[2..]);
    AlignInverts(raw[32..], b[2..]);
    assert raw == raw[..32] + raw[32..];
  }

  lemma {:induction false} StripPad(k: nat, t: Bytes)
    requires t == [] || t[0] != 0
    ensures StripZeros(seq(k, _ => 0) + t) == t
  {
    if k > 0 {
      assert (seq(k, _ => 0) + t)[1..] == seq(k - 1, _ => 0) + t;
      StripPad(k - 1, t);
    } else {
      assert seq(0, _ => 0) + t == t;
    }
  }

  lemma MinimalStripped(c: Bytes)
    requires MinimalContents(c)
    ensures c != [] && c[0] < 0x80
    ensures StripZeros(c) == if c[0] == 0 then c[1..] else c
    ensures c[0] == 0 && |c| > 1 ==> c[1..] != [] && c[1..][0] >= 0x80
    ensures c[0] == 0 ==> c == [0x00] + c[1..]
  {
    if c[0] == 0 && |c| > 1 { assert c[1..][0] == c[1]; }
  }

  lemma AlignedStripped(c: Bytes)
    requires Align32(c).Some?
    ensures StripZeros(Align32(c).value) == StripZeros(c) && |StripZeros(c)| <= 32
  {
    var t := StripZeros(c);
    StripPad(32 - |t|, t);
  }

  /** Minimal contents are what the encoder writes for the value it reads from them. */
  lemma MinimalReencodes(c: Bytes)
    requires MinimalContents(c) && Align32(c).Some?
    ensures |c| <= 33 && DerInt(Align32(c).value) == [0x02, |c|] + c
  {
    hide StripZeros, Align32, DerInt, MinimalContents;
    var t, v := StripZeros(c), Align32(c).value;
    MinimalStripped(c);
    AlignedStripped(c);
    if t == [] {
      DerIntOfZero(v);
    } else {
      DerIntOfStripped(v, t);
      if c[0] == 0 { assert [0x02, |t| + 1, 0x00] + t == [0x02, |c|] + ([0x00] + t); }
    }
  }

  /** The decoder reads the two contents of a minimal encoding, and nothing else is in it. */
  lemma MinimalLayout(der: Bytes, r: Bytes, s: Bytes)
    requires MinimalDer(der) && r == der[4..4 + der[3] as int] && s == der[6 + der[3] as int..]
    ensures MinimalContents(r) && MinimalContents(s) && |r| < 256 && |s| < 256
    ensures der == [0x30, |der| - 2] + (([0x02, |r|] + r) + ([0x02, |s|] + s))
    ensures DerToRaw(der).Some? ==> Align32(r).Some? && Align32(s).Some?
    ensures DerToRaw(der).Some? ==> DerToRaw(der).value == Align32(r).value + Align32(s).value
  {
    hide MinimalContents, Align32;
    assert der[6 + der[3] as int..6 + der[3] as int + der[5 + der[3] as int] as int] == s;
  }

  lemma EncodePair(a: Bytes, b: Bytes)
    requires |a| == 32 && |b| == 32
    ensures |DerInt(a)| + |DerInt(b)| < 256
    ensures RawToDer(a + b) == [0x30, |DerInt(a)| + |DerInt(b)|] + (DerInt(a) + DerInt(b))
  {
    DerIntSize(a);
    DerIntSize(b);
    hide DerInt;
    assert (a + b)[..32] == a && (a + b)[32..] == b;
  }

  /** Re-encoding an accepted encoding gives it back exactly when it was minimal. */
  lemma ReencodeIffMinimal(der: Bytes)
    requires DerToRaw(der).Some?
    ensures RawToDer(DerToRaw(der).value) == der <==> MinimalDer(der)
  {
    RawRoundTrip(DerToRaw(der).value);
    if MinimalDer(der) { MinimalReencoded(der); }
  }

  /** A padded INTEGER, a wrong outer length and trailing bytes are all let through. */
  lemma NonMinimalAccepted()
    ensures var der: Bytes := [0x30, 0x00, 0x02, 0x02, 0x00, 0x01, 0x02, 0x01, 0x01, 0xFF];
      DerToRaw(der).Some? && !MinimalDer(der)
  {
    var der: Bytes := [0x30, 0x00, 0x02, 0x02, 0x00, 0x01, 0x02, 0x01, 0x01, 0xFF];
    assert der[4..6] == [0x00, 0x01] && der[8..9] == [0x01];
  }

  lemma MinimalReencoded(der: Bytes)
    requires DerToRaw(der).Some? && MinimalDer(der)
    ensures RawToDer(DerToRaw(der).value) == der
  {
    var r, s := der[4..4 + der[3] as int], der[6 + der[3] as int..];
    MinimalLayout(der, r, s);
    hide MinimalDer, RawToDer, DerToRaw, DerInt, Align32, MinimalContents;
    MinimalReencodes(r);
    MinimalReencodes(s);
    EncodePair(Align32(r).value, Align32(s).value);
  }

  lemma {:induction false} ValueOfStripped(v: Bytes)
    ensures FromBigEndian(StripZeros(v)) == FromBigEndian(v)
  {
    if v != [] && v[0] == 0 {
      ValueOfStripped(v[1..]);
      LeadingZero(v);
    }
  }

  lemma {:induction false} LeadingZero(v: Bytes)
    requires v != [] && v[0] == 0
    ensures FromBigEndian(v[1..]) == FromBigEndian(v)
  {
    if |v| > 1 {
      LeadingZero(v[..|v| - 1]);
      assert v[1..][..|v| - 2] == v[..|v| - 1][1..];
    } else {
      assert v[..0] == [] && v[1..] == [];
    }
  }

  /** The decoder keeps the value of each INTEGER it reads, minimal or not. */
  lemma AlignKeepsValue(c: Bytes)
    requires Align32(c).Some?
    ensures FromBigEndian(Align32(c).value) == FromBigEndian(c)
  {
    var t := StripZeros(c);
    StripPad(32 - |t|, t);
    ValueOfStripped(c);
    ValueOfStripped(Align32(c).value);
  }

  lemma {:induction false} LeadingDigit(v: Bytes)
    requires v != [] && v[0] != 0
    ensures FromBigEndian(v) >= Pow256(|v| - 1)
  {
    if |v| > 1 {
      LeadingDigit(v[..|v| - 1]);
    } else {
      assert v[..0] == [];
    }
  }

  lemma {:induction false} PowMonotone(a: nat, b: nat)
    requires a <= b
    ensures Pow256(a) <= Pow256(b)
  {
    if a < b { PowMonotone(a, b - 1); }
  }

  /** A minimal encoding is accepted exactly when both values are below 2^256. */
  lemma MinimalAccepted(der: Bytes)
    requires MinimalDer(der)
    ensures DerToRaw(der).Some? <==>
            FromBigEndian(der[4..4 + der[3] as int]) < Pow256(32) &&
            FromBigEndian(der[6 + der[3] as int..]) < Pow256(32)
  {
    hide FromBigEndian, Pow256, MinimalContents, Align32;
    var rLen: nat := der[3];
    assert der[6 + rLen..6 + rLen + der[5 + rLen] as int] == der[6 + rLen..];
    FitsIffSmall(der[4..4 + rLen]);
    FitsIffSmall(der[6 + rLen..]);
  }

  lemma FitsIffSmall(c: Bytes)
    ensures Align32(c).Some? <==> FromBigEndian(c) < Pow256(32)
  {
    hide Pow256;
    var t := StripZeros(c);
    ValueOfStripped(c);
    if |t| > 32 {
      LeadingDigit(t);
      PowMonotone(32, |t| - 1);
    } else {
      PowMonotone(|t|, 32);
    }
  }

  lemma DerIntOfZero(v: Bytes)
    requires |v| <= 32 && StripZeros(v) == []
    ensures DerInt(v) == [0x02, 0x01, 0x00]
  {
  }

  function IntHeader(size: nat, pad: bool): (h: Bytes)
    requires size <= 32
    ensures 2 <= |h| <= 3
  {
    if pad then [0x02, size + 1, 0x00] else [0x02, size]
  }

  lemma DerIntOfStripped(v: Bytes, t: Bytes)
    requires |v| <= 32 && t == StripZeros(v) && t != []
    ensures |t| <= 32 && DerInt(v) == IntHeader(|t|, t[0] >= 0x80) + t
  {
  }

  // The C functions

  /** `memcpy` between two arrays. */
  method Copy(from: array<Byte>, i: nat, n: nat, to: array<Byte>, at: nat)
    requires i + n <= from.Length && at + n <= to.Length && from != to
    modifies to
    ensures to[at..at + n] == from[i..i + n]
    ensures forall k :: 0 <= k < to.Length && !(at <= k < at + n) ==> to[k] == old(to[k])
  {
    forall k | 0 <= k < n {
      to[at + k] := from[i + k];
    }
  }

  method PutIntHeader(size: nat, pad: bool, out: array<Byte>, at: nat) returns (o: nat)
    requires size <= 32 && at + 3 <= out.Length
    modifies out
    ensures o == |IntHeader(size, pad)| && out[at..at + o] == IntHeader(size, pad)
    ensures forall k :: 0 <= k < out.Length && !(at <= k < at + o) ==> out[k] == old(out[k])
  {
    out[at] := 0x02;
    out[at + 1] := size + if pad then 1 else 0;
    o := 2;
    if pad {
      out[at + o] := 0x00;
      o := o + 1;
    }
  }

  method PutZero(out: array<Byte>, at: nat) returns (n: nat)
    requires at + 3 <= out.Length
    modifies out
    ensures n == 3 && out[at..at + n] == [0x02, 0x01, 0x00]
    ensures forall i :: 0 <= i < out.Length && !(at <= i < at + n) ==> out[i] == old(out[i])
  {
    out[at], out[at + 1], out[at + 2] := 0x02, 0x01, 0x00;
    return 3;
  }

  method PutNonzero(v: array<Byte>, i: nat, size: nat, ghost t: Bytes, out: array<Byte>, at: nat) returns (n: nat)
    requires 1 <= size <= 32 && i + size <= v.Length && at + 35 <= out.Length && v != out && t == v[i..i + size]
    modifies out
    ensures n == |IntHeader(size, t[0] >= 0x80) + t|
    ensures out[at..at + n] == IntHeader(size, t[0] >= 0x80) + t
    ensures forall k :: 0 <= k < out.Length && !(at <= k < at + n) ==> out[k] == old(out[k])
  {
    hide IntHeader;
    assert t[0] == v[i];
    var o := PutIntHeader(size, v[i] >= 0x80, out, at);
    Copy(v, i, size, out, at + o);
    SlicesJoin(out, at, o, size, IntHeader(size, t[0] >= 0x80), t);
    return o + size;
  }

  /** How many leading zero bytes there are. */
  method SkipZeros(v: array<Byte>, from: nat, len: nat) returns (start: nat)
    requires from + len <= v.Length
    ensures start <= len && v[from + start..from + len] == StripZeros(v[from..from + len])
  {
    start := 0;
    while start < len && v[from + start] == 0x00
      invariant start <= len && StripZeros(v[from + start..from + len]) == StripZeros(v[from..from + len])
    {
      assert v[from + start..from + len][1..] == v[from + start + 1..from + len];
      start := start + 1;
    }
  }

  /** `cc_int_to_der`, writing at an offset of the output buffer. */
  method IntToDer(v: array<Byte>, from: nat, len: nat, out: array<Byte>, at: nat) returns (n: nat)
    requires from + len <= v.Length && len <= 32 && at + 35 <= out.Length && v != out
    modifies out
    ensures n == |DerInt(v[from..from + len])| && 3 <= n <= 35
    ensures out[at..at + n] == DerInt(v[from..from + len])
    ensures forall i :: 0 <= i < out.Length && !(at <= i < at + n) ==> out[i] == old(out[i])
  {
    ghost var value := v[from..from + len];
    var start := SkipZeros(v, from, len);
    ghost var t := v[from + start..from + len];
    DerIntSize(value);
    hide StripZeros, DerInt, IntHeader;
    if start == len {
      DerIntOfZero(value);
      n := PutZero(out, at);
    } else {
      DerIntOfStripped(value, t);
      n := PutNonzero(v, from + start, len - start, t, out, at);
    }
    assert v[from..from + len] == value;
  }

  lemma SlicesJoin(out: array<Byte>, at: nat, m: nat, n: nat, a: Bytes, b: Bytes)
    requires at + m + n <= out.Length
    requires out[at..at + m] == a && out[at + m..at + m + n] == b
    ensures out[at..at + (m + n)] == a + b
  {
  }

  /** `cc_raw_sig_to_der`; the branch that reports an overflow is dead. */
  method RawSigToDer(raw: array<Byte>, der: array<Byte>) returns (rc: int, derLen: nat)
    requires raw.Length == 64 && der.Length >= 72 && raw != der
    modifies der
    ensures rc == 0 && derLen == |RawToDer(raw[..])| && der[..derLen] == RawToDer(raw[..])
  {
    hide DerInt, RawToDer;
    ghost var input, r, s := raw[..], raw[0..32], raw[32..64];
    assert input == r + s;
    var body := new Byte[80];
    var n := IntToDer(raw, 0, 32, body, 0);
    assert body[..n] == DerInt(r);
    var k := IntToDer(raw, 32, 32, body, n);
    assert body[..n] == DerInt(r);
    assert body[..n + k] == body[..n] + body[n..n + k];
    n := n + k;
    if n > 127 { assert false; }
    der[0] := 0x30;
    der[1] := n;
    Copy(body, 0, n, der, 2);
    assert raw[..] == input;
    assert der[..n + 2] == [0x30, n] + body[..n];
    EncodePair(r, s);
    return 0, n + 2;
  }

  lemma AlignPads(v: Bytes)
    ensures |StripZeros(v)| <= 32 ==> Align32(v) == Some(seq(32 - |StripZeros(v)|, _ => 0) + StripZeros(v))
  {
  }

  /** One INTEGER copied right-aligned into 32 bytes of the output; false if it does not fit. */
  method CopyAligned(der: array<Byte>, from: nat, len: nat, out: array<Byte>, at: nat) returns (ok: bool)
    requires from + len <= der.Length && at + 32 <= out.Length && der != out
    requires forall i :: at <= i < at + 32 ==> out[i] == 0
    modifies out
    ensures ok == Align32(der[from..from + len]).Some?
    ensures ok ==> out[at..at + 32] == Align32(der[from..from + len]).value
    ensures forall i :: 0 <= i < out.Length && !(at <= i < at + 32) ==> out[i] == old(out[i])
  {
    ghost var input := der[from..from + len];
    var skip := SkipZeros(der, from, len);
    ghost var stripped := der[from + skip..from + len];
    AlignPads(input);
    var rl := len - skip;
    if rl > 32 { return false; }
    Copy(der, from + skip, rl, out, at + 32 - rl);
    ghost var t := der[from + skip..from + len];
    assert der[from..from + len] == input && t == stripped;
    assert out[at..at + 32] == seq(32 - |t|, _ => 0) + t;
    AlignPads(input);
    return true;
  }

  /** `cc_der_sig_to_raw`. */
  method DerSigToRaw(der: array<Byte>, out: array<Byte>) returns (rc: int)
    requires out.Length == 64 && der != out
    modifies out
    ensures rc == 0 || rc == -1
    ensures rc == 0 <==> DerToRaw(der[..]).Some?
    ensures rc == 0 ==> DerToRaw(der[..]) == Some(out[..])
  {
    hide Align32;
    ghost var input := der[..];
    if der.Length < 8 || der[0] != 0x30 { return -1; }
    if der[1] >= 0x80 { return -1; }
    if der[2] != 0x02 { return -1; }
    var rLen: nat := der[3];
    var i := 4;
    if i + rLen + 2 > der.Length { return -1; }
    if der[i + rLen] != 0x02 { return -1; }
    var sLen: nat := der[i + rLen + 1];
    if i + rLen + 2 + sLen > der.Length { return -1; }
    forall k | 0 <= k < 64 { out[k] := 0; }
    var ok := CopyAligned(der, i, rLen, out, 0);
    assert input[4..4 + rLen] == der[4..4 + rLen];
    if !ok { return -1; }
    ghost var r := out[0..32];
    ok := CopyAligned(der, i + rLen + 2, sLen, out, 32);
    assert input[6 + rLen..6 + rLen + sLen] == der[6 + rLen..6 + rLen + sLen];
    if !ok { return -1; }
    assert out[..] == r + out[32..64];
    return 0;
  }
}
