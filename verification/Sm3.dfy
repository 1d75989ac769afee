/** SM3 (GM/T 0004-2012): the streaming context of the bridge, refined against the one-shot definition. */
module Sm3 {
  import opened Bytes
  import opened Modular

  type Word = bv32
  type Octet = bv8

  // The standard's definitions, section 4 (functions) and section 5 (algorithm)

  /** Cyclic left shift; by zero it is the identity. */
  function Rotl(x: Word, n: nat): Word
    requires n < 32
  {
    if n == 0 then x else (x << n) | (x >> (32 - n))
  }

  /** Addition modulo 2^32. */
  function Add(x: Word, y: Word): Word { x + y }

  /** Bitwise exclusive or. */
  function Xor(x: Word, y: Word): Word { x ^ y }

  function P0(x: Word): Word { x ^ Rotl(x, 9) ^ Rotl(x, 17) }

  function P1(x: Word): Word { x ^ Rotl(x, 15) ^ Rotl(x, 23) }

  function FF(x: Word, y: Word, z: Word, j: nat): Word {
    if j < 16 then x ^ y ^ z else (x & y) | (x & z) | (y & z)
  }

  function GG(x: Word, y: Word, z: Word, j: nat): Word {
    if j < 16 then x ^ y ^ z else (x & y) | ((x ^ 0xffffffff) & z)
  }

  function T(j: nat): Word {
    if j < 16 then 0x79cc4519 else 0x7a879d8a
  }

  function BigEndianWord(s: seq<Octet>): Word
    requires |s| == 4
  {
    ((s[0] as Word) << 24) | ((s[1] as Word) << 16) | ((s[2] as Word) << 8) | (s[3] as Word)
  }

  /** One word of the expansion from five earlier ones. */
  function Mix(w16: Word, w9: Word, w3: Word, w13: Word, w6: Word): Word {
    P1(w16 ^ w9 ^ Rotl(w3, 15)) ^ Rotl(w13, 7) ^ w6
  }

  /** Message expansion: the words W[0..67]. */
  function W(block: seq<Octet>, j: nat): Word
    requires |block| == 64 && j < 68
  {
    if j < 16 then BigEndianWord(block[4 * j..4 * j + 4])
    else Mix(W(block, j - 16), W(block, j - 9), W(block, j - 3), W(block, j - 13), W(block, j - 6))
  }

  /** The expanded words W'[0..63]. */
  function WPrime(block: seq<Octet>, j: nat): Word
    requires |block| == 64 && j < 64
  {
    W(block, j) ^ W(block, j + 4)
  }

  datatype Registers = Registers(a: Word, b: Word, c: Word, d: Word, e: Word, f: Word, g: Word, h: Word)

  function SS1(r: Registers, j: nat): Word {
    Rotl(Add(Add(Rotl(r.a, 12), r.e), Rotl(T(j), j % 32)), 7)
  }

  function Round(r: Registers, wj: Word, wpj: Word, j: nat): Registers {
    var ss1 := SS1(r, j);
    var ss2 := Xor(ss1, Rotl(r.a, 12));
    var tt1 := Add(Add(Add(FF(r.a, r.b, r.c, j), r.d), ss2), wpj);
    var tt2 := Add(Add(Add(GG(r.e, r.f, r.g, j), r.h), ss1), wj);
    Registers(tt1, r.a, Rotl(r.b, 9), r.c, P0(tt2), r.e, Rotl(r.f, 19), r.g)
  }

  function Rounds(block: seq<Octet>, v: Registers, n: nat): Registers
    requires |block| == 64 && n <= 64
  {
    if n == 0 then v else Round(Rounds(block, v, n - 1), W(block, n - 1), WPrime(block, n - 1), n - 1)
  }

  function XorAll(x: Registers, y: Registers): Registers {
    Registers(Xor(x.a, y.a), Xor(x.b, y.b), Xor(x.c, y.c), Xor(x.d, y.d),
              Xor(x.e, y.e), Xor(x.f, y.f), Xor(x.g, y.g), Xor(x.h, y.h))
  }

  /** The compression function. */
  function CF(v: Registers, block: seq<Octet>): Registers
    requires |block| == 64
  {
    XorAll(Rounds(block, v, |block|), v)
  }

  const IV := Registers(0x7380166f, 0x4914b2b9, 0x172442d7, 0xda8a0600, 0xa96f30bc, 0x163138aa, 0xe38dee4d, 0xb0fb0e4e)

  /** The chaining value after the first n blocks. */
  function Chain(m: seq<Octet>, n: nat): Registers
    requires 64 * n <= |m|
  {
    if n == 0 then IV else CF(Chain(m, n - 1), m[64 * (n - 1)..64 * n])
  }

  /** How many zero octets follow the marker: the least number that leaves eight octets to a block boundary. */
  function ZeroCount(length: nat): (k: nat)
    ensures (length + 1 + k + 8) % 64 == 0
    ensures k < 64
  {
    (55 - length) % 64
  }

  function Zeros(n: nat): (z: seq<Octet>)
    ensures |z| == n && forall i :: 0 <= i < n ==> z[i] == 0
  {
    seq(n, _ => 0)
  }

  /** Eight of its bits, the most significant ones first. */
  function LengthOctet(bits: nat, i: nat): Octet
    requires i < 8
  {
    (bits / Pow256(7 - i) % 256) as Octet
  }

  /** The 64-bit length field. */
  function LengthField(bits: nat): (s: seq<Octet>)
    ensures |s| == 8
  {
    seq(8, i requires 0 <= i < 8 => LengthOctet(bits, i))
  }

  /** The message, the marker, zeros, and the message length in bits modulo 2^64. */
  function Padded(m: seq<Octet>): (p: seq<Octet>)
    ensures |p| % 64 == 0 && m <= p
  {
    m + [0x80] + Zeros(ZeroCount(|m|)) + LengthField(8 * |m| % Pow256(8))
  }

  /** The padding fills the block up to its last eight octets, and the two ways of computing it agree. */
  lemma PadLengths(length: nat)
    ensures var bufLen := length % 64;
      1 + ZeroCount(length) == (if bufLen < 56 then 56 - bufLen else 120 - bufLen)
  {
  }

  lemma PaddedInTwoSteps(m: seq<Octet>, padLen: nat)
    requires padLen == 1 + ZeroCount(|m|)
    ensures m + ([0x80] + Zeros(padLen - 1)) + LengthField(8 * |m| % Pow256(8)) == Padded(m)
  {
    hide LengthField, Zeros, Pow256;
  }

  function StoreWord(w: Word): seq<Octet> {
    [(w >> 24) as Octet, ((w >> 16) & 0xff) as Octet, ((w >> 8) & 0xff) as Octet, (w & 0xff) as Octet]
  }

  function StoreWords(ws: seq<Word>): (s: seq<Octet>)
    ensures |s| == 4 * |ws|
  {
    if ws == [] then [] else StoreWords(ws[..|ws| - 1]) + StoreWord(ws[|ws| - 1])
  }

  function RegisterWords(r: Registers): (s: seq<Word>)
    ensures |s| == 8
  {
    [r.a, r.b, r.c, r.d, r.e, r.f, r.g, r.h]
  }

  function Output(r: Registers): (s: seq<Octet>)
    ensures |s| == 32
  {
    StoreWords(RegisterWords(r))
  }

  /** One-shot SM3. */
  function Digest(m: seq<Octet>): (d: seq<Octet>)
    ensures |d| == 32
  {
    Output(Chain(Padded(m), |Padded(m)| / 64))
  }

  // The streaming implementation

  function AsRegisters(s: seq<Word>): Registers
    requires |s| == 8
  {
    Registers(s[0], s[1], s[2], s[3], s[4], s[5], s[6], s[7])
  }

  method LoadWord(block: array<Octet>, i: nat) returns (w: Word)
    requires i + 4 <= block.Length
    ensures w == BigEndianWord(block[i..i + 4])
  {
    w := ((block[i] as Word) << 24) | ((block[i + 1] as Word) << 16) |
         ((block[i + 2] as Word) << 8) | (block[i + 3] as Word);
  }

  lemma Expansion(block: seq<Octet>, j: nat)
    requires |block| == 64 && 16 <= j < 68
    ensures W(block, j) == Mix(W(block, j - 16), W(block, j - 9), W(block, j - 3), W(block, j - 13), W(block, j - 6))
  {
    hide Mix;
  }

  lemma FirstWords(block: seq<Octet>, j: nat)
    requires |block| == 64 && j < 16
    ensures W(block, j) == BigEndianWord(block[4 * j..4 * j + 4])
  {
    hide BigEndianWord;
  }

  /** The expression assigned to `w[j]` for j >= 16. */
  method NextWord(w16: Word, w9: Word, w3: Word, w13: Word, w6: Word) returns (w: Word)
    ensures w == Mix(w16, w9, w3, w13, w6)
  {
    w := P1(w16 ^ w9 ^ Rotl(w3, 15)) ^ Rotl(w13, 7) ^ w6;
  }

  /** The first schedule of `sm3_compress`. */
  method ExpandW(block: array<Octet>, w: array<Word>)
    requires block.Length == 64 && w.Length == 68
    modifies w
    ensures forall i {:trigger w[i]} :: 0 <= i < 68 ==> w[i] == W(block[..], i)
  {
    hide Mix, BigEndianWord, W;
    ghost var b := block[..];
    for j := 0 to 16
      invariant forall i {:trigger w[i]} :: 0 <= i < j ==> w[i] == W(b, i)
    {
      var x := LoadWord(block, 4 * j);
      assert b[4 * j..4 * j + 4] == block[4 * j..4 * j + 4];
      FirstWords(b, j);
      w[j] := x;
    }
    for j := 16 to 68
      invariant forall i {:trigger w[i]} :: 0 <= i < j ==> w[i] == W(b, i)
    {
      Expansion(b, j);
      w[j] := NextWord(w[j - 16], w[j - 9], w[j - 3], w[j - 13], w[j - 6]);
    }
  }

  /** The second schedule of `sm3_compress`. */
  method ExpandWPrime(ghost block: seq<Octet>, w: array<Word>, wp: array<Word>)
    requires |block| == 64 && w.Length == 68 && wp.Length == 64 && w != wp
    requires forall i {:trigger w[i]} :: 0 <= i < 68 ==> w[i] == W(block, i)
    modifies wp
    ensures forall i {:trigger wp[i]} :: 0 <= i < 64 ==> wp[i] == WPrime(block, i)
  {
    hide W;
    for j := 0 to 64
      invariant forall i {:trigger wp[i]} :: 0 <= i < j ==> wp[i] == WPrime(block, i)
    {
      wp[j] := w[j] ^ w[j + 4];
    }
  }

  /** The body of the round loop: eight registers updated in place. */
  method RoundStep(r: Registers, wj: Word, wpj: Word, j: nat) returns (next: Registers)
    requires j < 64
    ensures next == Round(r, wj, wpj, j)
  {
    hide Rotl, FF, GG, P0, T, Add, Xor;
    var a, b, c, d, e, f, g, h := r.a, r.b, r.c, r.d, r.e, r.f, r.g, r.h;
    var tj := T(j);
    var ss1 := Rotl(Add(Add(Rotl(a, 12), e), Rotl(tj, j % 32)), 7);
    var ss2 := Xor(ss1, Rotl(a, 12));
    var tt1 := Add(Add(Add(FF(a, b, c, j), d), ss2), wpj);
    var tt2 := Add(Add(Add(GG(e, f, g, j), h), ss1), wj);
    d := c;
    c := Rotl(b, 9);
    b := a;
    a := tt1;
    h := g;
    g := Rotl(f, 19);
    f := e;
    e := P0(tt2);
    next := Registers(a, b, c, d, e, f, g, h);
  }

  /** The feed-forward at the end of `sm3_compress`. */
  method XorInto(state: array<Word>, r: Registers)
    requires state.Length == 8
    modifies state
    ensures AsRegisters(state[..]) == XorAll(r, old(AsRegisters(state[..])))
  {
    hide Xor;
    state[0], state[1] := Xor(r.a, state[0]), Xor(r.b, state[1]);
    state[2], state[3] := Xor(r.c, state[2]), Xor(r.d, state[3]);
    state[4], state[5] := Xor(r.e, state[4]), Xor(r.f, state[5]);
    state[6], state[7] := Xor(r.g, state[6]), Xor(r.h, state[7]);
  }

  /** `sm3_compress`: one block folded into the state, in place. */
  method Compress(state: array<Word>, block: array<Octet>)
    requires state.Length == 8 && block.Length == 64
    modifies state
    ensures AsRegisters(state[..]) == CF(old(AsRegisters(state[..])), block[..])
  {
    hide Round, Rounds, XorAll, W, WPrime;
    ghost var v, bytes := AsRegisters(state[..]), block[..];
    var w, wp := new Word[68], new Word[64];
    ExpandW(block, w);
    ExpandWPrime(bytes, w, wp);
    var r := AsRegisters(state[..]);
    NoRounds(bytes, v);
    for j := 0 to 64
      invariant r == Rounds(bytes, v, j)
      modifies {}
    {
      OneMoreRound(bytes, v, j);
      r := RoundStep(r, w[j], wp[j], j);
    }
    XorInto(state, r);
  }

  lemma OneMoreRound(block: seq<Octet>, v: Registers, n: nat)
    requires |block| == 64 && n < 64
    ensures Rounds(block, v, n + 1) == Round(Rounds(block, v, n), W(block, n), WPrime(block, n), n)
  {
    hide Round, W, WPrime;
  }

  lemma NoRounds(block: seq<Octet>, v: Registers)
    requires |block| == 64
    ensures Rounds(block, v, 0) == v
  {
  }

  lemma EmptyChain(m: seq<Octet>)
    ensures Chain(m, 0) == IV
  {
  }

  lemma ChainStep(m: seq<Octet>, n: nat)
    requires 64 * (n + 1) <= |m|
    ensures Chain(m, n + 1) == CF(Chain(m, n), m[64 * n..64 * (n + 1)])
  {
  }

  /** Blocks already complete are not affected by what follows them. */
  lemma {:induction false} ChainPrefix(m: seq<Octet>, longer: seq<Octet>, n: nat)
    requires 64 * n <= |m| && m <= longer
    ensures Chain(longer, n) == Chain(m, n)
  {
    hide CF;
    if n > 0 {
      ChainPrefix(m, longer, n - 1);
      assert longer[64 * (n - 1)..64 * n] == m[64 * (n - 1)..64 * n];
    }
  }

  method Initialize(state: array<Word>)
    requires state.Length == 8
    modifies state
    ensures AsRegisters(state[..]) == IV
  {
    state[0], state[1], state[2], state[3] := 0x7380166f, 0x4914b2b9, 0x172442d7, 0xda8a0600;
    state[4], state[5], state[6], state[7] := 0xa96f30bc, 0x163138aa, 0xe38dee4d, 0xb0fb0e4e;
  }

  /** `memcpy` into the block buffer. */
  method CopyInto(buffer: array<Octet>, at: nat, piece: seq<Octet>)
    requires at + |piece| <= buffer.Length
    modifies buffer
    ensures buffer[..at + |piece|] == old(buffer[..at]) + piece
  {
    forall i | 0 <= i < |piece| {
      buffer[at + i] := piece[i];
    }
  }

  /** The start of the padding, cut from a zeroed buffer of 72 octets. */
  method MarkerAndZeros(padLen: nat) returns (pad: seq<Octet>)
    requires 1 <= padLen <= 72
    ensures pad == [0x80] + Zeros(padLen - 1)
  {
    var buffer := new Octet[72](_ => 0);
    buffer[0] := 0x80;
    pad := buffer[..padLen];
  }

  method LengthBytes(bitLen: nat) returns (lb: seq<Octet>)
    ensures lb == LengthField(bitLen)
  {
    hide LengthOctet;
    var buffer := new Octet[8];
    for i := 0 to 8
      invariant forall k :: 0 <= k < i ==> buffer[k] == LengthField(bitLen)[k]
    {
      buffer[i] := LengthOctet(bitLen, i);
    }
    lb := buffer[..];
  }

  /** `store_be32`. */
  method StoreAt(out: array<Octet>, i: nat, v: Word)
    requires i + 4 <= out.Length
    modifies out
    ensures out[..i + 4] == old(out[..i]) + StoreWord(v)
  {
    out[i] := (v >> 24) as Octet;
    out[i + 1] := ((v >> 16) & 0xff) as Octet;
    out[i + 2] := ((v >> 8) & 0xff) as Octet;
    out[i + 3] := (v & 0xff) as Octet;
  }

  /** `SM3_CTX`, with the message fed so far as ghost state. */
  class Context {
    const state: array<Word>
    const buffer: array<Octet>
    var totalLen: nat
    var bufLen: nat
    ghost var message: seq<Octet>

    /** The state is the chaining value of the complete blocks, the buffer holds the rest. */
    ghost predicate Absorbed()
      reads this, state, buffer
    {
      && state.Length == 8 && buffer.Length == 64
      && bufLen == |message| % 64
      && buffer[..bufLen] == message[|message| - bufLen..]
      && AsRegisters(state[..]) == Chain(message, |message| / 64)
    }

    ghost predicate Valid()
      reads this, state, buffer
    {
      Absorbed() && totalLen == |message| % Pow256(8)
    }

    /** `sm3_init`. */
    constructor ()
      ensures Valid() && message == [] && fresh(state) && fresh(buffer)
    {
      state := new Word[8];
      buffer := new Octet[64];
      totalLen, bufLen, message := 0, 0, [];
      new;
      hide Chain, Pow256, AsRegisters;
      EmptyChain([]);
      Initialize(state);
    }

    /** One turn of the loop of `sm3_update`: fill the buffer, and compress it when it is full. */
    method Take(piece: seq<Octet>)
      requires Absorbed() && 0 < |piece| <= 64 - bufLen
      modifies this`bufLen, this`message, state, buffer
      ensures Absorbed() && message == old(message) + piece
    {
      hide CF, AsRegisters, Chain;
      ghost var n := |message| / 64;
      ghost var longer := message + piece;
      ChainPrefix(message, longer, n);
      CopyInto(buffer, bufLen, piece);
      bufLen := bufLen + |piece|;
      message := longer;
      assert buffer[..bufLen] == longer[64 * n..];
      if bufLen == 64 {
        assert buffer[..] == buffer[..bufLen];
        assert longer[64 * n..] == longer[64 * n..64 * (n + 1)];
        ChainStep(longer, n);
        Compress(state, buffer);
        bufLen := 0;
      }
    }

    /** Between turns the buffer is never full. */
    lemma RoomInBuffer()
      requires Absorbed()
      ensures bufLen < 64
    {
    }

    /** The loop of `sm3_update`. */
    method Feed(data: seq<Octet>)
      requires Absorbed()
      modifies this`bufLen, this`message, state, buffer
      ensures Absorbed() && message == old(message) + data
    {
      hide Absorbed;
      ghost var start := message;
      var offset := 0;
      while offset < |data|
        invariant 0 <= offset <= |data|
        invariant Absorbed() && message == start + data[..offset]
      {
        RoomInBuffer();
        var take := 64 - bufLen;
        if take > |data| - offset { take := |data| - offset; }
        var piece := data[offset..offset + take];
        assert data[..offset + take] == data[..offset] + piece;
        Take(piece);
        offset := offset + take;
      }
      assert data[..|data|] == data;
    }

    /** `sm3_update`: the context afterwards is that of the longer message, however it was split. */
    method Update(data: seq<Octet>)
      requires Valid()
      modifies this, state, buffer
      ensures Valid() && message == old(message) + data
    {
      hide Chain, AsRegisters, Pow256;
      AddMod(|message|, |data|, Pow256(8));
      totalLen := (totalLen + |data|) % Pow256(8);
      Feed(data);
    }

    /** `sm3_final`: pads through `Update` itself and writes the digest of the message fed so far. The
        72-octet padding buffer is never outgrown. */
    method Final(out: array<Octet>)
      requires Valid() && out.Length == 32 && out != buffer
      modifies this, state, buffer, out
      ensures out[..] == Digest(old(message))
      ensures bufLen == 0 && message == Padded(old(message))
    {
      hide Chain, StoreWords, LengthField, Pow256, AsRegisters, StoreWord;
      Pad();
      WriteOut(out);
      WordsOfState(state[..]);
    }

    /** Both updates of the padding: the marker with the zeros, then the length. */
    method Pad()
      requires Valid()
      modifies this, state, buffer
      ensures Valid() && bufLen == 0 && message == Padded(old(message))
    {
      hide Chain, LengthField, Pow256, AsRegisters, Padded, Zeros, ZeroCount;
      ghost var m := message;
      var bitLen := totalLen * 8 % Pow256(8);
      MulMod(|m|, 8, Pow256(8));
      var padLen := if bufLen < 56 then 56 - bufLen else 120 - bufLen;
      var pad := MarkerAndZeros(padLen);
      Update(pad);
      PadLengths(|m|);
      PaddedInTwoSteps(m, padLen);
      var lb := LengthBytes(bitLen);
      Update(lb);
    }

    method WriteOut(out: array<Octet>)
      requires state.Length == 8 && out.Length == 32
      modifies out
      ensures out[..] == StoreWords(state[..])
    {
      ghost var words := state[..];
      for i := 0 to 8
        invariant state[..] == words
        invariant out[..4 * i] == StoreWords(words[..i])
      {
        StoreAt(out, 4 * i, state[i]);
        assert words[..i + 1][..i] == words[..i];
      }
      assert words[..8] == words && out[..32] == out[..];
    }
  }

  lemma WordsOfState(s: seq<Word>)
    requires |s| == 8
    ensures RegisterWords(AsRegisters(s)) == s
  {
  }

  function Concat(chunks: seq<seq<Octet>>): seq<Octet> {
    if chunks == [] then [] else Concat(chunks[..|chunks| - 1]) + chunks[|chunks| - 1]
  }

  /** However a message is split into updates, the digest is that of the whole. */
  method HashChunks(chunks: seq<seq<Octet>>) returns (digest: seq<Octet>)
    ensures digest == Digest(Concat(chunks))
  {
    hide Digest, Padded, Chain, AsRegisters, Pow256, Context.Absorbed;
    var ctx := new Context();
    for i := 0 to |chunks|
      invariant ctx.Valid() && fresh(ctx) && fresh(ctx.state) && fresh(ctx.buffer)
      invariant ctx.message == Concat(chunks[..i])
    {
      ctx.Update(chunks[i]);
      assert chunks[..i + 1][..i] == chunks[..i];
    }
    assert chunks[..|chunks|] == chunks;
    var out := new Octet[32];
    ctx.Final(out);
    digest := out[..];
  }

  lemma PaddedLayout(m: seq<Octet>)
    ensures |m| < |Padded(m)| - 8 && Padded(m)[|m|] == 0x80
    ensures forall i :: |m| < i < |Padded(m)| - 8 ==> Padded(m)[i] == 0
  {
    hide LengthField;
  }

  /** The padding loses nothing: different messages give different block sequences. */
  lemma PaddedInjective(a: seq<Octet>, b: seq<Octet>)
    requires Padded(a) == Padded(b)
    ensures a == b
  {
    hide Padded;
    PaddedLayout(a);
    PaddedLayout(b);
    assert a == Padded(a)[..|a|] && b == Padded(b)[..|b|];
  }

  /** Each byte of a big-endian number is a digit of it to the base 256. */
  lemma {:induction false} BigEndianDigit(n: nat, width: nat, i: nat)
    requires n < Pow256(width) && i < width
    ensures BigEndian(n, width)[i] == n / Pow256(width - 1 - i) % 256
  {
    if i < width - 1 {
      BigEndianDigit(n / 256, width - 1, i);
      DivideTwice(n, 256, Pow256(width - 2 - i));
    }
  }

  function Values(s: seq<Octet>): (v: Bytes)
    ensures |v| == |s|
  {
    seq(|s|, i requires 0 <= i < |s| => s[i] as int)
  }

  lemma NextOctet(b: bv8)
    requires b as int < 255
    ensures (b + 1) as int == b as int + 1
  {
  }

  lemma OctetOfValue(b: bv8, v: int)
    requires b as int == v
    ensures 0 <= v < 256 && v as bv8 == b
  {
  }

  lemma {:induction false} OctetWithValue(v: nat) returns (b: bv8)
    requires v < 256
    ensures b as int == v
  {
    if v == 0 {
      b := 0;
    } else {
      var c := OctetWithValue(v - 1);
      NextOctet(c);
      b := c + 1;
    }
  }

  lemma OctetKeepsValue(v: int)
    requires 0 <= v < 256
    ensures (v as bv8) as int == v
  {
    var b := OctetWithValue(v);
    OctetOfValue(b, v);
  }

  /** The length field is the number in big-endian order. */
  lemma LengthFieldIsBigEndian(bits: nat)
    requires bits < Pow256(8)
    ensures Values(LengthField(bits)) == BigEndian(bits, 8)
  {
    hide Pow256, BigEndian;
    forall i | 0 <= i < 8 ensures Values(LengthField(bits))[i] == BigEndian(bits, 8)[i] {
      BigEndianDigit(bits, 8, i);
      OctetKeepsValue(bits / Pow256(7 - i) % 256);
      assert LengthField(bits)[i] == LengthOctet(bits, i);
    }
  }

  /** The bits of a message fit the length field below 2^61 octets. */
  lemma LengthFieldExact(m: seq<Octet>)
    ensures 8 * |m| % Pow256(8) == 8 * |m| <==> |m| < 0x2000_0000_0000_0000
  {
    assert Pow256(8) == 0x1_0000_0000_0000_0000;
  }

  /** The last eight octets of a padded message hold its bit length, as the standard asks, exactly when it is
      shorter than 2^61 octets; a longer one is padded with its bit length modulo 2^64. */
  lemma LengthIsRecordedIff(m: seq<Octet>)
    ensures var p := Padded(m); var recorded := FromBigEndian(Values(p[|p| - 8..]));
      && recorded == 8 * |m| % Pow256(8)
      && (recorded == 8 * |m| <==> |m| < 0x2000_0000_0000_0000)
  {
    var bits := 8 * |m| % Pow256(8);
    LengthFieldExact(m);
    hide Pow256, LengthField, BigEndian, FromBigEndian, Values;
    var p := Padded(m);
    assert p[|p| - 8..] == LengthField(bits);
    LengthFieldIsBigEndian(bits);
    BigEndianRoundTrip(bits, 8);
  }
}
