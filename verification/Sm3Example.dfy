/** The first example of SM3 (GM/T 0004-2012, appendix A.1), the message "abc", worked through by the tables of its
    message words and register values. It fixes every constant and every function of the definitions in `Sm3`. */
module Sm3Example {
  import opened Bytes
  import opened Modular
  import opened Sm3

  const ABC: seq<Octet> := [0x61, 0x62, 0x63]

  /** The padded message: one block. */
  const BLOCK: seq<Octet> := [0x61, 0x62, 0x63, 0x80] + Zeros(59) + [0x18]

  const DIGEST_OF_ABC: seq<Octet> := [
    0x66, 0xc7, 0xf0, 0xf4, 0x62, 0xee, 0xed, 0xd9, 0xd1, 0xf2, 0xd4, 0x6b, 0xdc, 0x10, 0xe4, 0xe2,
    0x41, 0x67, 0xc4, 0x87, 0x5c, 0xf2, 0xf7, 0xa2, 0x29, 0x7d, 0xa0, 0x2b, 0x8f, 0x4b, 0xa8, 0xe0]

  // The operations on words, with the shifts written out

  function Left7(x: Word): Word { (x << 7) | (x >> 25) }

  function Left9(x: Word): Word { (x << 9) | (x >> 23) }

  function Left12(x: Word): Word { (x << 12) | (x >> 20) }

  function Left15(x: Word): Word { (x << 15) | (x >> 17) }

  function Left17(x: Word): Word { (x << 17) | (x >> 15) }

  function Left19(x: Word): Word { (x << 19) | (x >> 13) }

  function Left23(x: Word): Word { (x << 23) | (x >> 9) }

  lemma RotlIs(x: Word)
    ensures Rotl(x, 7) == Left7(x) && Rotl(x, 9) == Left9(x) && Rotl(x, 12) == Left12(x) && Rotl(x, 15) == Left15(x)
    ensures Rotl(x, 17) == Left17(x) && Rotl(x, 19) == Left19(x) && Rotl(x, 23) == Left23(x)
  {
    assert Rotl(x, 7) == (x << 7) | (x >> 25) && Rotl(x, 9) == (x << 9) | (x >> 23);
    assert Rotl(x, 12) == (x << 12) | (x >> 20) && Rotl(x, 15) == (x << 15) | (x >> 17);
    assert Rotl(x, 17) == (x << 17) | (x >> 15) && Rotl(x, 19) == (x << 19) | (x >> 13);
    assert Rotl(x, 23) == (x << 23) | (x >> 9);
  }

  function Mixed0(x: Word): Word { x ^ Left9(x) ^ Left17(x) }

  function Mixed1(x: Word): Word { x ^ Left15(x) ^ Left23(x) }

  lemma PermutationsAre(x: Word)
    ensures P0(x) == Mixed0(x) && P1(x) == Mixed1(x)
  {
    RotlIs(x);
    hide Rotl, Left9, Left15, Left17, Left23;
  }

  function Mixed(w16: Word, w9: Word, w3: Word, w13: Word, w6: Word): Word {
    Mixed1(w16 ^ w9 ^ Left15(w3)) ^ Left7(w13) ^ w6
  }

  function MixWith(w16: Word, w9: Word, l15: Word, l7: Word, w6: Word): Word {
    P1(w16 ^ w9 ^ l15) ^ l7 ^ w6
  }

  lemma MixWithIs(w16: Word, w9: Word, l15: Word, l7: Word, w6: Word)
    ensures MixWith(w16, w9, l15, l7, w6) == Mixed1(w16 ^ w9 ^ l15) ^ l7 ^ w6
  {
    PermutationsAre(w16 ^ w9 ^ l15);
    hide P1, Mixed1;
  }

  lemma MixShape(w16: Word, w9: Word, w3: Word, w13: Word, w6: Word)
    ensures Mix(w16, w9, w3, w13, w6) == MixWith(w16, w9, Rotl(w3, 15), Rotl(w13, 7), w6)
    ensures Mixed(w16, w9, w3, w13, w6) == Mixed1(w16 ^ w9 ^ Left15(w3)) ^ Left7(w13) ^ w6
  {
    hide Rotl, P1, Mixed1, Left7, Left15;
  }

  lemma MixIs(w16: Word, w9: Word, w3: Word, w13: Word, w6: Word)
    ensures Mix(w16, w9, w3, w13, w6) == Mixed(w16, w9, w3, w13, w6)
  {
    hide *;
    RotlIs(w3);
    RotlIs(w13);
    MixShape(w16, w9, w3, w13, w6);
    MixWithIs(w16, w9, Left15(w3), Left7(w13), w6);
  }

  function Turned(r: Registers, w: Word, wp: Word, t: Word, j: nat): Registers {
    var ss1 := Left7(Add(Add(Left12(r.a), r.e), t));
    var tt1 := Add(Add(Add(FF(r.a, r.b, r.c, j), r.d), Xor(ss1, Left12(r.a))), wp);
    var tt2 := Add(Add(Add(GG(r.e, r.f, r.g, j), r.h), ss1), w);
    Registers(tt1, r.a, Left9(r.b), r.c, Mixed0(tt2), r.e, Left19(r.f), r.g)
  }

  lemma RoundIs(r: Registers, w: Word, wp: Word, j: nat, t: Word)
    requires t == Rotl(T(j), j % 32)
    ensures Round(r, w, wp, j) == Turned(r, w, wp, t, j)
  {
    var ss1 := Left7(Add(Add(Left12(r.a), r.e), t));
    RotlIs(r.a);
    RotlIs(r.b);
    RotlIs(r.f);
    RotlIs(Add(Add(Left12(r.a), r.e), t));
    PermutationsAre(Add(Add(Add(GG(r.e, r.f, r.g, j), r.h), ss1), w));
    hide Rotl, Left7, Left9, Left12, Left19, T, Add, Xor, FF, GG, P0, Mixed0;
  }

  // The standard's tables

  /** The expanded words W[j]. */
  function WordAt(j: nat): Word {
    match j
    case 0 => 0x61626380 case 1 => 0x00000000 case 2 => 0x00000000 case 3 => 0x00000000
    case 4 => 0x00000000 case 5 => 0x00000000 case 6 => 0x00000000 case 7 => 0x00000000
    case 8 => 0x00000000 case 9 => 0x00000000 case 10 => 0x00000000 case 11 => 0x00000000
    case 12 => 0x00000000 case 13 => 0x00000000 case 14 => 0x00000000 case 15 => 0x00000018
    case 16 => 0x9092e200 case 17 => 0x00000000 case 18 => 0x000c0606 case 19 => 0x719c70ed
    case 20 => 0x00000000 case 21 => 0x8001801f case 22 => 0x939f7da9 case 23 => 0x00000000
    case 24 => 0x2c6fa1f9 case 25 => 0xadaaef14 case 26 => 0x00000000 case 27 => 0x0001801e
    case 28 => 0x9a965f89 case 29 => 0x49710048 case 30 => 0x23ce86a1 case 31 => 0xb2d12f1b
    case 32 => 0xe1dae338 case 33 => 0xf8061807 case 34 => 0x055d68be case 35 => 0x86cfd481
    case 36 => 0x1f447d83 case 37 => 0xd9023dbf case 38 => 0x185898e0 case 39 => 0xe0061807
    case 40 => 0x050df55c case 41 => 0xcde0104c case 42 => 0xa5b9c955 case 43 => 0xa7df0184
    case 44 => 0x6e46cd08 case 45 => 0xe3babdf8 case 46 => 0x70caa422 case 47 => 0x0353af50
    case 48 => 0xa92dbca1 case 49 => 0x5f33cfd2 case 50 => 0xe16f6e89 case 51 => 0xf70fe941
    case 52 => 0xca5462dc case 53 => 0x85a90152 case 54 => 0x76af6296 case 55 => 0xc922bdb2
    case 56 => 0x68378cf5 case 57 => 0x97585344 case 58 => 0x09008723 case 59 => 0x86faee74
    case 60 => 0x2ab908b0 case 61 => 0x4a64bc50 case 62 => 0x864e6e08 case 63 => 0xf07e6590
    case 64 => 0x325c8f78 case 65 => 0xaccb8011 case 66 => 0xe11db9dd case 67 => 0xb99c0545
    case _ => 0
  }

  /** Register A before round j - 3; the first three entries are the initial B, C and D, turned back. */
  function AAt(j: nat): Word {
    match j
    case 0 => 0x006d4503 case 1 => 0x6b8b9221 case 2 => 0x4914b2b9 case 3 => 0x7380166f
    case 4 => 0xb9edc12b case 5 => 0xea52428c case 6 => 0x609f2850 case 7 => 0x35037e59
    case 8 => 0x1f995766 case 9 => 0x374a0ca7 case 10 => 0x33130100 case 11 => 0x1022ac97
    case 12 => 0xd47caf4c case 13 => 0x59c2744b case 14 => 0x481ba2a0 case 15 => 0x694a3d09
    case 16 => 0x89cbcd58 case 17 => 0x24c95abc case 18 => 0x7c529778 case 19 => 0x34d1691e
    case 20 => 0x796afab1 case 21 => 0x7d27cc0e case 22 => 0xd7820ad1 case 23 => 0xf84fd372
    case 24 => 0x02c57896 case 25 => 0x4d0c2fcd case 26 => 0xeeeec41a case 27 => 0xf368da78
    case 28 => 0x15ce1286 case 29 => 0xc3fd31c2 case 30 => 0x6243be5e case 31 => 0xa549beaa
    case 32 => 0xe11eb847 case 33 => 0xff9bac9d case 34 => 0xa5a4a2b3 case 35 => 0x89a13e59
    case 36 => 0x3720bd4e case 37 => 0x9ccd089c case 38 => 0xc7a0744d case 39 => 0xd955c3ed
    case 40 => 0xe142d72b case 41 => 0xe7250598 case 42 => 0x2f13c4ad case 43 => 0x19f363f9
    case 44 => 0x55e1dde2 case 45 => 0xd4f4efe3 case 46 => 0x48dcbc62 case 47 => 0x8237b8a0
    case 48 => 0xd8685939 case 49 => 0xd2090a86 case 50 => 0xe51076b3 case 51 => 0x47c5be50
    case 52 => 0xabddbdc8 case 53 => 0xbd708003 case 54 => 0x15e2f5d3 case 55 => 0x13826486
    case 56 => 0x4a00ed2f case 57 => 0xf4412e82 case 58 => 0x549db4b7 case 59 => 0x22a79585
    case 60 => 0x30245b78 case 61 => 0x6598314f case 62 => 0xc3d629a9 case 63 => 0xddb0a26a
    case 64 => 0x71034d71 case 65 => 0x5e636b4b case 66 => 0x2bfa5f60 case 67 => 0x1547e69b
    case _ => 0
  }

  /** Register E, likewise. */
  function EAt(j: nat): Word {
    match j
    case 0 => 0x61c9d61f case 1 => 0xbdc9bc71 case 2 => 0x163138aa case 3 => 0xa96f30bc
    case 4 => 0xb2ad29f4 case 5 => 0xac353a23 case 6 => 0xd33ad5fb case 7 => 0xb8204b5f
    case 8 => 0x8ad212ea case 9 => 0xacf0f639 case 10 => 0x3391ec8a case 11 => 0x367250a1
    case 12 => 0x6ad473a4 case 13 => 0xc6a3ceae case 14 => 0x02afb727 case 15 => 0x9dd1b58c
    case 16 => 0x6370db62 case 17 => 0x1a4a2554 case 18 => 0x3ee95933 case 19 => 0x61f99646
    case 20 => 0x067550f5 case 21 => 0xb3c8669b case 22 => 0x575c37d8 case 23 => 0xa5dceaf1
    case 24 => 0x74576681 case 25 => 0x576f1d09 case 26 => 0xb5523911 case 27 => 0x6a879032
    case 28 => 0x62063354 case 29 => 0x4db58f43 case 30 => 0x131152fe case 31 => 0xcf65e309
    case 32 => 0xe5b64e96 case 33 => 0x9811b46d case 34 => 0xe92df4ea case 35 => 0x0a1ff572
    case 36 => 0xcf7d1683 case 37 => 0xda8c835f case 38 => 0x0958ff1b case 39 => 0xc533f0ff
    case 40 => 0xd4509586 case 41 => 0xc7f93fd3 case 42 => 0x1a6cabc9 case 43 => 0xc302badb
    case 44 => 0x459daccf case 45 => 0x5cfba85a case 46 => 0x6f49c7bb case 47 => 0xd89d2711
    case 48 => 0x8ee87df5 case 49 => 0x2e533625 case 50 => 0xd9f89e61 case 51 => 0x3567734e
    case 52 => 0x3dfcdd11 case 53 => 0x93494bc0 case 54 => 0xc3956c3f case 55 => 0xcd09a51c
    case 56 => 0x0741f675 case 57 => 0x7429807c case 58 => 0xf6bc15ed case 59 => 0x9d4db19a
    case 60 => 0xf6804c82 case 61 => 0xf522adb2 case 62 => 0x14fb0764 case 63 => 0x589f7d5c
    case 64 => 0x14d5c7f6 case 65 => 0x09ccd95e case 66 => 0x4ac3cf08 case 67 => 0xe808f43b
    case _ => 0
  }

  const T_LOW: Word := 0x79cc4519

  const T_HIGH: Word := 0x7a879d8a

  /** The constants of the first sixteen rounds and of the others, turned left by n. */
  function LowAt(n: nat): Word {
    match n
    case 0 => T_LOW case 1 => (T_LOW << 1) | (T_LOW >> 31)
    case 2 => (T_LOW << 2) | (T_LOW >> 30) case 3 => (T_LOW << 3) | (T_LOW >> 29)
    case 4 => (T_LOW << 4) | (T_LOW >> 28) case 5 => (T_LOW << 5) | (T_LOW >> 27)
    case 6 => (T_LOW << 6) | (T_LOW >> 26) case 7 => (T_LOW << 7) | (T_LOW >> 25)
    case 8 => (T_LOW << 8) | (T_LOW >> 24) case 9 => (T_LOW << 9) | (T_LOW >> 23)
    case 10 => (T_LOW << 10) | (T_LOW >> 22) case 11 => (T_LOW << 11) | (T_LOW >> 21)
    case 12 => (T_LOW << 12) | (T_LOW >> 20) case 13 => (T_LOW << 13) | (T_LOW >> 19)
    case 14 => (T_LOW << 14) | (T_LOW >> 18) case 15 => (T_LOW << 15) | (T_LOW >> 17)
    case _ => 0
  }

  function HighAt(n: nat): Word {
    match n
    case 0 => T_HIGH case 1 => (T_HIGH << 1) | (T_HIGH >> 31)
    case 2 => (T_HIGH << 2) | (T_HIGH >> 30) case 3 => (T_HIGH << 3) | (T_HIGH >> 29)
    case 4 => (T_HIGH << 4) | (T_HIGH >> 28) case 5 => (T_HIGH << 5) | (T_HIGH >> 27)
    case 6 => (T_HIGH << 6) | (T_HIGH >> 26) case 7 => (T_HIGH << 7) | (T_HIGH >> 25)
    case 8 => (T_HIGH << 8) | (T_HIGH >> 24) case 9 => (T_HIGH << 9) | (T_HIGH >> 23)
    case 10 => (T_HIGH << 10) | (T_HIGH >> 22) case 11 => (T_HIGH << 11) | (T_HIGH >> 21)
    case 12 => (T_HIGH << 12) | (T_HIGH >> 20) case 13 => (T_HIGH << 13) | (T_HIGH >> 19)
    case 14 => (T_HIGH << 14) | (T_HIGH >> 18) case 15 => (T_HIGH << 15) | (T_HIGH >> 17)
    case 16 => (T_HIGH << 16) | (T_HIGH >> 16) case 17 => (T_HIGH << 17) | (T_HIGH >> 15)
    case 18 => (T_HIGH << 18) | (T_HIGH >> 14) case 19 => (T_HIGH << 19) | (T_HIGH >> 13)
    case 20 => (T_HIGH << 20) | (T_HIGH >> 12) case 21 => (T_HIGH << 21) | (T_HIGH >> 11)
    case 22 => (T_HIGH << 22) | (T_HIGH >> 10) case 23 => (T_HIGH << 23) | (T_HIGH >> 9)
    case 24 => (T_HIGH << 24) | (T_HIGH >> 8) case 25 => (T_HIGH << 25) | (T_HIGH >> 7)
    case 26 => (T_HIGH << 26) | (T_HIGH >> 6) case 27 => (T_HIGH << 27) | (T_HIGH >> 5)
    case 28 => (T_HIGH << 28) | (T_HIGH >> 4) case 29 => (T_HIGH << 29) | (T_HIGH >> 3)
    case 30 => (T_HIGH << 30) | (T_HIGH >> 2) case 31 => (T_HIGH << 31) | (T_HIGH >> 1)
    case _ => 0
  }

  function TAt(j: nat): Word {
    if j < 16 then LowAt(j) else if j < 32 then HighAt(j) else HighAt(j - 32)
  }

  /** The registers before round j. */
  function TraceAt(j: nat): Registers {
    Registers(AAt(j + 3), AAt(j + 2), Left9(AAt(j + 1)), Left9(AAt(j)),
              EAt(j + 3), EAt(j + 2), Left19(EAt(j + 1)), Left19(EAt(j)))
  }

  predicate WordRight(j: nat) {
    j >= 16 ==> WordAt(j) == Mixed(WordAt(j - 16), WordAt(j - 9), WordAt(j - 3), WordAt(j - 13), WordAt(j - 6))
  }

  predicate RoundRight(j: nat) {
    TraceAt(j + 1) == Turned(TraceAt(j), WordAt(j), WordAt(j) ^ WordAt(j + 4), TAt(j), j)
  }

  lemma WordsRight16(j: nat)
    requires 16 <= j < 42
    ensures WordRight(j)
  {
    match j
    case 16 => case 17 => case 18 => case 19 => case 20 => case 21 => case 22 => case 23 => case 24 => case 25 =>
    case 26 => case 27 => case 28 => case 29 => case 30 => case 31 => case 32 => case 33 => case 34 => case 35 =>
    case 36 => case 37 => case 38 => case 39 => case 40 => case 41 =>
  }

  lemma WordsRight42(j: nat)
    requires 42 <= j < 68
    ensures WordRight(j)
  {
    match j
    case 42 => case 43 => case 44 => case 45 => case 46 => case 47 => case 48 => case 49 => case 50 => case 51 =>
    case 52 => case 53 => case 54 => case 55 => case 56 => case 57 => case 58 => case 59 => case 60 => case 61 =>
    case 62 => case 63 => case 64 => case 65 => case 66 => case 67 =>
  }

  lemma RoundsRight0(j: nat)
    requires 0 <= j < 8
    ensures RoundRight(j)
  {
    match j
    case 0 => case 1 => case 2 => case 3 => case 4 => case 5 => case 6 => case 7 =>
  }

  lemma RoundsRight8(j: nat)
    requires 8 <= j < 16
    ensures RoundRight(j)
  {
    match j
    case 8 => case 9 => case 10 => case 11 => case 12 => case 13 => case 14 => case 15 =>
  }

  lemma RoundsRight16(j: nat)
    requires 16 <= j < 24
    ensures RoundRight(j)
  {
    match j
    case 16 => case 17 => case 18 => case 19 => case 20 => case 21 => case 22 => case 23 =>
  }

  lemma RoundsRight24(j: nat)
    requires 24 <= j < 32
    ensures RoundRight(j)
  {
    match j
    case 24 => case 25 => case 26 => case 27 => case 28 => case 29 => case 30 => case 31 =>
  }

  lemma RoundsRight32(j: nat)
    requires 32 <= j < 40
    ensures RoundRight(j)
  {
    match j
    case 32 => case 33 => case 34 => case 35 => case 36 => case 37 => case 38 => case 39 =>
  }

  lemma RoundsRight40(j: nat)
    requires 40 <= j < 48
    ensures RoundRight(j)
  {
    match j
    case 40 => case 41 => case 42 => case 43 => case 44 => case 45 => case 46 => case 47 =>
  }

  lemma RoundsRight48(j: nat)
    requires 48 <= j < 56
    ensures RoundRight(j)
  {
    match j
    case 48 => case 49 => case 50 => case 51 => case 52 => case 53 => case 54 => case 55 =>
  }

  lemma RoundsRight56(j: nat)
    requires 56 <= j < 64
    ensures RoundRight(j)
  {
    match j
    case 56 => case 57 => case 58 => case 59 => case 60 => case 61 => case 62 => case 63 =>
  }

  lemma LowIs(n: nat)
    requires 0 <= n < 16
    ensures Rotl(T_LOW, n) == LowAt(n)
  {
    match n
    case 0 =>
    case 1 => assert Rotl(T_LOW, 1) == (T_LOW << 1) | (T_LOW >> 31);
    case 2 => assert Rotl(T_LOW, 2) == (T_LOW << 2) | (T_LOW >> 30);
    case 3 => assert Rotl(T_LOW, 3) == (T_LOW << 3) | (T_LOW >> 29);
    case 4 => assert Rotl(T_LOW, 4) == (T_LOW << 4) | (T_LOW >> 28);
    case 5 => assert Rotl(T_LOW, 5) == (T_LOW << 5) | (T_LOW >> 27);
    case 6 => assert Rotl(T_LOW, 6) == (T_LOW << 6) | (T_LOW >> 26);
    case 7 => assert Rotl(T_LOW, 7) == (T_LOW << 7) | (T_LOW >> 25);
    case 8 => assert Rotl(T_LOW, 8) == (T_LOW << 8) | (T_LOW >> 24);
    case 9 => assert Rotl(T_LOW, 9) == (T_LOW << 9) | (T_LOW >> 23);
    case 10 => assert Rotl(T_LOW, 10) == (T_LOW << 10) | (T_LOW >> 22);
    case 11 => assert Rotl(T_LOW, 11) == (T_LOW << 11) | (T_LOW >> 21);
    case 12 => assert Rotl(T_LOW, 12) == (T_LOW << 12) | (T_LOW >> 20);
    case 13 => assert Rotl(T_LOW, 13) == (T_LOW << 13) | (T_LOW >> 19);
    case 14 => assert Rotl(T_LOW, 14) == (T_LOW << 14) | (T_LOW >> 18);
    case 15 => assert Rotl(T_LOW, 15) == (T_LOW << 15) | (T_LOW >> 17);
  }

  lemma HighIs0(n: nat)
    requires 0 <= n < 16
    ensures Rotl(T_HIGH, n) == HighAt(n)
  {
    match n
    case 0 =>
    case 1 => assert Rotl(T_HIGH, 1) == (T_HIGH << 1) | (T_HIGH >> 31);
    case 2 => assert Rotl(T_HIGH, 2) == (T_HIGH << 2) | (T_HIGH >> 30);
    case 3 => assert Rotl(T_HIGH, 3) == (T_HIGH << 3) | (T_HIGH >> 29);
    case 4 => assert Rotl(T_HIGH, 4) == (T_HIGH << 4) | (T_HIGH >> 28);
    case 5 => assert Rotl(T_HIGH, 5) == (T_HIGH << 5) | (T_HIGH >> 27);
    case 6 => assert Rotl(T_HIGH, 6) == (T_HIGH << 6) | (T_HIGH >> 26);
    case 7 => assert Rotl(T_HIGH, 7) == (T_HIGH << 7) | (T_HIGH >> 25);
    case 8 => assert Rotl(T_HIGH, 8) == (T_HIGH << 8) | (T_HIGH >> 24);
    case 9 => assert Rotl(T_HIGH, 9) == (T_HIGH << 9) | (T_HIGH >> 23);
    case 10 => assert Rotl(T_HIGH, 10) == (T_HIGH << 10) | (T_HIGH >> 22);
    case 11 => assert Rotl(T_HIGH, 11) == (T_HIGH << 11) | (T_HIGH >> 21);
    case 12 => assert Rotl(T_HIGH, 12) == (T_HIGH << 12) | (T_HIGH >> 20);
    case 13 => assert Rotl(T_HIGH, 13) == (T_HIGH << 13) | (T_HIGH >> 19);
    case 14 => assert Rotl(T_HIGH, 14) == (T_HIGH << 14) | (T_HIGH >> 18);
    case 15 => assert Rotl(T_HIGH, 15) == (T_HIGH << 15) | (T_HIGH >> 17);
  }

  lemma HighIs16(n: nat)
    requires 16 <= n < 32
    ensures Rotl(T_HIGH, n) == HighAt(n)
  {
    match n
    case 16 => assert Rotl(T_HIGH, 16) == (T_HIGH << 16) | (T_HIGH >> 16);
    case 17 => assert Rotl(T_HIGH, 17) == (T_HIGH << 17) | (T_HIGH >> 15);
    case 18 => assert Rotl(T_HIGH, 18) == (T_HIGH << 18) | (T_HIGH >> 14);
    case 19 => assert Rotl(T_HIGH, 19) == (T_HIGH << 19) | (T_HIGH >> 13);
    case 20 => assert Rotl(T_HIGH, 20) == (T_HIGH << 20) | (T_HIGH >> 12);
    case 21 => assert Rotl(T_HIGH, 21) == (T_HIGH << 21) | (T_HIGH >> 11);
    case 22 => assert Rotl(T_HIGH, 22) == (T_HIGH << 22) | (T_HIGH >> 10);
    case 23 => assert Rotl(T_HIGH, 23) == (T_HIGH << 23) | (T_HIGH >> 9);
    case 24 => assert Rotl(T_HIGH, 24) == (T_HIGH << 24) | (T_HIGH >> 8);
    case 25 => assert Rotl(T_HIGH, 25) == (T_HIGH << 25) | (T_HIGH >> 7);
    case 26 => assert Rotl(T_HIGH, 26) == (T_HIGH << 26) | (T_HIGH >> 6);
    case 27 => assert Rotl(T_HIGH, 27) == (T_HIGH << 27) | (T_HIGH >> 5);
    case 28 => assert Rotl(T_HIGH, 28) == (T_HIGH << 28) | (T_HIGH >> 4);
    case 29 => assert Rotl(T_HIGH, 29) == (T_HIGH << 29) | (T_HIGH >> 3);
    case 30 => assert Rotl(T_HIGH, 30) == (T_HIGH << 30) | (T_HIGH >> 2);
    case 31 => assert Rotl(T_HIGH, 31) == (T_HIGH << 31) | (T_HIGH >> 1);
  }

  lemma ConstantParts(j: nat)
    requires j < 64
    ensures j < 16 ==> j % 32 == j && T(j) == T_LOW && TAt(j) == LowAt(j)
    ensures 16 <= j < 32 ==> j % 32 == j && T(j) == T_HIGH && TAt(j) == HighAt(j)
    ensures 32 <= j ==> j % 32 == j - 32 && T(j) == T_HIGH && TAt(j) == HighAt(j - 32)
  {
    hide LowAt, HighAt;
  }

  lemma ConstantIs(j: nat)
    requires j < 64
    ensures Rotl(T(j), j % 32) == TAt(j)
  {
    hide *;
    ConstantParts(j);
    if j < 16 {
      LowIs(j);
    } else {
      var n := j % 32;
      if n < 16 { HighIs0(n); } else { HighIs16(n); }
    }
  }

  // The words, the rounds and the digest of the block

  lemma FirstWords(j: nat)
    requires j < 16
    ensures W(BLOCK, j) == WordAt(j)
  {
    var word := BLOCK[4 * j..4 * j + 4];
    if j == 0 {
      assert word == [0x61, 0x62, 0x63, 0x80];
      assert BigEndianWord([0x61, 0x62, 0x63, 0x80]) == 0x61626380;
    } else if j < 15 {
      assert word == [0, 0, 0, 0];
      assert BigEndianWord([0, 0, 0, 0]) == 0;
      NoOtherWords(j);
    } else {
      assert word == [0, 0, 0, 0x18];
      assert BigEndianWord([0, 0, 0, 0x18]) == 0x18;
    }
  }

  lemma NoOtherWords(j: nat)
    requires 0 < j < 15
    ensures WordAt(j) == 0
  {
  }

  lemma {:induction false} WordsAre(j: nat)
    requires j < 68
    ensures W(BLOCK, j) == WordAt(j)
  {
    hide Mix, Mixed, WordAt;
    if j < 16 {
      FirstWords(j);
    } else {
      WordsAre(j - 16);
      WordsAre(j - 13);
      WordsAre(j - 9);
      WordsAre(j - 6);
      WordsAre(j - 3);
      MixIs(WordAt(j - 16), WordAt(j - 9), WordAt(j - 3), WordAt(j - 13), WordAt(j - 6));
      if j < 42 { WordsRight16(j); } else { WordsRight42(j); }
    }
  }

  lemma FirstRegisters()
    ensures TraceAt(0) == IV
  {
  }

  lemma OneMoreRound(j: nat, v: Registers)
    requires j < 64
    ensures Rounds(BLOCK, v, j + 1) == Round(Rounds(BLOCK, v, j), W(BLOCK, j), W(BLOCK, j) ^ W(BLOCK, j + 4), j)
  {
    hide Round, W;
  }

  lemma TraceStep(j: nat)
    requires j < 64
    ensures Round(TraceAt(j), WordAt(j), WordAt(j) ^ WordAt(j + 4), j) == TraceAt(j + 1)
  {
    hide Round, Turned, TraceAt, WordAt, TAt, T, Rotl;
    ConstantIs(j);
    if j < 8 { RoundsRight0(j); } else if j < 16 { RoundsRight8(j); } else if j < 24 { RoundsRight16(j); }
    else if j < 32 { RoundsRight24(j); } else if j < 40 { RoundsRight32(j); } else if j < 48 { RoundsRight40(j); }
    else if j < 56 { RoundsRight48(j); } else { RoundsRight56(j); }
    RoundIs(TraceAt(j), WordAt(j), WordAt(j) ^ WordAt(j + 4), j, TAt(j));
  }

  lemma {:induction false} RoundsAre(n: nat)
    requires n <= 64
    ensures Rounds(BLOCK, IV, n) == TraceAt(n)
  {
    hide Round, TraceAt, WordAt, W;
    if n == 0 {
      FirstRegisters();
    } else {
      hide Rounds;
      RoundsAre(n - 1);
      WordsAre(n - 1);
      WordsAre(n + 3);
      OneMoreRound(n - 1, IV);
      TraceStep(n - 1);
    }
  }

  lemma LeadingOctet(i: nat)
    requires i < 7
    ensures LengthOctet(24, i) == 0
  {
    var p := Pow256(7 - i);
    assert p == 256 * Pow256(6 - i);
    QuotientUnique(24, 0, 24, p);
    hide Pow256;
  }

  lemma LengthOfAbc()
    ensures LengthField(24) == [0, 0, 0, 0, 0, 0, 0, 0x18]
  {
    assert LengthOctet(24, 7) == 0x18 by { assert Pow256(0) == 1; }
    hide LengthOctet, Pow256;
    forall i: nat | i < 7 ensures LengthField(24)[i] == 0 { LeadingOctet(i); }
    assert LengthField(24)[7] == 0x18;
  }

  lemma BitsOfAbc()
    ensures 8 * |ABC| % Pow256(8) == 24 && ZeroCount(|ABC|) == 52
  {
    RemainderUnique(24, 0, 24, Pow256(8));
  }

  lemma AbcIsPadded()
    ensures Padded(ABC) == BLOCK
  {
    LengthOfAbc();
    BitsOfAbc();
    hide LengthField, Pow256, ZeroCount, Zeros;
    assert Padded(ABC) == ABC + [0x80] + Zeros(52) + [0, 0, 0, 0, 0, 0, 0, 0x18];
  }

  const REGISTERS_OF_ABC :=
    Registers(0x66c7f0f4, 0x62eeedd9, 0xd1f2d46b, 0xdc10e4e2, 0x4167c487, 0x5cf2f7a2, 0x297da02b, 0x8f4ba8e0)

  lemma BlockCompressed()
    ensures |BLOCK| == 64 && Chain(BLOCK, 1) == REGISTERS_OF_ABC
  {
    assert BLOCK[0..64] == BLOCK;
    RoundsAre(64);
    LastRegisters();
    hide Rounds, TraceAt, XorAll;
  }

  lemma LastRegisters()
    ensures XorAll(TraceAt(64), IV) == REGISTERS_OF_ABC
  {
    var last :=
      Registers(0x1547e69b, 0x2bfa5f60, 0xc6d696bc, 0x069ae2e2, 0xe808f43b, 0x4ac3cf08, 0xcaf04e66, 0x3fb0a6ae);
    assert TraceAt(64) == last;
    hide TraceAt;
    assert Xor(0x1547e69b, 0x7380166f) == 0x66c7f0f4;
    assert Xor(0x2bfa5f60, 0x4914b2b9) == 0x62eeedd9;
    assert Xor(0xc6d696bc, 0x172442d7) == 0xd1f2d46b;
    assert Xor(0x069ae2e2, 0xda8a0600) == 0xdc10e4e2;
    assert Xor(0xe808f43b, 0xa96f30bc) == 0x4167c487;
    assert Xor(0x4ac3cf08, 0x163138aa) == 0x5cf2f7a2;
    assert Xor(0xcaf04e66, 0xe38dee4d) == 0x297da02b;
    assert Xor(0x3fb0a6ae, 0xb0fb0e4e) == 0x8f4ba8e0;
    hide Xor;
  }

  lemma StoreEight(w: seq<Word>)
    requires |w| == 8
    ensures StoreWords(w) == StoreWord(w[0]) + StoreWord(w[1]) + StoreWord(w[2]) + StoreWord(w[3])
                             + StoreWord(w[4]) + StoreWord(w[5]) + StoreWord(w[6]) + StoreWord(w[7])
  {
    hide StoreWord;
    assert w[..8] == w && w[..0] == [];
    forall k: nat | k < 8 ensures StoreWords(w[..k + 1]) == StoreWords(w[..k]) + StoreWord(w[k]) {
      assert w[..k + 1][..k] == w[..k];
    }
    assert StoreWords(w[..1]) == StoreWord(w[0]);
  }

  lemma WordsOfAbc()
    ensures Output(REGISTERS_OF_ABC) == DIGEST_OF_ABC
  {
    StoreEight(RegisterWords(REGISTERS_OF_ABC));
    assert StoreWord(0x66c7f0f4) == [0x66, 0xc7, 0xf0, 0xf4];
    assert StoreWord(0x62eeedd9) == [0x62, 0xee, 0xed, 0xd9];
    assert StoreWord(0xd1f2d46b) == [0xd1, 0xf2, 0xd4, 0x6b];
    assert StoreWord(0xdc10e4e2) == [0xdc, 0x10, 0xe4, 0xe2];
    assert StoreWord(0x4167c487) == [0x41, 0x67, 0xc4, 0x87];
    assert StoreWord(0x5cf2f7a2) == [0x5c, 0xf2, 0xf7, 0xa2];
    assert StoreWord(0x297da02b) == [0x29, 0x7d, 0xa0, 0x2b];
    assert StoreWord(0x8f4ba8e0) == [0x8f, 0x4b, 0xa8, 0xe0];
    hide StoreWord, StoreWords;
  }

  /** The digest of "abc" is the standard's. */
  lemma DigestOfAbc()
    ensures Digest(ABC) == DIGEST_OF_ABC
  {
    AbcIsPadded();
    BlockCompressed();
    WordsOfAbc();
    hide Padded, Chain, Output;
  }
}
