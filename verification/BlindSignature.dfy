/** SM2 blind signatures: the signer's two steps, the client's two, and the two verifiers. */
module BlindSignature {
  import opened Bytes
  import opened Modular

  /** 2^256 */
  function ScalarLimit(): nat {
    0x1_0000_0000_0000_0000_0000_0000_0000_0000_0000_0000_0000_0000_0000_0000_0000_0000
  }

  lemma LimitIsPower()
    ensures ScalarLimit() == Pow256(32)
  {
    assert Pow256(1) == 256;
    hide Pow256;
    Squared(1, 0x100);
    Squared(2, 0x1_0000);
    Squared(4, 0x1_0000_0000);
    Squared(8, 0x1_0000_0000_0000_0000);
    Squared(16, 0x1_0000_0000_0000_0000_0000_0000_0000_0000);
  }

  lemma Squared(a: nat, v: nat)
    requires Pow256(a) == v
    ensures Pow256(2 * a) == v * v
  {
    PowAdds(a, a);
  }

  lemma {:induction false} PowAdds(a: nat, b: nat)
    ensures Pow256(a + b) == Pow256(a) * Pow256(b)
  {
    if a > 0 {
      PowAdds(a - 1, b);
      assert Pow256(a + b) == 256 * (Pow256(a - 1) * Pow256(b));
    }
  }

  /** The curve library: a cyclic group of order n, its x coordinate and its point encoding.
      Point k is k times the base point, and log(q) one of the k with point k equal to q. */
  datatype Curve<!P(!new)> = Curve(n: nat, point: int -> P, log: P -> int, add: (P, P) -> P, mul: (int, P) -> P,
                             x: P -> Bytes, encode: P -> Bytes, decode: Bytes -> Option<P>)
  {
    function Zero(): P {
      point(0)
    }

    ghost predicate SumLaw(a: int, b: int) {
      add(point(a), point(b)) == point(a + b)
    }

    ghost predicate MultipleLaw(a: int, b: int) {
      mul(a, point(b)) == point(a * b)
    }

    ghost predicate OrderLaw(a: int, b: int) {
      n > 0 ==> (point(a) == point(b) <==> a % n == b % n)
    }

    ghost predicate LogLaw(q: P) {
      point(log(q)) == q
    }

    /** A cyclic group of order n. */
    ghost predicate GroupLaws() {
      && (forall a, b :: SumLaw(a, b)) && (forall a, b :: MultipleLaw(a, b))
      && (forall a, b :: OrderLaw(a, b)) && (forall q :: LogLaw(q))
    }

    ghost predicate EncodeLaw(q: P) {
      |x(q)| == 32 && (q != Zero() ==> |encode(q)| == 65 && encode(q)[0] == 4 && encode(q)[1..33] == x(q))
    }

    ghost predicate DecodeLaw(b: Bytes, q: P) {
      decode(b) == Some(q) <==> q != Zero() && b == encode(q)
    }

    /** Uncompressed points: 0x04, x, y. Decoding accepts the encodings of the points other than zero. */
    ghost predicate EncodingLaws() {
      (forall q :: EncodeLaw(q)) && (forall b, q :: DecodeLaw(b, q))
    }

    ghost predicate Lawful() {
      1 < n < ScalarLimit() && GroupLaws() && EncodingLaws()
    }

    lemma PointsEqual(a: int, b: int)
      requires GroupLaws() && n > 0
      ensures point(a) == point(b) <==> a % n == b % n
    {
      assert OrderLaw(a, b);
    }

    lemma Sum(a: int, b: int)
      requires GroupLaws() && n > 0
      ensures add(point(a), point(b)) == point(a + b)
    {
      assert SumLaw(a, b);
    }

    lemma Multiple(a: int, b: int)
      requires GroupLaws() && n > 0
      ensures mul(a, point(b)) == point(a * b)
    {
      assert MultipleLaw(a, b);
    }

    lemma Log(q: P)
      requires GroupLaws() && n > 0
      ensures point(log(q)) == q
    {
      assert LogLaw(q);
    }

    lemma RoundTrip(q: P)
      requires EncodingLaws() && q != Zero()
      ensures decode(encode(q)) == Some(q) && |encode(q)| == 65 && encode(q)[0] == 4 && encode(q)[1..33] == x(q)
    {
      assert EncodeLaw(q) && DecodeLaw(encode(q), q);
    }
  }

  type Digest = Bytes -> Bytes

  function Scalar(v: nat): (b: Bytes)
    requires v < ScalarLimit()
    ensures |b| == 32
  {
    LimitIsPower();
    BigEndian(v, 32)
  }

  predicate InRange(v: int, n: nat) {
    1 <= v < n
  }

  /** c = H(x || M) mod n. */
  function Challenge(hash: Digest, x: Bytes, message: Bytes, n: nat): (c: nat)
    requires n > 0
    ensures c < n
  {
    FromBigEndian(hash(x + message)) % n
  }

  // The signer

  /** `cc_bridge_sm2_blind_commit`, for the k that was drawn: R = [k]G. */
  function Commitment<P(!new, ==)>(cv: Curve<P>, k: int): P {
    cv.mul(k, cv.point(1))
  }

  function Respond(n: nat, k: nat, cPrime: nat, d: nat): (s: nat)
    requires n > 0
    ensures s < n
  {
    (k + cPrime * d % n) % n
  }

  /** `cc_bridge_sm2_blind_sign`: s' = (k + c'd) mod n, for a k and a d in range and any c'. */
  function BlindSign(n: nat, k: Bytes, cPrime: Bytes, key: Bytes): (s: Option<Bytes>)
    requires 0 < n < ScalarLimit()
    ensures s.Some? ==> |s.value| == 32
  {
    var kb, d := FromBigEndian(k), FromBigEndian(key);
    if !InRange(kb, n) || !InRange(d, n) then None
    else Some(Scalar(Respond(n, kb, FromBigEndian(cPrime), d)))
  }

  // The client

  /** What blinding hands out: the challenge for the signer, the client's secret state, and R'. */
  datatype Blinding = Blinding(cPrime: Bytes, state: Bytes, rPrime: Bytes)

  /** c' = (c + beta) mod n. */
  function Shifted(c: nat, beta: nat, n: nat): (cPrime: nat)
    requires n > 0
    ensures cPrime < n
  {
    (c + beta) % n
  }

  function BlindedPoint<P(!new, ==)>(cv: Curve<P>, r: P, pub: P, alpha: int, beta: int): P {
    cv.add(r, cv.add(cv.mul(alpha, cv.point(1)), cv.mul(beta, pub)))
  }

  function BlindResult<P(!new, ==)>(cv: Curve<P>, hash: Digest, pub: Bytes, commitment: Bytes, message: Bytes,
                          alpha: Bytes, beta: Bytes): (r: Option<Blinding>)
    requires 0 < cv.n < ScalarLimit()
  {
    var a, b := FromBigEndian(alpha), FromBigEndian(beta);
    if !InRange(a, cv.n) || !InRange(b, cv.n) then None
    else
      match (cv.decode(commitment), cv.decode(pub))
      case (Some(r), Some(p)) =>
        var rPrime := BlindedPoint(cv, r, p, a, b);
        if rPrime == cv.Zero() then None
        else
          var c := Challenge(hash, cv.x(rPrime), message, cv.n);
          Some(Blinding(Scalar(Shifted(c, b, cv.n)), Scalar(a) + Scalar(b), cv.encode(rPrime)))
      case _ => None
  }

  /** s = (s' + alpha) mod n; alpha is the first half of the state. */
  function Unblinded(n: nat, sPrime: Bytes, state: Bytes): (s: Bytes)
    requires 0 < n < ScalarLimit() && |state| == 64
    ensures |s| == 32
  {
    Scalar((FromBigEndian(sPrime) + FromBigEndian(state[..32])) % n)
  }

  // The verifiers

  /** [s]G + [-c]P */
  function Recovered<P(!new, ==)>(cv: Curve<P>, s: int, c: int, pub: P): P
    requires cv.n > 0
  {
    cv.add(cv.mul(s, cv.point(1)), cv.mul((0 - c) % cv.n, pub))
  }

  /** `cc_bridge_sm2_blind_verify`: compares whole points. */
  predicate FullVerify<P(!new, ==)>(cv: Curve<P>, hash: Digest, rPrime: Bytes, message: Bytes, s: Bytes, pub: Bytes)
    requires cv.n > 0
  {
    match (cv.decode(rPrime), cv.decode(pub))
    case (Some(r), Some(p)) =>
      && InRange(FromBigEndian(s), cv.n)
      && Recovered(cv, FromBigEndian(s), Challenge(hash, cv.x(r), message, cv.n), p) == r
    case _ => false
  }

  /** `cc_client_verify`: compares x coordinates; a recovered zero has none. */
  predicate XVerify<P(!new, ==)>(cv: Curve<P>, hash: Digest, credential: Bytes, message: Bytes, pub: Bytes)
    requires cv.n > 0 && |credential| == 64
  {
    match cv.decode(pub)
    case None => false
    case Some(p) =>
      var x, s := credential[..32], FromBigEndian(credential[32..]);
      && InRange(s, cv.n)
      && var q := Recovered(cv, s, Challenge(hash, x, message, cv.n), p);
      q != cv.Zero() && cv.x(q) == x
  }

  /** `cc_client_credential`. */
  function Credential(rPrime: Bytes, s: Bytes): (c: Option<Bytes>)
    requires |rPrime| == 65 && |s| == 32
    ensures c.Some? ==> |c.value| == 64
  {
    if rPrime[0] != 4 then None else Some(rPrime[1..33] + s)
  }

  // Correctness

  /** The log of R' in an honest run. */
  function Exponent(k: int, alpha: int, beta: int, d: int): int {
    k + alpha + beta * d
  }

  /** The one scalar that answers the challenge c for a point with log r under the key d. */
  function Answer(n: nat, r: int, c: int, d: int): (s: nat)
    requires n > 0
    ensures s < n
  {
    (r + c * d) % n
  }

  predicate Answers(n: nat, s: int, r: int, c: int, d: int)
    requires n > 0
  {
    (s - c * d) % n == r % n
  }

  lemma AnswersIff(n: nat, s: nat, r: int, c: int, d: int)
    requires 0 < n && s < n
    ensures Answers(n, s, r, c, d) <==> s == Answer(n, r, c, d)
  {
    ShiftIff(n, s, r, c * d);
  }

  lemma ShiftIff(n: nat, s: nat, r: int, m: int)
    requires 0 < n && s < n
    ensures (s - m) % n == r % n <==> s == (r + m) % n
  {
    AddMod(r + m, -m, n);
    AddMod(s - m, m, n);
    AddMod(r, m, n);
    RemainderUnique(s, 0, s, n);
  }

  lemma ScalarInverts(v: nat)
    requires v < ScalarLimit()
    ensures FromBigEndian(Scalar(v)) == v
  {
    LimitIsPower();
    BigEndianRoundTrip(v, 32);
  }

  /** In the exponent, the blinded point is k + alpha + beta d. */
  lemma BlindedLog<P(!new)>(cv: Curve<P>, k: int, d: int, alpha: int, beta: int)
    requires cv.GroupLaws() && cv.n > 0
    ensures BlindedPoint(cv, cv.point(k), cv.point(d), alpha, beta) == cv.point(Exponent(k, alpha, beta, d))
  {
    hide Curve.GroupLaws, Curve.EncodingLaws, ScalarLimit;
    cv.Multiple(alpha, 1);
    cv.Multiple(beta, d);
    cv.Sum(alpha, beta * d);
    cv.Sum(k, alpha + beta * d);
  }

  /** A recovered point is s - cd in the exponent. */
  lemma RecoveredLog<P(!new)>(cv: Curve<P>, s: int, c: int, d: int)
    requires cv.GroupLaws() && cv.n > 0
    ensures Recovered(cv, s, c, cv.point(d)) == cv.point(s - c * d)
  {
    hide Curve.GroupLaws, Curve.EncodingLaws, ScalarLimit;
    var nc := (0 - c) % cv.n;
    cv.Multiple(s, 1);
    cv.Multiple(nc, d);
    cv.Sum(s, nc * d);
    ModMod(0 - c, cv.n);
    CongLinear(nc, 0 - c, d, s, cv.n);
    assert (0 - c) * d + s == s - c * d;
    cv.PointsEqual(s + nc * d, s - c * d);
  }

  /** The unblinded signature, in the integers modulo n: k + alpha + beta d, plus c d. */
  lemma SignedSum(n: nat, k: nat, c: nat, d: nat, alpha: nat, beta: nat)
    requires n > 0
    ensures (Respond(n, k, Shifted(c, beta, n), d) + alpha) % n == Answer(n, Exponent(k, alpha, beta, d), c, d)
  {
    var cp := Shifted(c, beta, n);
    NestedAdd(k, cp * d, alpha, n);
    ModMod(c + beta, n);
    CongLinear(cp, c + beta, d, k + alpha, n);
    assert (c + beta) * d == c * d + beta * d;
  }

  lemma NonzeroPoint<P(!new)>(cv: Curve<P>, k: int)
    requires cv.GroupLaws() && cv.n > 0
    ensures cv.point(k) == cv.Zero() <==> k % cv.n == 0
    ensures InRange(k, cv.n) ==> cv.point(k) != cv.Zero()
  {
    hide Curve.GroupLaws, Curve.EncodingLaws, ScalarLimit, Answer, Answers, Exponent, Respond;
    cv.PointsEqual(k, 0);
    RemainderUnique(0, 0, 0, cv.n);
    if InRange(k, cv.n) { RemainderUnique(k, 0, k, cv.n); }
  }

  lemma CommitmentLog<P(!new)>(cv: Curve<P>, k: int)
    requires cv.GroupLaws() && cv.n > 0
    ensures Commitment(cv, k) == cv.point(k)
  {
    hide Curve.GroupLaws, Curve.EncodingLaws, ScalarLimit, Answer, Answers, Exponent, Respond;
    cv.Multiple(k, 1);
  }

  /** Full verification in the exponent: s is in range and s - cd is the log of R' modulo n. */
  lemma FullVerifyIff<P(!new)>(cv: Curve<P>, hash: Digest, r: int, d: int, message: Bytes, s: Bytes)
    requires cv.Lawful() && cv.point(r) != cv.Zero() && cv.point(d) != cv.Zero()
    ensures FullVerify(cv, hash, cv.encode(cv.point(r)), message, s, cv.encode(cv.point(d))) <==>
            InRange(FromBigEndian(s), cv.n) &&
            Answers(cv.n, FromBigEndian(s), r, Challenge(hash, cv.x(cv.point(r)), message, cv.n), d)
  {
    hide Curve.GroupLaws, Curve.EncodingLaws, ScalarLimit, Recovered, Challenge;
    var c := Challenge(hash, cv.x(cv.point(r)), message, cv.n);
    cv.RoundTrip(cv.point(r));
    cv.RoundTrip(cv.point(d));
    RecoveredLog(cv, FromBigEndian(s), c, d);
    cv.PointsEqual(FromBigEndian(s) - c * d, r);
  }

  /** Blinding with scalars in range fails only when R' is zero. */
  lemma BlindResultOf<P(!new)>(cv: Curve<P>, hash: Digest, message: Bytes, pub: P, r: P, alpha: nat, beta: nat)
    requires cv.Lawful() && alpha < cv.n && beta < cv.n && pub != cv.Zero() && r != cv.Zero()
    ensures var rPrime := BlindedPoint(cv, r, pub, alpha, beta);
            BlindResult(cv, hash, cv.encode(pub), cv.encode(r), message, Scalar(alpha), Scalar(beta)) ==
            if alpha == 0 || beta == 0 || rPrime == cv.Zero() then None
            else Some(Blinding(Scalar(Shifted(Challenge(hash, cv.x(rPrime), message, cv.n), beta, cv.n)),
                               Scalar(alpha) + Scalar(beta), cv.encode(rPrime)))
  {
    hide Curve.GroupLaws, Curve.EncodingLaws, ScalarLimit, BlindedPoint, Challenge, Scalar, Shifted;
    cv.RoundTrip(r);
    cv.RoundTrip(pub);
    ScalarInverts(alpha);
    ScalarInverts(beta);
  }

  /** Blinding in the exponent. */
  lemma BlindResultIs<P(!new)>(cv: Curve<P>, hash: Digest, message: Bytes, d: int, k: int, alpha: nat, beta: nat)
    requires cv.Lawful() && InRange(alpha, cv.n) && InRange(beta, cv.n)
    requires cv.point(k) != cv.Zero() && cv.point(d) != cv.Zero()
    ensures var r := Exponent(k, alpha, beta, d);
            var c := Challenge(hash, cv.x(cv.point(r)), message, cv.n);
            BlindResult(cv, hash, cv.encode(cv.point(d)), cv.encode(cv.point(k)), message,
                        Scalar(alpha), Scalar(beta)) ==
            if r % cv.n == 0 then None
            else Some(Blinding(Scalar(Shifted(c, beta, cv.n)), Scalar(alpha) + Scalar(beta), cv.encode(cv.point(r))))
  {
    hide Curve.GroupLaws, Curve.EncodingLaws, ScalarLimit, Exponent, BlindedPoint, Challenge, Scalar, Shifted;
    hide BlindResult;
    BlindedLog(cv, k, d, alpha, beta);
    NonzeroPoint(cv, Exponent(k, alpha, beta, d));
    BlindResultOf(cv, hash, message, cv.point(d), cv.point(k), alpha, beta);
  }

  /** What the signer and the client make of a blinded challenge. */
  function Finish(n: nat, k: nat, d: nat, b: Blinding): (s: Option<Bytes>)
    requires 0 < n < ScalarLimit() && k < ScalarLimit() && d < ScalarLimit() && |b.state| == 64
    ensures s.Some? ==> |s.value| == 32
  {
    match BlindSign(n, Scalar(k), b.cPrime, Scalar(d))
    case None => None
    case Some(sPrime) => Some(Unblinded(n, sPrime, b.state))
  }

  lemma BlindSignIs(n: nat, k: nat, d: nat, cp: nat)
    requires 0 < n < ScalarLimit() && InRange(k, n) && InRange(d, n) && cp < n
    ensures BlindSign(n, Scalar(k), Scalar(cp), Scalar(d)) == Some(Scalar(Respond(n, k, cp, d)))
  {
    hide ScalarLimit, Scalar;
    ScalarInverts(k);
    ScalarInverts(d);
    ScalarInverts(cp);
  }

  lemma UnblindedIs(n: nat, sp: nat, alpha: nat, beta: nat)
    requires 0 < n < ScalarLimit() && sp < n && alpha < n && beta < n
    ensures Unblinded(n, Scalar(sp), Scalar(alpha) + Scalar(beta)) == Scalar((sp + alpha) % n)
  {
    hide ScalarLimit, Scalar;
    ScalarInverts(sp);
    ScalarInverts(alpha);
    assert (Scalar(alpha) + Scalar(beta))[..32] == Scalar(alpha);
  }

  lemma FinishIs(n: nat, k: nat, d: nat, c: nat, alpha: nat, beta: nat, rPrime: Bytes)
    requires 0 < n < ScalarLimit() && InRange(k, n) && InRange(d, n) && alpha < n && beta < n
    ensures Finish(n, k, d, Blinding(Scalar(Shifted(c, beta, n)), Scalar(alpha) + Scalar(beta), rPrime)) ==
            Some(Scalar(Answer(n, Exponent(k, alpha, beta, d), c, d)))
  {
    hide ScalarLimit, Scalar, BlindSign, Unblinded, Respond, Answer, Exponent, Shifted;
    var cp := Shifted(c, beta, n);
    var sp := Respond(n, k, cp, d);
    BlindSignIs(n, k, d, cp);
    UnblindedIs(n, sp, alpha, beta);
    SignedSum(n, k, c, d, alpha, beta);
  }

  /** Commit, blind, sign, unblind: for every key, every k and all blinding scalars in range, blinding
      succeeds unless R' is zero, and both verifiers accept the result exactly when s is not zero. */
  lemma Completeness<P(!new)>(cv: Curve<P>, hash: Digest, message: Bytes, d: nat, k: nat, alpha: nat, beta: nat)
    requires cv.Lawful() && InRange(d, cv.n) && InRange(k, cv.n) && InRange(alpha, cv.n) && InRange(beta, cv.n)
    ensures
      var pub := cv.encode(Commitment(cv, d));
      var b := BlindResult(cv, hash, pub, cv.encode(Commitment(cv, k)), message, Scalar(alpha), Scalar(beta));
      && (b.Some? <==> Exponent(k, alpha, beta, d) % cv.n != 0)
      && (b.Some? ==>
           |b.value.state| == 64 && |b.value.rPrime| == 65 &&
           var s := Finish(cv.n, k, d, b.value);
           && s.Some? && (FullVerify(cv, hash, b.value.rPrime, message, s.value, pub) <==> FromBigEndian(s.value) != 0)
           && Credential(b.value.rPrime, s.value).Some?
           && (XVerify(cv, hash, Credential(b.value.rPrime, s.value).value, message, pub) <==>
               FromBigEndian(s.value) != 0))
  {
    hide Curve.GroupLaws, Curve.EncodingLaws, ScalarLimit, Answer, Answers, Exponent, Respond;
    hide BlindResult, Finish, FullVerify, XVerify, Scalar, Challenge, Commitment, Credential;
    var n, r := cv.n, Exponent(k, alpha, beta, d);
    CommitmentLog(cv, d);
    CommitmentLog(cv, k);
    NonzeroPoint(cv, d);
    NonzeroPoint(cv, k);
    BlindResultIs(cv, hash, message, d, k, alpha, beta);
    if r % n != 0 {
      var c := Challenge(hash, cv.x(cv.point(r)), message, n);
      FinishIs(n, k, d, c, alpha, beta, cv.encode(cv.point(r)));
      SignatureAccepted(cv, hash, message, d, r, c);
    }
  }

  lemma CredentialIs<P(!new)>(cv: Curve<P>, q: P, s: Bytes)
    requires cv.EncodingLaws() && q != cv.Zero() && |s| == 32
    ensures |cv.encode(q)| == 65 && |cv.x(q)| == 32
    ensures Credential(cv.encode(q), s) == Some(cv.x(q) + s)
    ensures (cv.x(q) + s)[..32] == cv.x(q) && (cv.x(q) + s)[32..] == s
  {
    cv.RoundTrip(q);
  }

  /** The signature r + cd is accepted by both verifiers exactly when it is not zero. */
  lemma SignatureAccepted<P(!new)>(cv: Curve<P>, hash: Digest, message: Bytes, d: nat, r: int, c: nat)
    requires cv.Lawful() && InRange(d, cv.n) && r % cv.n != 0
    requires c == Challenge(hash, cv.x(cv.point(r)), message, cv.n)
    ensures
      var q, pub, s := cv.point(r), cv.encode(cv.point(d)), Scalar(Answer(cv.n, r, c, d));
      && |cv.encode(q)| == 65
      && (FullVerify(cv, hash, cv.encode(q), message, s, pub) <==> FromBigEndian(s) != 0)
      && Credential(cv.encode(q), s).Some?
      && (XVerify(cv, hash, Credential(cv.encode(q), s).value, message, pub) <==> FromBigEndian(s) != 0)
  {
    hide Curve.GroupLaws, Curve.EncodingLaws, ScalarLimit, Answer, Answers, Exponent, Respond;
    hide FullVerify, XVerify, Scalar, Challenge, Recovered, Credential;
    var v := Answer(cv.n, r, c, d);
    NonzeroPoint(cv, r);
    NonzeroPoint(cv, d);
    ScalarInverts(v);
    AnswersIff(cv.n, v, r, c, d);
    AcceptedIff(cv, hash, message, d, r, c, v);
  }

  lemma AcceptedIff<P(!new)>(cv: Curve<P>, hash: Digest, message: Bytes, d: nat, r: int, c: nat, v: nat)
    requires cv.Lawful() && cv.point(r) != cv.Zero() && cv.point(d) != cv.Zero() && v < cv.n
    requires c == Challenge(hash, cv.x(cv.point(r)), message, cv.n) && Answers(cv.n, v, r, c, d)
    ensures
      var q, pub, s := cv.point(r), cv.encode(cv.point(d)), Scalar(v);
      && |cv.encode(q)| == 65
      && (FullVerify(cv, hash, cv.encode(q), message, s, pub) <==> v != 0)
      && Credential(cv.encode(q), s).Some?
      && (XVerify(cv, hash, Credential(cv.encode(q), s).value, message, pub) <==> v != 0)
  {
    hide Curve.GroupLaws, Curve.EncodingLaws, ScalarLimit, Answer, Answers, Exponent, Respond;
    hide FullVerify, XVerify, Scalar, Challenge, Recovered, Credential;
    var q, s := cv.point(r), Scalar(v);
    ScalarInverts(v);
    FullVerifyIff(cv, hash, r, d, message, s);
    CredentialIs(cv, q, s);
    XVerifyIff(cv, hash, cv.x(q) + s, message, cv.point(d));
  }

  /** x-only verification accepts (x, s) exactly when full verification accepts (R', s) for some point R'
      with that x; and then R' is the recovered point, so there is only one. */
  lemma XVerifyIff<P(!new)>(cv: Curve<P>, hash: Digest, credential: Bytes, message: Bytes, p: P)
    requires cv.Lawful() && p != cv.Zero() && |credential| == 64
    ensures var pub, x, s := cv.encode(p), credential[..32], credential[32..];
            var q := Recovered(cv, FromBigEndian(s), Challenge(hash, x, message, cv.n), p);
      && (XVerify(cv, hash, credential, message, pub) <==>
           q != cv.Zero() && cv.x(q) == x && FullVerify(cv, hash, cv.encode(q), message, s, pub))
      && (forall r :: r != cv.Zero() && cv.x(r) == x && FullVerify(cv, hash, cv.encode(r), message, s, pub) ==> r == q)
      && (XVerify(cv, hash, credential, message, pub) ==> InRange(FromBigEndian(s), cv.n))
  {
    hide Curve.GroupLaws, Curve.EncodingLaws, ScalarLimit, Answer, Answers, Exponent, Respond, Recovered, Challenge;
    var pub, x, s := cv.encode(p), credential[..32], credential[32..];
    var q := Recovered(cv, FromBigEndian(s), Challenge(hash, x, message, cv.n), p);
    cv.RoundTrip(p);
    if q != cv.Zero() { cv.RoundTrip(q); }
    forall r | r != cv.Zero() && cv.x(r) == x && FullVerify(cv, hash, cv.encode(r), message, s, pub) ensures r == q {
      cv.RoundTrip(r);
    }
  }

  // What is signed

  /** The digest the protocol reduces: of the x coordinate of R' followed by the message. */
  lemma ChallengeCongruent(n: nat, hash: Digest, x: Bytes, message: Bytes, s: int, d: int)
    requires n > 0
    ensures (s - Challenge(hash, x, message, n) * d) % n == (s - FromBigEndian(hash(x + message)) * d) % n
  {
    var h := FromBigEndian(hash(x + message));
    ModMod(h, n);
    CongLinear(Challenge(hash, x, message, n), h, -d, s, n);
    NegatedProduct(Challenge(hash, x, message, n), d);
    NegatedProduct(h, d);
  }

  lemma NegatedProduct(a: int, d: int)
    ensures a * (-d) == -(a * d)
  {
  }

  /** Full verification binds the message: it accepts exactly when s is in range and s minus the digest of
      x and the message, times d, is the log of R' modulo n. */
  lemma FullVerifyEquation<P(!new)>(cv: Curve<P>, hash: Digest, r: int, d: int, message: Bytes, s: Bytes)
    requires cv.Lawful() && cv.point(r) != cv.Zero() && cv.point(d) != cv.Zero()
    ensures FullVerify(cv, hash, cv.encode(cv.point(r)), message, s, cv.encode(cv.point(d))) <==>
            && 1 <= FromBigEndian(s) < cv.n
            && (FromBigEndian(s) - FromBigEndian(hash(cv.x(cv.point(r)) + message)) * d) % cv.n == r % cv.n
  {
    FullVerifyIff(cv, hash, r, d, message, s);
    hide Curve.GroupLaws, Curve.EncodingLaws, ScalarLimit, FullVerify, Challenge, FromBigEndian;
    ChallengeCongruent(cv.n, hash, cv.x(cv.point(r)), message, FromBigEndian(s), d);
  }

  lemma XVerifyParts<P(!new)>(cv: Curve<P>, hash: Digest, credential: Bytes, p: P, message: Bytes)
    requires cv.Lawful() && p != cv.Zero() && |credential| == 64
    ensures var x, s := credential[..32], FromBigEndian(credential[32..]);
            var q := Recovered(cv, s, Challenge(hash, x, message, cv.n), p);
            XVerify(cv, hash, credential, message, cv.encode(p)) <==> 1 <= s < cv.n && q != cv.Zero() && cv.x(q) == x
  {
    cv.RoundTrip(p);
    hide Curve.GroupLaws, Curve.EncodingLaws, ScalarLimit, Recovered, Challenge, FromBigEndian;
  }

  lemma RecoveredFrom<P(!new)>(cv: Curve<P>, s: int, c: int, h: int, d: int)
    requires cv.Lawful() && (s - c * d) % cv.n == (s - h * d) % cv.n
    ensures Recovered(cv, s, c, cv.point(d)) == cv.point(s - h * d)
    ensures Recovered(cv, s, c, cv.point(d)) != cv.Zero() <==> (s - h * d) % cv.n != 0
  {
    hide Curve.GroupLaws, Curve.EncodingLaws, ScalarLimit, Recovered;
    RecoveredLog(cv, s, c, d);
    cv.PointsEqual(s - c * d, s - h * d);
    NonzeroPoint(cv, s - h * d);
  }

  /** And so does x-only verification: the point with that log is not zero and has that x. */
  lemma XVerifyEquation<P(!new)>(cv: Curve<P>, hash: Digest, credential: Bytes, d: int, message: Bytes)
    requires cv.Lawful() && cv.point(d) != cv.Zero() && |credential| == 64
    ensures var x, s := credential[..32], FromBigEndian(credential[32..]);
            var r := s - FromBigEndian(hash(x + message)) * d;
            XVerify(cv, hash, credential, message, cv.encode(cv.point(d))) <==>
              1 <= s < cv.n && r % cv.n != 0 && cv.x(cv.point(r)) == x
  {
    XVerifyParts(cv, hash, credential, cv.point(d), message);
    hide Curve.GroupLaws, Curve.EncodingLaws, ScalarLimit, Recovered, Challenge, FromBigEndian, XVerify;
    var x, s := credential[..32], FromBigEndian(credential[32..]);
    var c, h := Challenge(hash, x, message, cv.n), FromBigEndian(hash(x + message));
    ChallengeCongruent(cv.n, hash, x, message, s, d);
    RecoveredFrom(cv, s, c, h, d);
  }

  /** The signer answers exactly for a scalar and a key in range, and its answer less c' times the key is its
      scalar, modulo n. */
  lemma BlindSignAnswers(n: nat, k: Bytes, cPrime: Bytes, key: Bytes)
    requires 0 < n < ScalarLimit()
    ensures var s := BlindSign(n, k, cPrime, key);
      && (s.Some? <==> 1 <= FromBigEndian(k) < n && 1 <= FromBigEndian(key) < n)
      && (s.Some? ==>
            && FromBigEndian(s.value) < n
            && (FromBigEndian(s.value) - FromBigEndian(cPrime) * FromBigEndian(key)) % n == FromBigEndian(k) % n)
  {
    hide ScalarLimit, Scalar, FromBigEndian;
    var kb, c, d := FromBigEndian(k), FromBigEndian(cPrime), FromBigEndian(key);
    AddMod(c * d, kb, n);
    ScalarInverts(Respond(n, kb, c, d));
    AnswersIff(n, Respond(n, kb, c, d), kb, c, d);
  }

  lemma BlindingParts<P(!new)>(cv: Curve<P>, hash: Digest, pub: Bytes, commitment: Bytes, message: Bytes,
                               alpha: Bytes, beta: Bytes) returns (rPrime: P)
    requires cv.Lawful() && BlindResult(cv, hash, pub, commitment, message, alpha, beta).Some?
    ensures var b := BlindResult(cv, hash, pub, commitment, message, alpha, beta).value;
      && rPrime != cv.Zero() && b.rPrime == cv.encode(rPrime)
      && 1 <= FromBigEndian(alpha) < cv.n && 1 <= FromBigEndian(beta) < cv.n
      && b.cPrime == Scalar(Shifted(Challenge(hash, cv.x(rPrime), message, cv.n), FromBigEndian(beta), cv.n))
  {
    hide Curve.GroupLaws, Curve.EncodingLaws, ScalarLimit, BlindedPoint, Scalar, FromBigEndian, Challenge, Shifted;
    var r, p := cv.decode(commitment).value, cv.decode(pub).value;
    rPrime := BlindedPoint(cv, r, p, FromBigEndian(alpha), FromBigEndian(beta));
  }

  lemma ShiftedDigest(h: nat, b: nat, n: nat)
    requires 0 < n < ScalarLimit()
    ensures FromBigEndian(Scalar(Shifted(h % n, b, n))) == (h + b) % n
  {
    hide ScalarLimit, Scalar, FromBigEndian;
    ScalarInverts(Shifted(h % n, b, n));
    AddMod(h, b, n);
  }

  /** The challenge that blinding hands to the signer is the digest of the x coordinate of R' and the message,
      plus beta, modulo n. */
  lemma BlindedChallenge<P(!new)>(cv: Curve<P>, hash: Digest, pub: Bytes, commitment: Bytes, message: Bytes,
                                  alpha: Bytes, beta: Bytes)
    requires cv.Lawful() && BlindResult(cv, hash, pub, commitment, message, alpha, beta).Some?
    ensures var b := BlindResult(cv, hash, pub, commitment, message, alpha, beta).value;
      && 1 <= FromBigEndian(alpha) < cv.n && 1 <= FromBigEndian(beta) < cv.n && cv.decode(b.rPrime).Some?
      && FromBigEndian(b.cPrime) ==
           (FromBigEndian(hash(cv.x(cv.decode(b.rPrime).value) + message)) + FromBigEndian(beta)) % cv.n
  {
    var rPrime := BlindingParts(cv, hash, pub, commitment, message, alpha, beta);
    hide Curve.GroupLaws, Curve.EncodingLaws, ScalarLimit, BlindResult, Scalar, FromBigEndian;
    cv.RoundTrip(rPrime);
    ShiftedDigest(FromBigEndian(hash(cv.x(rPrime) + message)), FromBigEndian(beta), cv.n);
  }

  predicate Prime(n: nat) {
    n > 1 && forall k :: 1 < k < n ==> n % k != 0
  }

  /** A prime that divides a product divides the first factor if the second is smaller. */
  lemma {:induction false} PrimeDivides(n: nat, a: int, d: nat)
    requires Prime(n) && 0 < d < n && (a * d) % n == 0
    ensures a % n == 0
    decreases d
  {
    if d > 1 {
      var q, r := n / d, n % d;
      assert n == q * d + r && 0 < r < d;
      RemainderOfProduct(n, a, d, q, r);
      PrimeDivides(n, a, r);
    }
  }

  lemma RemainderOfProduct(n: nat, a: int, d: nat, q: nat, r: nat)
    requires n > 0 && n == q * d + r && (a * d) % n == 0
    ensures (a * r) % n == 0
  {
    var m := a * d / n;
    assert a * d == m * n;
    assert a * n == a * (q * d) + a * r by { assert a * (q * d + r) == a * (q * d) + a * r; }
    assert a * (q * d) == q * (m * n) == (q * m) * n;
    assert a * r == (a - q * m) * n + 0 by { assert (a - q * m) * n == a * n - (q * m) * n; }
    RemainderUnique(a * r, a - q * m, 0, n);
  }

  /** One signature for two messages, under either verifier, makes their digests agree modulo the order. */
  lemma OneMessagePerSignature<P(!new)>(cv: Curve<P>, hash: Digest, r: int, d: nat, m: Bytes, m': Bytes, s: Bytes)
    requires cv.Lawful() && Prime(cv.n) && InRange(d, cv.n) && cv.point(r) != cv.Zero()
    requires FullVerify(cv, hash, cv.encode(cv.point(r)), m, s, cv.encode(cv.point(d)))
    requires FullVerify(cv, hash, cv.encode(cv.point(r)), m', s, cv.encode(cv.point(d)))
    ensures var x := cv.x(cv.point(r));
      FromBigEndian(hash(x + m)) % cv.n == FromBigEndian(hash(x + m')) % cv.n
  {
    assert 0 < d < cv.n && cv.point(d) != cv.Zero() by {
      hide Curve.GroupLaws;
      NonzeroPoint(cv, d);
    }
    hide *;
    FullVerifyEquation(cv, hash, r, d, m, s);
    FullVerifyEquation(cv, hash, r, d, m', s);
    var x := cv.x(cv.point(r));
    SameAnswer(cv.n, FromBigEndian(s), FromBigEndian(hash(x + m)), FromBigEndian(hash(x + m')), d);
  }

  lemma SameAnswer(n: nat, s: int, g: int, h: int, d: nat)
    requires Prime(n) && 0 < d < n && (s - g * d) % n == (s - h * d) % n
    ensures g % n == h % n
  {
    var u, v := s - g * d, s - h * d;
    DifferenceDivides(n, v, u);
    assert v - u == (g - h) * d;
    PrimeDivides(n, g - h, d);
    assert g == (g - h) / n * n + h;
    ModShift(h, (g - h) / n, n);
  }

  lemma DifferenceDivides(n: nat, u: int, v: int)
    requires n > 0 && u % n == v % n
    ensures (u - v) % n == 0
  {
    assert u == u / n * n + u % n && v == v / n * n + v % n;
    assert u - v == (u / n - v / n) * n + 0;
    RemainderUnique(u - v, u / n - v / n, 0, n);
  }

  // Blindness

  function Minus(a: nat, b: nat, n: nat): (r: nat)
    requires n > 0
    ensures r < n
  {
    var x: int := a;
    (x - b) % n
  }

  /** The blinding scalars that turn a signer's view (R, c', s') into a signature (R', s) with challenge c. */
  predicate Links<P(!new, ==)>(cv: Curve<P>, pub: P, r: P, cPrime: nat, sPrime: nat, rPrime: P, c: nat, s: nat,
                               alpha: nat, beta: nat)
    requires cv.n > 0
  {
    && alpha < cv.n && beta < cv.n
    && rPrime == BlindedPoint(cv, r, pub, alpha, beta)
    && cPrime == Shifted(c, beta, cv.n)
    && s == (sPrime + alpha) % cv.n
  }

  /** The recovered exponent and the blinded one agree. */
  lemma LinkedExponent(n: nat, k: nat, d: nat, cPrime: nat, c: nat, s: nat, r: int)
    requires n > 0 && Answers(n, s, r, c, d)
    ensures var sPrime := Respond(n, k, cPrime, d);
            Exponent(k, Minus(s, sPrime, n), Minus(cPrime, c, n), d) % n == r % n
  {
    var m, bd, cd := cPrime * d, Minus(cPrime, c, n) * d, c * d;
    ModMod(cPrime - c, n);
    CongLinear(Minus(cPrime, c, n), cPrime - c, d, 0, n);
    assert (cPrime - c) * d == m - cd;
    NestedAdd(k, m, 0, n);
    ModMod(s - Respond(n, k, cPrime, d), n);
    SumOfParts(n, Minus(s, Respond(n, k, cPrime, d), n), s, Respond(n, k, cPrime, d), k, m, bd, cd);
  }

  lemma SumOfParts(n: nat, alpha: int, s: int, sPrime: int, k: int, m: int, bd: int, cd: int)
    requires n > 0
    requires alpha % n == (s - sPrime) % n && sPrime % n == (k + m) % n && bd % n == (m - cd) % n
    ensures (k + alpha + bd) % n == (s - cd) % n
  {
    AddMod(bd, k + alpha, n);
    AddMod(m - cd, k + alpha, n);
    AddMod(alpha, k + m - cd, n);
    AddMod(s - sPrime, k + m - cd, n);
    CongLinear(sPrime, k + m, -1, s + k + m - cd, n);
  }

  /** Perfect blindness: every view of the signer and every signature the full verifier accepts under the same
      key are linked by exactly one pair of scalars, alpha = s - s' and beta = c' - c; and the client admits
      that pair, giving exactly this c' and this R', whenever both are nonzero. */
  lemma PerfectBlindness<P(!new)>(cv: Curve<P>, hash: Digest, message: Bytes, d: nat, k: nat, cPrime: nat,
                                  rPrime: P, s: Bytes)
    requires cv.Lawful() && InRange(d, cv.n) && InRange(k, cv.n) && cPrime < cv.n
    requires rPrime != cv.Zero() && FullVerify(cv, hash, cv.encode(rPrime), message, s, cv.encode(cv.point(d)))
    ensures
      var n, sv := cv.n, FromBigEndian(s);
      var sPrime := Respond(n, k, cPrime, d);
      var c := Challenge(hash, cv.x(rPrime), message, n);
      var a, b := Minus(sv, sPrime, n), Minus(cPrime, c, n);
      && (forall alpha, beta ::
           Links(cv, cv.point(d), cv.point(k), cPrime, sPrime, rPrime, c, sv, alpha, beta) <==> alpha == a && beta == b)
      && var r := BlindResult(cv, hash, cv.encode(cv.point(d)), cv.encode(cv.point(k)), message, Scalar(a), Scalar(b));
      && (r.Some? <==> a != 0 && b != 0)
      && (r.Some? ==> r.value.cPrime == Scalar(cPrime) && r.value.rPrime == cv.encode(rPrime))
  {
    hide Curve.GroupLaws, Curve.EncodingLaws, ScalarLimit, Answer, Answers, Exponent, Respond, FullVerify, Challenge;
    hide BlindResult;
    var n, sv := cv.n, FromBigEndian(s);
    var sPrime := Respond(n, k, cPrime, d);
    var c := Challenge(hash, cv.x(rPrime), message, n);
    var a, b := Minus(sv, sPrime, n), Minus(cPrime, c, n);
    var r := cv.log(rPrime);
    cv.Log(rPrime);
    NonzeroPoint(cv, d);
    NonzeroPoint(cv, k);
    FullVerifyIff(cv, hash, r, d, message, s);
    LinkedExponent(n, k, d, cPrime, c, sv, r);
    BlindedLog(cv, k, d, a, b);
    cv.PointsEqual(Exponent(k, a, b, d), r);
    assert BlindedPoint(cv, cv.point(k), cv.point(d), a, b) == rPrime;
    forall alpha: nat, beta: nat
      ensures Links(cv, cv.point(d), cv.point(k), cPrime, sPrime, rPrime, c, sv, alpha, beta) <==>
        alpha == a && beta == b
    {
      if alpha < n && beta < n {
        SubInverts(sv, sPrime, alpha, n);
        SubInverts(cPrime, c, beta, n);
      }
    }
    Admitted(cv, hash, message, d, k, a, b, rPrime, c, cPrime);
  }

  /** The client's answer for a linking pair. */
  lemma Admitted<P(!new)>(cv: Curve<P>, hash: Digest, message: Bytes, d: nat, k: nat, a: nat, b: nat,
                          rPrime: P, c: nat, cPrime: nat)
    requires cv.Lawful() && InRange(d, cv.n) && InRange(k, cv.n) && a < cv.n && b < cv.n && cPrime < cv.n
    requires rPrime != cv.Zero() && rPrime == BlindedPoint(cv, cv.point(k), cv.point(d), a, b)
    requires c == Challenge(hash, cv.x(rPrime), message, cv.n) && b == Minus(cPrime, c, cv.n)
    ensures
      var r := BlindResult(cv, hash, cv.encode(cv.point(d)), cv.encode(cv.point(k)), message, Scalar(a), Scalar(b));
      && (r.Some? <==> a != 0 && b != 0)
      && (r.Some? ==> r.value.cPrime == Scalar(cPrime) && r.value.rPrime == cv.encode(rPrime))
  {
    hide Curve.GroupLaws, Curve.EncodingLaws, ScalarLimit, BlindedPoint, Challenge, Scalar, BlindResult;
    NonzeroPoint(cv, d);
    NonzeroPoint(cv, k);
    SubInverts(cPrime, c, b, cv.n);
    assert cPrime == Shifted(c, b, cv.n);
    hide Shifted, Minus;
    BlindResultOf(cv, hash, message, cv.point(d), cv.point(k), a, b);
  }
}
