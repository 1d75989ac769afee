/** The C entry points of the blind-signature protocol: scalars drawn by rejection, caller-owned output
    buffers that are cleared on failure, and the credential message. */
module BlindClient {
  import opened Bytes
  import opened BlindSignature

  const OK := 0
  const INVALID_ARGUMENT := -1001
  const BUFFER_TOO_SMALL := -1002
  const INTERNAL_ERROR := -1099

  // Random scalars

  /** The first draw in range, unless the generator fails first. */
  function FirstScalar(draws: seq<Option<Bytes>>, n: nat): (v: Option<nat>)
    ensures v.Some? ==> InRange(v.value, n)
  {
    if draws == [] || draws[0].None? then None
    else if InRange(FromBigEndian(draws[0].value), n) then Some(FromBigEndian(draws[0].value))
    else FirstScalar(draws[1..], n)
  }

  predicate Skipped(draw: Option<Bytes>, n: nat) {
    draw.Some? && !InRange(FromBigEndian(draw.value), n)
  }

  /** Draw i is in range with value v, and every earlier one was read and out of range. */
  predicate TakenAt(draws: seq<Option<Bytes>>, n: nat, v: nat, i: nat) {
    && i < |draws| && draws[i] != None && FromBigEndian(draws[i].value) == v && InRange(v, n)
    && forall j :: 0 <= j < i ==> Skipped(draws[j], n)
  }

  lemma TakenLater(draws: seq<Option<Bytes>>, n: nat, v: nat, i: nat)
    requires draws != [] && Skipped(draws[0], n)
    ensures TakenAt(draws[1..], n, v, i) <==> TakenAt(draws, n, v, i + 1)
  {
    var rest := draws[1..];
    assert forall j :: 0 <= j < |rest| ==> rest[j] == draws[j + 1];
    if TakenAt(rest, n, v, i) {
      forall j | 0 <= j < i + 1 ensures Skipped(draws[j], n) {
        assert j == 0 || draws[j] == rest[j - 1];
      }
    }
  }

  /** Rejection sampling returns the first draw in range. */
  lemma {:induction false} FirstScalarIff(draws: seq<Option<Bytes>>, n: nat, v: nat)
    ensures FirstScalar(draws, n) == Some(v) <==> exists i: nat :: TakenAt(draws, n, v, i)
  {
    if draws != [] {
      if Skipped(draws[0], n) {
        FirstScalarIff(draws[1..], n, v);
        forall i: nat ensures TakenAt(draws[1..], n, v, i) <==> TakenAt(draws, n, v, i + 1) {
          TakenLater(draws, n, v, i);
        }
        hide TakenAt;
        NotFirst(draws, n, v);
        if i: nat :| TakenAt(draws, n, v, i) { assert TakenAt(draws[1..], n, v, i - 1); }
      } else {
        OnlyFirst(draws, n, v);
      }
    }
  }

  lemma NotFirst(draws: seq<Option<Bytes>>, n: nat, v: nat)
    requires draws != [] && Skipped(draws[0], n)
    ensures !TakenAt(draws, n, v, 0)
  {
  }

  lemma OnlyFirst(draws: seq<Option<Bytes>>, n: nat, v: nat)
    requires draws != [] && !Skipped(draws[0], n)
    ensures (exists i: nat :: TakenAt(draws, n, v, i)) <==> TakenAt(draws, n, v, 0)
  {
  }

  /** `cc_blind_rand_scalar`: at most sixteen draws. */
  method RandScalar(draws: seq<Option<Bytes>>, n: nat) returns (v: Option<nat>)
    requires |draws| == 16
    ensures v == FirstScalar(draws, n)
  {
    var i := 0;
    while i < 16
      invariant 0 <= i <= 16 && FirstScalar(draws, n) == FirstScalar(draws[i..], n)
    {
      if draws[i].None? { return None; }
      var x := FromBigEndian(draws[i].value);
      if x != 0 && x < n { return Some(x); }
      i := i + 1;
    }
    return None;
  }

  // Buffers

  method Put(out: array<Byte>, at: nat, value: Bytes)
    requires at + |value| <= out.Length
    modifies out
    ensures out[at..at + |value|] == value
    ensures forall k :: 0 <= k < out.Length && !(at <= k < at + |value|) ==> out[k] == old(out[k])
  {
    forall k | 0 <= k < |value| {
      out[at + k] := value[k];
    }
  }

  method Fill(out: array<Byte>, value: Bytes)
    requires |value| == out.Length
    modifies out
    ensures out[..] == value
  {
    Put(out, 0, value);
    assert out[..] == out[0..|value|];
  }

  method FillHalves(out: array<Byte>, a: Bytes, b: Bytes)
    requires |a| + |b| == out.Length
    modifies out
    ensures out[..] == a + b
  {
    Put(out, 0, a);
    Put(out, |a|, b);
    assert out[0..|a|] == a;
    assert out[..] == out[0..|a|] + out[|a|..|a| + |b|];
  }

  function Zeros(n: nat): (z: Bytes)
    ensures |z| == n && forall i :: 0 <= i < n ==> z[i] == 0
  {
    seq(n, _ => 0)
  }

  /** `cc_bridge_sm2_blind_commit`, past its argument checks. */
  method BlindCommit<P(!new, ==)>(cv: Curve<P>, draws: seq<Option<Bytes>>, kOut: array<Byte>, rOut: array<Byte>)
    returns (ok: bool)
    requires cv.Lawful() && |draws| == 16 && kOut.Length == 32 && rOut.Length == 65 && kOut != rOut
    modifies kOut, rOut
    ensures ok <==> FirstScalar(draws, cv.n).Some?
    ensures ok ==> var k := FirstScalar(draws, cv.n).value;
      k < ScalarLimit() && kOut[..] == Scalar(k) && cv.decode(rOut[..]) == Some(Commitment(cv, k))
  {
    var k := RandScalar(draws, cv.n);
    if k.None? { return false; }
    CommitmentLog(cv, k.value);
    NonzeroPoint(cv, k.value);
    cv.RoundTrip(Commitment(cv, k.value));
    hide Curve.GroupLaws, Curve.EncodingLaws, ScalarLimit, Scalar, Commitment;
    Fill(rOut, cv.encode(Commitment(cv, k.value)));
    Fill(kOut, Scalar(k.value));
    return true;
  }

  /** `cc_client_blind`: every output is cleared when it fails. */
  method Blind<P(!new, ==)>(cv: Curve<P>, hash: Digest, pub: Bytes, commitment: Bytes, message: Bytes, alpha: Bytes,
                            beta: Bytes, cPrimeOut: array<Byte>, stateOut: array<Byte>, rPrimeOut: array<Byte>)
    returns (rc: int)
    requires cv.Lawful() && |alpha| == 32 && |beta| == 32
    requires cPrimeOut.Length == 32 && stateOut.Length == 64 && rPrimeOut.Length == 65
    requires cPrimeOut != stateOut && cPrimeOut != rPrimeOut && stateOut != rPrimeOut
    modifies cPrimeOut, stateOut, rPrimeOut
    ensures var r := BlindResult(cv, hash, pub, commitment, message, alpha, beta);
      && (rc == OK <==> r.Some?)
      && (rc == OK ==> Blinding(cPrimeOut[..], stateOut[..], rPrimeOut[..]) == r.value)
      && (rc != OK ==> cPrimeOut[..] == Zeros(32) && stateOut[..] == Zeros(64) && rPrimeOut[..] == Zeros(65))
  {
    rc := INTERNAL_ERROR;
    var a, b := FromBigEndian(alpha), FromBigEndian(beta);
    var r, p := cv.decode(commitment), cv.decode(pub);
    if a == 0 || a >= cv.n || b == 0 || b >= cv.n {
      rc := INVALID_ARGUMENT;
    } else if r.None? || p.None? {
      rc := INVALID_ARGUMENT;
    } else {
      var rPrime := BlindedPoint(cv, r.value, p.value, a, b);
      if rPrime != cv.Zero() {
        cv.RoundTrip(rPrime);
        hide Curve.GroupLaws, Curve.EncodingLaws, ScalarLimit, Scalar, BlindedPoint, Challenge, Shifted;
        var c := Challenge(hash, cv.x(rPrime), message, cv.n);
        Fill(cPrimeOut, Scalar(Shifted(c, b, cv.n)));
        FillHalves(stateOut, Scalar(a), Scalar(b));
        Fill(rPrimeOut, cv.encode(rPrime));
        rc := OK;
      }
    }
    if rc != OK {
      Fill(cPrimeOut, Zeros(32));
      Fill(stateOut, Zeros(64));
      Fill(rPrimeOut, Zeros(65));
    }
  }

  // The credential message

  /** M = SN || service || period. */
  function Message(sn: Bytes, service: Bytes, period: Bytes): Bytes {
    sn + service + period
  }

  /** `cc_client_encode_message`: lengths are added in 32 bits, and a wrapped sum is rejected. */
  method EncodeMessage(sn: Bytes, service: Bytes, period: Bytes, out: array<Byte>) returns (rc: int, outLen: int)
    requires |sn| < 0x1_0000_0000 && |service| < 0x1_0000_0000 && |period| < 0x1_0000_0000
    modifies out
    ensures var m := Message(sn, service, period);
      && (rc == INVALID_ARGUMENT <==> |m| >= 0x1_0000_0000)
      && (rc == BUFFER_TOO_SMALL <==> out.Length < |m| < 0x1_0000_0000)
      && (rc == OK || rc == INVALID_ARGUMENT || rc == BUFFER_TOO_SMALL)
      && (rc == OK ==> outLen == |m| <= out.Length && out[..|m|] == m && out[|m|..] == old(out[|m|..]))
      && (rc != OK ==> out[..] == old(out[..]))
  {
    var total := (|sn| + |service|) % 0x1_0000_0000;
    if total < |sn| { return INVALID_ARGUMENT, -1; }
    total := (total + |period|) % 0x1_0000_0000;
    if total < |period| { return INVALID_ARGUMENT, -1; }
    if out.Length < total { return BUFFER_TOO_SMALL, -1; }
    ghost var before := out[..];
    Put(out, 0, sn);
    Put(out, |sn|, service);
    assert out[0..|sn|] == sn;
    Put(out, |sn| + |service|, period);
    assert out[0..|sn|] == sn && out[|sn|..|sn| + |service|] == service;
    assert out[..total] == out[0..|sn|] + out[|sn|..|sn| + |service|] + out[|sn| + |service|..total];
    assert out[total..] == before[total..];
    return OK, total;
  }

  /** The services a credential can be for: hole_post, hole_comment, hole_like and vote_ballot. */
  const SERVICES: set<Bytes> :=
    {[104, 111, 108, 101, 95, 112, 111, 115, 116], [104, 111, 108, 101, 95, 99, 111, 109, 109, 101, 110, 116],
     [104, 111, 108, 101, 95, 108, 105, 107, 101], [118, 111, 116, 101, 95, 98, 97, 108, 108, 111, 116]}

  /** No service name ends like another. */
  lemma ServiceEndings(s: Bytes, t: Bytes)
    requires s in SERVICES && t in SERVICES
    requires s[|s| - 4..] == t[|t| - 4..]
    ensures s == t
  {
    assert s[|s| - 4..][0] == s[|s| - 4] && t[|t| - 4..][0] == t[|t| - 4];
  }

  /** The concatenation has no separators, yet for the service names in use and a period of fixed width
      (a date, ten characters) it determines its three parts, whatever the length of the serial number. */
  lemma MessageInjective(sn: Bytes, service: Bytes, period: Bytes, sn': Bytes, service': Bytes, period': Bytes)
    requires service in SERVICES && service' in SERVICES && |period| == |period'|
    requires Message(sn, service, period) == Message(sn', service', period')
    ensures sn == sn' && service == service' && period == period'
  {
    ConcatSplit(sn + service, period, sn' + service', period');
    var m := sn + service;
    assert m[|m| - 4..] == service[|service| - 4..] && m[|m| - 4..] == service'[|service'| - 4..];
    ServiceEndings(service, service');
    ConcatSplit(sn, service, sn', service');
  }
}
