/** The life of one encrypted drop: extraction with failure counting and cooldown, expiry, burn after
    reading, and the administrator's wipe. Requests on a drop are atomic unless said otherwise; time is
    in microseconds. */
module DropLifecycle {
  import opened Bytes

  datatype Status = Available | CoolingDown | Consumed | Expired | Destroyed

  /** The eight columns that are emptied when a drop ends. */
  datatype Envelope = Envelope(ciphertext: Option<Bytes>, nonce: Option<Bytes>, tag: Option<Bytes>,
                               encKeySm2: Option<Bytes>, encKeyMlkem: Option<Bytes>,
                               senderSignature: Option<Bytes>, senderCertificate: Option<Bytes>,
                               accessFactorSalt: Option<Bytes>)

  const WIPED := Envelope(None, None, None, None, None, None, None, None)

  /** What the administrator's wipe writes over the access-code hash. */
  const NO_CODE: Bytes :=
    [0, 0, 0, 0, 0, 0, 0, 0, 0, 0, 0, 0, 0, 0, 0, 0, 0, 0, 0, 0, 0, 0, 0, 0, 0, 0, 0, 0, 0, 0, 0, 0]

  /** A drop with its extraction idempotency rows: the key of each answered request and its request hash. */
  datatype DropRow = DropRow(status: Status, failedAttempts: int, cooldownUntil: Option<int>,
                             envelope: Envelope, accessCodeHash: Bytes, answered: map<nat, nat>,
                             burnAfterRead: bool, expiresAt: Option<int>)

  const THRESHOLD := 5

  /** Ten minutes. */
  const COOLDOWN := 600_000_000

  datatype Answer =
    | NotFound
    | CoolingOff
    | Refused
    | Metadata
    | Plaintext(content: Bytes)

  // The statements issued against the row

  /** `before_attempt`: refuse during the cooldown, lift it once it is over. */
  function BeforeAttempt(d: DropRow, now: int): (DropRow, Option<Answer>) {
    if d.status == CoolingDown && d.cooldownUntil.Some? then
      (if now < d.cooldownUntil.value then (d, Some(CoolingOff))
       else (d.(status := Available, failedAttempts := 0, cooldownUntil := None), None))
    else if d.status != Available then (d, Some(NotFound))
    else (d, None)
  }

  /** `record_failure`: three guarded updates, the first that matches wins. The flag says whether a failure
      was recorded. */
  function RecordFailure(d: DropRow, now: int): (DropRow, bool) {
    if d.status == CoolingDown && d.cooldownUntil.Some? && d.cooldownUntil.value <= now then
      (d.(status := Available, failedAttempts := 1, cooldownUntil := None), true)
    else if d.status == Available && d.failedAttempts < THRESHOLD - 1 then
      (d.(failedAttempts := d.failedAttempts + 1), true)
    else if d.status == Available && d.failedAttempts == THRESHOLD - 1 then
      (d.(failedAttempts := THRESHOLD, status := CoolingDown, cooldownUntil := Some(now + COOLDOWN)), true)
    else (d, false)
  }

  /** `record_success`: an update without a status guard. */
  function RecordSuccess(d: DropRow): DropRow {
    d.(failedAttempts := 0, cooldownUntil := None)
  }

  predicate IsExpired(d: DropRow, now: int) {
    d.expiresAt.Some? && d.expiresAt.value <= now
  }

  predicate IsLive(d: DropRow) {
    d.status == Available || d.status == CoolingDown
  }

  /** `destroy_single_expired`, and one row of `destroy_expired`. */
  function Expire(d: DropRow, now: int): DropRow {
    if IsExpired(d, now) && IsLive(d) then d.(status := Expired, envelope := WIPED) else d
  }

  /** The conditional update of `destroy_after_success`; the flag is the row count. */
  function Consume(d: DropRow): (DropRow, bool) {
    if d.status == Available then (d.(status := Consumed, envelope := WIPED), true) else (d, false)
  }

  /** The administrator's `destroy`. */
  function AdminDestroy(d: DropRow): DropRow {
    if d.status == Destroyed then d
    else d.(status := Destroyed, envelope := WIPED, accessCodeHash := NO_CODE, answered := map[])
  }

  /** The idempotency row of a request that was answered; an existing row is left alone. */
  function Remember(d: DropRow, key: nat, requestHash: nat): DropRow {
    if key in d.answered then d else d.(answered := d.answered[key := requestHash])
  }

  // Requests

  /** A request's idempotency key and request hash, the hash of its access code if that is well-formed, and
      what the envelope opens to when every later check passes. */
  datatype Attempt = Attempt(key: nat, requestHash: nat, codeHash: Option<Bytes>, plaintext: Option<Bytes>)

  datatype Request =
    | Extract(now: int, attempt: Attempt, rolledBack: bool)
    | GetMetadata(now: int, rolledBack: bool)
    | Sweep(now: int)
    | Wipe(now: int)

  datatype Result = Result(row: DropRow, answer: Answer, failureRecorded: bool)

  /** The part of `extract_drop` after the cooldown guard has passed. */
  function ExtractAvailable(d: DropRow, now: int, a: Attempt): Result
  {
    if a.key in d.answered && d.answered[a.key] != a.requestHash then Result(d, Refused, false)
    else if a.codeHash != Some(d.accessCodeHash) then
      var (failed, recorded) := RecordFailure(d, now);
      Result(failed, NotFound, recorded)
    else if a.plaintext.None? then Result(d, Refused, false)
    else if d.burnAfterRead then
      var (consumed, done) := Consume(d);
      if done then Result(RecordSuccess(Remember(consumed, a.key, a.requestHash)), Plaintext(a.plaintext.value), false)
      else Result(d, NotFound, false)
    else Result(RecordSuccess(Remember(d, a.key, a.requestHash)), Plaintext(a.plaintext.value), false)
  }

  /** `extract_drop`. The expiry clean-up is undone when the request's transaction is rolled back with the
      error it raises; the guard's and the failure counter's updates commit themselves. */
  function ExtractDrop(d: DropRow, now: int, a: Attempt, rolledBack: bool): Result {
    if IsExpired(d, now) then Result(if rolledBack then d else Expire(d, now), NotFound, false)
    else
      var (guarded, refusal) := BeforeAttempt(d, now);
      if refusal.Some? then Result(guarded, refusal.value, false) else ExtractAvailable(guarded, now, a)
  }

  /** `get_drop_metadata`: reading it also lifts a cooldown that is over. */
  function DropMetadata(d: DropRow, now: int, rolledBack: bool): Result {
    if IsExpired(d, now) then Result(if rolledBack then d else Expire(d, now), NotFound, false)
    else
      var guarded := if d.status == CoolingDown then BeforeAttempt(d, now).0 else d;
      Result(guarded, if guarded.status == Available then Metadata else NotFound, false)
  }

  function Serve(d: DropRow, r: Request): Result {
    match r
    case Extract(now, a, rolledBack) => ExtractDrop(d, now, a, rolledBack)
    case GetMetadata(now, rolledBack) => DropMetadata(d, now, rolledBack)
    case Sweep(now) => Result(Expire(d, now), NotFound, false)
    case Wipe(now) => Result(AdminDestroy(d), NotFound, false)
  }

  // Lifecycle

  predicate Sealed(e: Envelope) {
    e.ciphertext.Some? && e.nonce.Some? && e.tag.Some? && e.encKeySm2.Some? &&
    e.senderSignature.Some? && e.senderCertificate.Some?
  }

  predicate Inv(d: DropRow) {
    && (d.status == Available ==> 0 <= d.failedAttempts <= 4 && d.cooldownUntil == None)
    && (d.status == CoolingDown ==> d.failedAttempts == 5 && d.cooldownUntil.Some?)
    && (if IsLive(d) then Sealed(d.envelope) else d.envelope == WIPED)
    && (d.status == Destroyed ==> d.accessCodeHash == NO_CODE && d.answered == map[])
  }

  /** A fresh drop, as `_create_drop` inserts it. */
  predicate IsNew(d: DropRow) {
    d.status == Available && d.failedAttempts == 0 && d.cooldownUntil == None &&
    Sealed(d.envelope) && d.answered == map[]
  }

  /** The statuses a drop may have later. */
  predicate MayBecome(from: Status, to: Status) {
    match from
    case Available => true
    case CoolingDown => true
    case Consumed => to == Consumed || to == Destroyed
    case Expired => to == Expired || to == Destroyed
    case Destroyed => to == Destroyed
  }

  lemma ServeKeepsInv(d: DropRow, r: Request)
    requires Inv(d)
    ensures Inv(Serve(d, r).row)
    ensures MayBecome(d.status, Serve(d, r).row.status)
    ensures Serve(d, r).row.burnAfterRead == d.burnAfterRead && Serve(d, r).row.expiresAt == d.expiresAt
    ensures Serve(d, r).answer.Plaintext? ==>
              IsLive(d) && (d.burnAfterRead ==> Serve(d, r).row.status == Consumed)
  {
  }

  lemma ServeKeepsEnvelope(d: DropRow, r: Request)
    requires Inv(d)
    ensures IsLive(Serve(d, r).row) ==>
              IsLive(d) && Serve(d, r).row.envelope == d.envelope && Serve(d, r).row.accessCodeHash == d.accessCodeHash
  {
    hide Sealed;
  }

  function Run(d: DropRow, rs: seq<Request>): DropRow {
    if rs == [] then d else Serve(Run(d, rs[..|rs| - 1]), rs[|rs| - 1]).row
  }

  /** Every reachable row is well-formed: available means at most four failures and no cooldown, cooling
      down means five and a deadline, an ended drop has all eight envelope columns empty, and one destroyed
      by the administrator has no access-code hash and no idempotency rows either. A drop that has not ended
      has the envelope and the access code it was made with. */
  lemma {:induction false} LifecycleInvariant(d: DropRow, rs: seq<Request>)
    requires IsNew(d)
    ensures Inv(Run(d, rs)) && Run(d, rs).burnAfterRead == d.burnAfterRead && Run(d, rs).expiresAt == d.expiresAt
    ensures IsLive(Run(d, rs)) ==>
              Run(d, rs).envelope == d.envelope && Run(d, rs).accessCodeHash == d.accessCodeHash
  {
    if rs != [] {
      LifecycleInvariant(d, rs[..|rs| - 1]);
      ServeKeepsInv(Run(d, rs[..|rs| - 1]), rs[|rs| - 1]);
      ServeKeepsEnvelope(Run(d, rs[..|rs| - 1]), rs[|rs| - 1]);
      hide Serve, Inv;
    }
  }

  /** An ended drop stays ended: its status may only move on to destroyed, and it stays wiped. */
  lemma {:induction false} EndedForever(d: DropRow, rs: seq<Request>, i: nat)
    requires IsNew(d) && i <= |rs| && !IsLive(Run(d, rs[..i]))
    ensures MayBecome(Run(d, rs[..i]).status, Run(d, rs).status) && Run(d, rs).envelope == WIPED
    decreases |rs|
  {
    LifecycleInvariant(d, rs);
    if i < |rs| {
      var init := rs[..|rs| - 1];
      assert init[..i] == rs[..i];
      EndedForever(d, init, i);
      LifecycleInvariant(d, init);
      ServeKeepsInv(Run(d, init), rs[|rs| - 1]);
    } else {
      assert rs[..i] == rs;
    }
  }

  // The cooldown rate bound

  /** How many of the requests record an access-code failure. */
  function Failures(d: DropRow, rs: seq<Request>): (n: nat)
    decreases |rs|
  {
    if rs == [] then 0
    else (if Serve(d, rs[0]).failureRecorded then 1 else 0) + Failures(Serve(d, rs[0]).row, rs[1..])
  }

  /** None of the requests returns the plaintext. */
  predicate NoSuccess(d: DropRow, rs: seq<Request>)
    decreases |rs|
  {
    rs == [] || (!Serve(d, rs[0]).answer.Plaintext? && NoSuccess(Serve(d, rs[0]).row, rs[1..]))
  }

  /** The clock does not run backwards, and stays within [from, to]. */
  predicate Within(rs: seq<Request>, from: int, to: int) {
    rs == [] || (from <= rs[0].now <= to && Within(rs[1..], rs[0].now, to))
  }

  function Batches(span: int): int {
    if span < 0 then 0 else span / COOLDOWN
  }

  /** Failures the row can still record from time t up to the end, without a success: the rest of the
      current batch of five, and one batch for every cooldown that can run out in between. */
  function Budget(d: DropRow, t: int, end: int): int {
    if d.status == Available then THRESHOLD - d.failedAttempts + 5 * Batches(end - t)
    else if d.status == CoolingDown && d.cooldownUntil.Some? then
      var lifted := if d.cooldownUntil.value < t then t else d.cooldownUntil.value;
      if end < lifted then 0 else 5 * (Batches(end - lifted) + 1)
    else 0
  }

  lemma BatchesMonotone(a: int, b: int)
    requires a <= b
    ensures 0 <= Batches(a) <= Batches(b)
    ensures Batches(b) >= 0 && (b >= COOLDOWN ==> Batches(b) == Batches(b - COOLDOWN) + 1)
    ensures b < COOLDOWN ==> Batches(b) == 0
  {
  }

  /** What a request that returns no plaintext can do to the counter. */
  lemma CounterStep(d: DropRow, r: Request)
    requires Inv(d) && !Serve(d, r).answer.Plaintext?
    ensures var after, recorded := Serve(d, r).row, Serve(d, r).failureRecorded;
      || (!IsLive(after) && !recorded)
      || (after == d && !recorded)
      || (d.status == Available && after.status == Available &&
          after.failedAttempts == d.failedAttempts + 1 && recorded)
      || (d.status == Available && d.failedAttempts == 4 && after.status == CoolingDown
          && after.cooldownUntil == Some(r.now + COOLDOWN) && recorded)
      || (d.status == CoolingDown && d.cooldownUntil.value <= r.now && after.status == Available
          && after.failedAttempts == (if recorded then 1 else 0))
  {
  }

  /** One request spends at most what it takes from the budget. */
  lemma BudgetStep(d: DropRow, r: Request, t: int, end: int)
    requires Inv(d) && t <= r.now <= end && !Serve(d, r).answer.Plaintext?
    ensures (if Serve(d, r).failureRecorded then 1 else 0) + Budget(Serve(d, r).row, r.now, end) <= Budget(d, t, end)
  {
    hide Serve, Batches;
    CounterStep(d, r);
    BatchesMonotone(end - r.now, end - t);
    BatchesMonotone(end - r.now, end - r.now);
    if d.status == CoolingDown {
      var lifted := if d.cooldownUntil.value < t then t else d.cooldownUntil.value;
      var later := if d.cooldownUntil.value < r.now then r.now else d.cooldownUntil.value;
      if lifted <= end { BatchesMonotone(end - later, end - lifted); }
    }
  }

  lemma {:induction false} FailuresWithinBudget(d: DropRow, rs: seq<Request>, from: int, to: int)
    requires Inv(d) && from <= to && Within(rs, from, to) && NoSuccess(d, rs)
    ensures Failures(d, rs) <= Budget(d, from, to)
    decreases |rs|
  {
    if rs == [] {
      BatchesMonotone(to - from, to - from);
    } else {
      ServeKeepsInv(d, rs[0]);
      BudgetStep(d, rs[0], from, to);
      FailuresWithinBudget(Serve(d, rs[0]).row, rs[1..], rs[0].now, to);
    }
  }

  /** In every run, a window of length w in which nobody extracts the drop holds at most
      5 * (floor(w / 10 minutes) + 1) recorded failures, whatever happened before. */
  lemma CooldownRateBound(d: DropRow, before: seq<Request>, window: seq<Request>, from: int, w: int)
    requires IsNew(d) && w >= 0
    requires Within(window, from, from + w) && NoSuccess(Run(d, before), window)
    ensures Failures(Run(d, before), window) <= 5 * (w / 600_000_000 + 1)
  {
    hide Serve, Run, Failures, NoSuccess, Within, Sealed;
    LifecycleInvariant(d, before);
    var row := Run(d, before);
    FailuresWithinBudget(row, window, from, from + w);
    if row.status == CoolingDown && from <= row.cooldownUntil.value <= from + w {
      BatchesMonotone(from + w - row.cooldownUntil.value, w);
    }
  }

  const WRONG_CODE := Attempt(0, 0, None, None)

  /** Five wrong codes at one moment. */
  function Burst(t: int): seq<Request> {
    var r := Extract(t, WRONG_CODE, false);
    [r, r, r, r, r]
  }

  /** Five wrong codes at time 0 and at the end of each of the next n cooldowns. */
  function Bursts(n: nat): seq<Request> {
    if n == 0 then Burst(0) else Bursts(n - 1) + Burst(n * COOLDOWN)
  }

  lemma {:induction false} FailuresConcat(d: DropRow, a: seq<Request>, b: seq<Request>)
    ensures Failures(d, a + b) == Failures(d, a) + Failures(Run(d, a), b)
    ensures Run(d, a + b) == Run(Run(d, a), b)
    ensures NoSuccess(d, a + b) <==> NoSuccess(d, a) && NoSuccess(Run(d, a), b)
    decreases |a| + |b|
  {
    hide Serve;
    if a == [] {
      assert a + b == b;
    } else {
      assert (a + b)[0] == a[0] && (a + b)[1..] == a[1..] + b;
      FailuresConcat(Serve(d, a[0]).row, a[1..], b);
      RunFromFront(d, a);
    }
    if b == [] {
      assert a + b == a;
    } else {
      assert (a + b)[..|a + b| - 1] == a + b[..|b| - 1];
      FailuresConcat(d, a, b[..|b| - 1]);
    }
  }

  lemma {:induction false} RunFromFront(d: DropRow, rs: seq<Request>)
    requires rs != []
    ensures Run(d, rs) == Run(Serve(d, rs[0]).row, rs[1..])
    ensures Failures(d, rs) ==
              (if Serve(d, rs[0]).failureRecorded then 1 else 0) + Failures(Serve(d, rs[0]).row, rs[1..])
    ensures NoSuccess(d, rs) <==> !Serve(d, rs[0]).answer.Plaintext? && NoSuccess(Serve(d, rs[0]).row, rs[1..])
  {
    hide Serve;
    if |rs| > 1 {
      var init := rs[..|rs| - 1];
      RunFromFront(d, init);
      assert init[1..] == rs[1..][..|rs| - 2];
    }
  }

  /** A burst that starts a batch records five failures and starts a cooldown. */
  lemma BurstRecordsFive(d: DropRow, t: int)
    requires d.expiresAt == None && d.answered == map[]
    requires (d.status == Available && d.failedAttempts == 0) || (d.status == CoolingDown && d.cooldownUntil == Some(t))
    ensures Failures(d, Burst(t)) == 5 && NoSuccess(d, Burst(t))
    ensures var after := Run(d, Burst(t));
      && after.expiresAt == None && after.answered == map[]
      && after.status == CoolingDown && after.cooldownUntil == Some(t + COOLDOWN)
  {
    var r := Extract(t, WRONG_CODE, false);
    var d1 := Serve(d, r).row;
    var d2 := Serve(d1, r).row;
    var d3 := Serve(d2, r).row;
    var d4 := Serve(d3, r).row;
    var d5 := Serve(d4, r).row;
    assert d5.status == CoolingDown && d5.cooldownUntil == Some(t + COOLDOWN) && d5.expiresAt == None;
    assert d5.answered == map[];
    assert Serve(d, r).failureRecorded && Serve(d1, r).failureRecorded && Serve(d2, r).failureRecorded
        && Serve(d3, r).failureRecorded && Serve(d4, r).failureRecorded;
    assert Serve(d, r).answer == NotFound && Serve(d1, r).answer == NotFound && Serve(d2, r).answer == NotFound
        && Serve(d3, r).answer == NotFound && Serve(d4, r).answer == NotFound;
    FiveSteps(d, r, d1, d2, d3, d4, d5);
  }

  lemma FiveSteps(d: DropRow, r: Request, d1: DropRow, d2: DropRow, d3: DropRow, d4: DropRow, d5: DropRow)
    requires d1 == Serve(d, r).row && d2 == Serve(d1, r).row && d3 == Serve(d2, r).row
    requires d4 == Serve(d3, r).row && d5 == Serve(d4, r).row
    requires Serve(d, r).failureRecorded && Serve(d1, r).failureRecorded && Serve(d2, r).failureRecorded
    requires Serve(d3, r).failureRecorded && Serve(d4, r).failureRecorded
    requires Serve(d, r).answer == NotFound && Serve(d1, r).answer == NotFound && Serve(d2, r).answer == NotFound
    requires Serve(d3, r).answer == NotFound && Serve(d4, r).answer == NotFound
    ensures Failures(d, [r, r, r, r, r]) == 5 && Run(d, [r, r, r, r, r]) == d5 && NoSuccess(d, [r, r, r, r, r])
  {
    hide Serve, Failures, Run, NoSuccess;
    RunFromFront(d, [r, r, r, r, r]);
    assert [r, r, r, r, r][1..] == [r, r, r, r];
    RunFromFront(d1, [r, r, r, r]);
    assert [r, r, r, r][1..] == [r, r, r];
    RunFromFront(d2, [r, r, r]);
    assert [r, r, r][1..] == [r, r];
    RunFromFront(d3, [r, r]);
    assert [r, r][1..] == [r];
    RunFromFront(d4, [r]);
    assert [r][1..] == [];
    NothingHappens(d5);
  }

  lemma NothingHappens(d: DropRow)
    ensures Failures(d, []) == 0 && Run(d, []) == d && NoSuccess(d, [])
  {
  }

  lemma {:induction false} WithinConcat(a: seq<Request>, b: seq<Request>, from: int, mid: int, to: int)
    requires from <= mid <= to && Within(a, from, mid) && Within(b, mid, to)
    ensures Within(a + b, from, to)
  {
    if a == [] {
      assert a + b == b;
    } else {
      assert (a + b)[0] == a[0] && (a + b)[1..] == a[1..] + b;
      WithinConcat(a[1..], b, a[0].now, mid, to);
    }
  }

  lemma BurstWithin(from: int, t: int)
    requires from <= t
    ensures Within(Burst(t), from, t)
  {
    var r := Extract(t, WRONG_CODE, false);
    assert Burst(t)[1..] == [r, r, r, r] && [r, r, r, r][1..] == [r, r, r] && [r, r, r][1..] == [r, r];
    assert [r, r][1..] == [r];
    assert Within([r], t, t);
    assert Within([r, r], t, t);
    assert Within([r, r, r], t, t);
    assert Within([r, r, r, r], t, t);
  }

  lemma {:induction false} BurstsWithin(n: nat)
    ensures Within(Bursts(n), 0, n * COOLDOWN)
  {
    hide Within, Burst;
    BurstWithin(0, n * COOLDOWN);
    if n > 0 {
      BurstsWithin(n - 1);
      BurstWithin((n - 1) * COOLDOWN, n * COOLDOWN);
      WithinConcat(Bursts(n - 1), Burst(n * COOLDOWN), 0, (n - 1) * COOLDOWN, n * COOLDOWN);
    }
  }

  /** The rate bound is attained for every whole number of cooldowns, by a run that lies in the window and
      holds no success. */
  lemma {:induction false} RateBoundIsTight(d: DropRow, n: nat)
    requires IsNew(d) && d.expiresAt == None
    ensures Within(Bursts(n), 0, n * COOLDOWN) && NoSuccess(d, Bursts(n))
    ensures Failures(d, Bursts(n)) == 5 * (n * COOLDOWN / COOLDOWN + 1)
    ensures var after := Run(d, Bursts(n));
      && after.expiresAt == None && after.answered == map[]
      && after.status == CoolingDown && after.cooldownUntil == Some((n + 1) * COOLDOWN)
  {
    hide Failures, Run, Burst, Within, NoSuccess;
    BurstsWithin(n);
    if n == 0 {
      BurstRecordsFive(d, 0);
    } else {
      RateBoundIsTight(d, n - 1);
      FailuresConcat(d, Bursts(n - 1), Burst(n * COOLDOWN));
      BurstRecordsFive(Run(d, Bursts(n - 1)), n * COOLDOWN);
    }
  }

  // Idempotency keys

  predicate KeyBound(d: DropRow, key: nat, requestHash: nat) {
    d.status == Destroyed || (key in d.answered && d.answered[key] == requestHash)
  }

  lemma KeyStep(d: DropRow, r: Request, key: nat, requestHash: nat)
    ensures KeyBound(d, key, requestHash) ==> KeyBound(Serve(d, r).row, key, requestHash)
    ensures r.Extract? && r.attempt.key == key && Serve(d, r).answer.Plaintext? ==>
              (KeyBound(d, key, requestHash) ==> r.attempt.requestHash == requestHash)
              && KeyBound(Serve(d, r).row, key, r.attempt.requestHash)
  {
  }

  lemma {:induction false} KeyKept(d: DropRow, rs: seq<Request>, key: nat, requestHash: nat)
    requires KeyBound(d, key, requestHash)
    ensures KeyBound(Run(d, rs), key, requestHash)
  {
    hide Serve, KeyBound;
    if rs != [] {
      KeyKept(d, rs[..|rs| - 1], key, requestHash);
      KeyStep(Run(d, rs[..|rs| - 1]), rs[|rs| - 1], key, requestHash);
    }
  }

  /** A key that was answered with plaintext is bound to that request: in any later state a different
      request under the same key gets no plaintext. */
  lemma KeyBoundToRequest(d: DropRow, now: int, a: Attempt, rolledBack: bool, rs: seq<Request>, later: Request)
    requires Serve(d, Extract(now, a, rolledBack)).answer.Plaintext?
    requires later.Extract? && later.attempt.key == a.key && later.attempt.requestHash != a.requestHash
    ensures !Serve(Run(Serve(d, Extract(now, a, rolledBack)).row, rs), later).answer.Plaintext?
  {
    hide Serve, Run, KeyBound;
    var first := Extract(now, a, rolledBack);
    KeyStep(d, first, a.key, a.requestHash);
    KeyKept(Serve(d, first).row, rs, a.key, a.requestHash);
    KeyStep(Run(Serve(d, first).row, rs), later, a.key, a.requestHash);
  }

  // Burning after reading, statement by statement

  /** The updates that concurrent requests issue against the row, in the order the database applies them;
      here the pieces of different requests may interleave. */
  datatype Statement =
    | LiftCooldown
    | CountFailure(now: int)
    | ResetFailures
    | ExpireRow(now: int)
    | ConsumeRow
    | RememberKey(key: nat, requestHash: nat)
    | WipeRow

  function Execute(d: DropRow, s: Statement): DropRow {
    match s
    case LiftCooldown =>
      if d.status == CoolingDown then d.(status := Available, failedAttempts := 0, cooldownUntil := None) else d
    case CountFailure(now) => RecordFailure(d, now).0
    case ResetFailures => RecordSuccess(d)
    case ExpireRow(now) => Expire(d, now)
    case ConsumeRow => Consume(d).0
    case RememberKey(key, requestHash) => Remember(d, key, requestHash)
    case WipeRow => AdminDestroy(d)
  }

  function ExecuteAll(d: DropRow, ss: seq<Statement>): DropRow {
    if ss == [] then d else Execute(ExecuteAll(d, ss[..|ss| - 1]), ss[|ss| - 1])
  }

  /** A burn-after-read request returns the plaintext only if its conditional update changed the row. */
  predicate Reads(d: DropRow, ss: seq<Statement>, i: nat)
    requires i < |ss|
  {
    ss[i] == ConsumeRow && Consume(ExecuteAll(d, ss[..i])).1
  }

  lemma {:induction false} EndedUnderStatements(d: DropRow, ss: seq<Statement>, i: nat)
    requires i <= |ss| && !IsLive(ExecuteAll(d, ss[..i])) && ExecuteAll(d, ss[..i]).envelope == WIPED
    ensures !IsLive(ExecuteAll(d, ss)) && ExecuteAll(d, ss).envelope == WIPED
    decreases |ss|
  {
    if i < |ss| {
      var init := ss[..|ss| - 1];
      assert init[..i] == ss[..i];
      EndedUnderStatements(d, init, i);
    } else {
      assert ss[..i] == ss;
    }
  }

  /** However the statements of any number of requests interleave, at most one of them reads the drop, and
      from then on the row is ended and wiped. */
  lemma BurnAfterReadOnce(d: DropRow, ss: seq<Statement>, i: nat, j: nat)
    requires i < j < |ss| && Reads(d, ss, i)
    ensures !Reads(d, ss, j)
    ensures !IsLive(ExecuteAll(d, ss)) && ExecuteAll(d, ss).envelope == WIPED
  {
    var after := ss[..i + 1];
    assert after[..i] == ss[..i];
    assert ss[..j][..i + 1] == after;
    EndedUnderStatements(d, ss[..j], i + 1);
    EndedUnderStatements(d, ss, i + 1);
  }

  /** A success counted while the drop cools down, which other requests' failures have started, or a key
      remembered for a drop that an administrator has wiped: neither update looks at the status. */
  predicate BreaksInvariant(d: DropRow, s: Statement) {
    (s.ResetFailures? && d.status == CoolingDown) || (s.RememberKey? && d.status == Destroyed)
  }

  lemma StatementKeepsInvIff(d: DropRow, s: Statement)
    requires Inv(d)
    ensures Inv(Execute(d, s)) <==> !BreaksInvariant(d, s)
  {
    if s.RememberKey? && d.status == Destroyed { assert s.key in Execute(d, s).answered; }
  }

  /** However statements interleave, the invariant holds throughout exactly when no success is counted
      during a cooldown and no key is remembered after the wipe. */
  lemma {:induction false} InterleavingKeepsInvIff(d: DropRow, ss: seq<Statement>)
    requires Inv(d)
    ensures (forall i :: 0 <= i <= |ss| ==> Inv(ExecuteAll(d, ss[..i])))
       <==> (forall i :: 0 <= i < |ss| ==> !BreaksInvariant(ExecuteAll(d, ss[..i]), ss[i]))
  {
    hide Inv, Execute, BreaksInvariant;
    if forall i :: 0 <= i <= |ss| ==> Inv(ExecuteAll(d, ss[..i])) {
      forall i | 0 <= i < |ss| ensures !BreaksInvariant(ExecuteAll(d, ss[..i]), ss[i]) {
        OneMoreStatement(d, ss, i);
        StatementKeepsInvIff(ExecuteAll(d, ss[..i]), ss[i]);
      }
    }
    if forall i :: 0 <= i < |ss| ==> !BreaksInvariant(ExecuteAll(d, ss[..i]), ss[i]) {
      for n := 0 to |ss|
        invariant forall i :: 0 <= i <= n ==> Inv(ExecuteAll(d, ss[..i]))
      {
        OneMoreStatement(d, ss, n);
        StatementKeepsInvIff(ExecuteAll(d, ss[..n]), ss[n]);
      }
    }
  }

  lemma OneMoreStatement(d: DropRow, ss: seq<Statement>, i: nat)
    requires i < |ss|
    ensures ExecuteAll(d, ss[..i + 1]) == Execute(ExecuteAll(d, ss[..i]), ss[i])
  {
    assert ss[..i + 1][..i] == ss[..i];
  }

  /** Such a run exists: a success counted between another request's
      fifth failure and its answer leaves the drop cooling down without a deadline ... */
  lemma InterleavedSuccessWedges(d: DropRow, now: int)
    requires d.status == Available && d.failedAttempts == 4
    ensures var after := ExecuteAll(d, [CountFailure(now), ResetFailures]);
      after.status == CoolingDown && after.cooldownUntil == None && after.envelope == d.envelope
  {
    var ss := [CountFailure(now), ResetFailures];
    var one := ss[..1];
    assert one == [CountFailure(now)] && one[..0] == [];
    assert ExecuteAll(d, one) == Execute(d, CountFailure(now));
  }

  /** ... and from there no request but one that ends the drop ever changes it or returns its content. */
  lemma WedgedStaysWedged(d: DropRow, r: Request)
    requires d.status == CoolingDown && d.cooldownUntil == None
    ensures Serve(d, r).row == d || !IsLive(Serve(d, r).row)
    ensures !Serve(d, r).answer.Plaintext?
  {
  }

  // What the answers mean

  /** The drop can be read at this time: it has not expired, and is available or its cooldown is over. */
  predicate Readable(d: DropRow, now: int) {
    && (d.expiresAt.Some? ==> now < d.expiresAt.value)
    && (d.status == Available || (d.status == CoolingDown && d.cooldownUntil.Some? && d.cooldownUntil.value <= now))
  }

  /** The idempotency key is new, or was used for this very request. */
  predicate KeyUsable(d: DropRow, a: Attempt) {
    a.key !in d.answered || d.answered[a.key] == a.requestHash
  }

  /** An extraction returns the plaintext exactly when the drop can be read, the key is usable, the access code
      is the drop's and the envelope opens; it counts a failure exactly when all but the code is in order
      before the code is looked at; and it answers "cooling off" exactly during a cooldown. */
  lemma ExtractionIff(d: DropRow, now: int, a: Attempt, rolledBack: bool)
    requires Inv(d)
    ensures var r := ExtractDrop(d, now, a, rolledBack);
      && (forall p :: r.answer == Plaintext(p) <==>
            Readable(d, now) && KeyUsable(d, a) && a.codeHash == Some(d.accessCodeHash) && a.plaintext == Some(p))
      && (r.failureRecorded <==> Readable(d, now) && KeyUsable(d, a) && a.codeHash != Some(d.accessCodeHash))
      && (r.answer == CoolingOff <==>
            (d.expiresAt.Some? ==> now < d.expiresAt.value) && d.status == CoolingDown && now < d.cooldownUntil.value)
  {
  }

  /** What the plaintext leaves behind: a burn-after-read drop is consumed and wiped, any other is available with
      its envelope; the counter is zero and the key is bound to the request. */
  lemma ExtractionLeaves(d: DropRow, now: int, a: Attempt, rolledBack: bool)
    requires Inv(d) && ExtractDrop(d, now, a, rolledBack).answer.Plaintext?
    ensures var after := ExtractDrop(d, now, a, rolledBack).row;
      && (if d.burnAfterRead then after.status == Consumed && after.envelope == WIPED
          else after.status == Available && after.envelope == d.envelope)
      && after.failedAttempts == 0 && after.cooldownUntil == None
      && a.key in after.answered && after.answered[a.key] == a.requestHash
      && forall key :: key in d.answered ==> key in after.answered && after.answered[key] == d.answered[key]
  {
  }

  /** The metadata are shown exactly while the drop can be read, and showing them spends nothing. */
  lemma MetadataIff(d: DropRow, now: int, rolledBack: bool)
    requires Inv(d)
    ensures var r := DropMetadata(d, now, rolledBack);
      && (r.answer == Metadata <==> Readable(d, now))
      && !r.answer.Plaintext? && !r.failureRecorded
      && (IsLive(r.row) ==> r.row.envelope == d.envelope && r.row.answered == d.answered)
  {
  }

  /** The mapped row object, updated in place by the services. */
  class Drop {
    var status: Status
    var failedAttempts: int
    var cooldownUntil: Option<int>
    var envelope: Envelope
    var accessCodeHash: Bytes
    var answered: map<nat, nat>
    const burnAfterRead: bool
    const expiresAt: Option<int>

    function Row(): DropRow
      reads this
    {
      DropRow(status, failedAttempts, cooldownUntil, envelope, accessCodeHash, answered, burnAfterRead, expiresAt)
    }

    constructor (sealed_: Envelope, codeHash: Bytes, burn: bool, expiry: Option<int>)
      requires Sealed(sealed_)
      ensures IsNew(Row()) && Row().envelope == sealed_ && accessCodeHash == codeHash
      ensures burnAfterRead == burn && expiresAt == expiry
    {
      status, failedAttempts, cooldownUntil, envelope := Available, 0, None, sealed_;
      accessCodeHash, answered := codeHash, map[];
      burnAfterRead, expiresAt := burn, expiry;
    }

    method GuardAttempt(now: int) returns (refusal: Option<Answer>)
      modifies this
      ensures (Row(), refusal) == BeforeAttempt(old(Row()), now)
    {
      if status == CoolingDown && cooldownUntil.Some? {
        if now < cooldownUntil.value { return Some(CoolingOff); }
        status, failedAttempts, cooldownUntil := Available, 0, None;
        return None;
      }
      if status != Available { return Some(NotFound); }
      return None;
    }

    method NoteFailure(now: int) returns (recorded: bool)
      modifies this
      ensures (Row(), recorded) == RecordFailure(old(Row()), now)
    {
      if status == CoolingDown && cooldownUntil.Some? && cooldownUntil.value <= now {
        status, failedAttempts, cooldownUntil := Available, 1, None;
        return true;
      }
      if status == Available && failedAttempts < THRESHOLD - 1 {
        failedAttempts := failedAttempts + 1;
        return true;
      }
      if status == Available && failedAttempts == THRESHOLD - 1 {
        failedAttempts, status, cooldownUntil := THRESHOLD, CoolingDown, Some(now + COOLDOWN);
        return true;
      }
      return false;
    }

    method NoteSuccess()
      modifies this
      ensures Row() == RecordSuccess(old(Row()))
    {
      failedAttempts, cooldownUntil := 0, None;
    }

    method DestroyExpired(now: int) returns (destroyed: bool)
      modifies this
      ensures Row() == Expire(old(Row()), now) && destroyed == (IsExpired(old(Row()), now) && IsLive(old(Row())))
    {
      destroyed := expiresAt.Some? && expiresAt.value <= now && (status == Available || status == CoolingDown);
      if destroyed { status, envelope := Expired, WIPED; }
    }

    method DestroyAfterSuccess() returns (done: bool)
      modifies this
      ensures (Row(), done) == Consume(old(Row()))
    {
      done := status == Available;
      if done { status, envelope := Consumed, WIPED; }
    }

    method AdminWipe()
      modifies this
      ensures Row() == AdminDestroy(old(Row()))
      ensures status == Destroyed && (old(status) != Destroyed ==>
                envelope == Envelope(None, None, None, None, None, None, None, None)
                && accessCodeHash == NO_CODE && answered == map[])
    {
      if status == Destroyed { return; }
      status, envelope, accessCodeHash := Destroyed, WIPED, NO_CODE;
      answered := map[];
    }

    /** `extract_drop`, in the order of its checks. */
    method ExtractOnce(now: int, a: Attempt) returns (answer: Answer, recorded: bool)
      modifies this
      ensures Result(Row(), answer, recorded) == ExtractDrop(old(Row()), now, a, false)
      ensures Inv(old(Row())) ==>
                && Inv(Row())
                && (forall p :: answer == Plaintext(p) <==>
                      Readable(old(Row()), now) && KeyUsable(old(Row()), a)
                      && a.codeHash == Some(old(accessCodeHash)) && a.plaintext == Some(p))
                && (recorded <==>
                      Readable(old(Row()), now) && KeyUsable(old(Row()), a) && a.codeHash != Some(old(accessCodeHash)))
    {
      ghost var before := Row();
      if Inv(before) {
        ExtractionIff(before, now, a, false);
        ServeKeepsInv(before, Extract(now, a, false));
      }
      hide Inv, Readable, KeyUsable;
      recorded := false;
      if expiresAt.Some? && now >= expiresAt.value {
        var destroyed := DestroyExpired(now);
        return NotFound, false;
      }
      var refusal := GuardAttempt(now);
      if refusal.Some? { return refusal.value, false; }
      if a.key in answered && answered[a.key] != a.requestHash { return Refused, false; }
      if a.codeHash != Some(accessCodeHash) {
        recorded := NoteFailure(now);
        return NotFound, recorded;
      }
      if a.plaintext.None? { return Refused, false; }
      if burnAfterRead {
        var done := DestroyAfterSuccess();
        if !done { return NotFound, false; }
      }
      if a.key !in answered { answered := answered[a.key := a.requestHash]; }
      NoteSuccess();
      return Plaintext(a.plaintext.value), false;
    }
  }

  /** How many of the selected rows are still live. */
  function LiveCount(rows: seq<DropRow>, due: seq<nat>): (n: nat)
    requires forall k :: 0 <= k < |due| ==> due[k] < |rows|
    ensures n <= |due|
  {
    if due == [] then 0
    else LiveCount(rows, due[..|due| - 1]) + (if IsLive(rows[due[|due| - 1]]) then 1 else 0)
  }

  lemma ExpireLive(d: DropRow, now: int)
    requires IsExpired(d, now)
    ensures Expire(d, now) == if IsLive(d) then d.(status := Expired, envelope := WIPED) else d
    ensures !IsLive(Expire(d, now))
  {
  }

  /** The loop of `destroy_expired` over the rows its query selected (they have expired, but may have ended
      since): each one still live is wiped in place, the others and every other row are left alone. */
  method SweepExpired(table: array<DropRow>, due: seq<nat>, now: int) returns (destroyedCount: nat)
    requires forall k :: 0 <= k < |due| ==> due[k] < table.Length && IsExpired(table[due[k]], now)
    requires forall j, k :: 0 <= j < k < |due| ==> due[j] != due[k]
    modifies table
    ensures forall k :: 0 <= k < |due| ==> table[due[k]] == Expire(old(table[due[k]]), now)
    ensures forall i :: 0 <= i < table.Length && i !in due ==> table[i] == old(table[i])
    ensures destroyedCount == LiveCount(old(table[..]), due)
    ensures forall k :: 0 <= k < |due| ==> !IsLive(table[due[k]])
  {
    destroyedCount := 0;
    ghost var before := table[..];
    for n := 0 to |due|
      invariant forall k :: 0 <= k < n ==> table[due[k]] == Expire(before[due[k]], now)
      invariant forall i :: 0 <= i < table.Length && i !in due[..n] ==> table[i] == before[i]
      invariant destroyedCount == LiveCount(before, due[..n])
    {
      var i := due[n];
      assert due[..n + 1] == due[..n] + [i] && i !in due[..n];
      ExpireLive(table[i], now);
      hide Expire;
      if table[i].status == Available || table[i].status == CoolingDown {
        table[i] := table[i].(status := Expired, envelope := WIPED);
        destroyedCount := destroyedCount + 1;
      }
    }
    assert due[..|due|] == due;
  }
}
