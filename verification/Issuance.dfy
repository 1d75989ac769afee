/** Issuing blind signatures: requests of many workers, each holding one commitment at most, against the
    commitment store and the tables of issued signatures. A step is what happens under the store's lock, one
    call of the signer, or one transaction's commit; steps of different requests interleave freely. */
module Issuance {
  import opened Bytes
  import opened CommitmentStore

  type Sig = Bytes

  /** The signer's call: (k, c') to a signature, or a failure. */
  type Signer = (Bytes, Bytes) -> Option<Sig>

  /** A request past its own validation. Votes are the service vote_ballot, with the vote id as period. */
  datatype Request = Request(user: string, service: string, period: string, keyHash: Bytes, requestHash: Bytes,
                             commitmentId: Bytes, cPrime: Bytes, now: int)

  /** The unique key of the table that records the issue. */
  datatype Key = VoteIssue(user: string, vote: string)
               | CredentialIssue(user: string, service: string, period: string, keyHash: Bytes)

  function KeyOf(r: Request): Key {
    if r.service == "vote_ballot" then VoteIssue(r.user, r.period)
    else CredentialIssue(r.user, r.service, r.period, r.keyHash)
  }

  /** A stored issue. It is replayed to requests with both hashes (a credential's key hash is in its key). */
  datatype Row = Row(keyHash: Bytes, requestHash: Bytes, signature: Sig)

  predicate Replays(row: Row, r: Request) {
    row.keyHash == r.keyHash && row.requestHash == r.requestHash
  }

  /** A request in flight. */
  datatype Progress = Checked(request: Request)
                    | Holding(request: Request, record: Record)
                    | Signed(request: Request, record: Record, signature: Sig)

  /** One call of the signer with a commitment's scalar, whether it succeeded or not. */
  datatype Signing = Signing(request: Request, record: Record, result: Option<Sig>)

  datatype Response = Response(request: Request, signature: Sig)

  /** The store, the tables, the requests in flight, and the history: commitments ever made, calls of the
      signer, and signatures handed to clients. */
  datatype State = State(store: Store, rows: map<Key, Row>, pending: map<nat, Progress>,
                         created: Store, signings: seq<Signing>, responses: seq<Response>)

  datatype Event =
    | Create(record: Record, now: int)
    | Get(id: Bytes, at: int)
    | Begin(q: nat, request: Request, sees: bool)
    | Consume(q: nat)
    | CallSigner(q: nat)
    | Exhausted(q: nat)
    | Commit(q: nat)
    | Abort(q: nat)

  const INITIAL := State(map[], map[], map[], map[], [], [])

  /** Randomness: a new commitment has an id and a scalar that no commitment had before. */
  predicate Fresh(created: Store, record: Record) {
    record.id !in created && forall id :: id in created ==> created[id].k != record.k
  }

  predicate Enabled(s: State, e: Event) {
    match e
    case Create(record, now) => Fresh(s.created, record) && !record.consumed
    case Get(id, at) => true
    case Begin(q, request, sees) => q !in s.pending && (sees ==> KeyOf(request) in s.rows)
    case Consume(q) => q in s.pending && s.pending[q].Checked?
    case CallSigner(q) => q in s.pending && s.pending[q].Holding?
    case Exhausted(q) => q in s.pending && s.pending[q].Holding?
    case Commit(q) => q in s.pending && s.pending[q].Signed?
    case Abort(q) => q in s.pending
  }

  /** The stored signature for a request's key, if it replays. */
  function Replay(s: State, r: Request): seq<Response> {
    if KeyOf(r) in s.rows && Replays(s.rows[KeyOf(r)], r) then [Response(r, s.rows[KeyOf(r)].signature)] else []
  }

  /** A request ends, with the stored signature if it is due that. */
  function Finished(s: State, q: nat, answer: seq<Response>): State {
    s.(pending := Without(s.pending, q), responses := s.responses + answer)
  }

  function AfterConsume(s: State, q: nat): State
    requires q in s.pending
  {
    var r := s.pending[q].request;
    var t := Consumption(s.store, r.commitmentId, r.user, r.service, r.period, r.now);
    var u := s.(store := AfterConsumption(s.store, r.commitmentId, t));
    if t.Consumed? then u.(pending := u.pending[q := Holding(r, t.record)]) else Finished(u, q, [])
  }

  function AfterSigner(sign: Signer, s: State, q: nat): State
    requires q in s.pending && s.pending[q].Holding?
  {
    var p := s.pending[q];
    var result := sign(p.record.k, p.request.cPrime);
    var u := s.(signings := s.signings + [Signing(p.request, p.record, result)]);
    if result.Some? then u.(pending := u.pending[q := Signed(p.request, p.record, result.value)])
    else Finished(u, q, [])
  }

  /** The unique key decides: the first commit inserts the row; a later one rolls back and reads it. */
  function AfterCommit(s: State, q: nat): State
    requires q in s.pending && s.pending[q].Signed?
  {
    var p := s.pending[q];
    var key := KeyOf(p.request);
    if key in s.rows then Finished(s, q, Replay(s, p.request))
    else
      var row := Row(p.request.keyHash, p.request.requestHash, p.signature);
      Finished(s.(rows := s.rows[key := row]), q, [Response(p.request, p.signature)])
  }

  function Next(sign: Signer, s: State, e: Event): State {
    if !Enabled(s, e) then s
    else
      match e
      case Create(record, now) =>
        s.(store := Cleaned(s.store, now)[record.id := record], created := s.created[record.id := record])
      case Get(id, at) =>
        if id in s.store && !Live(s.store[id], at) then s.(store := Without(s.store, id)) else s
      case Begin(q, request, sees) =>
        if sees then s.(responses := s.responses + Replay(s, request))
        else s.(pending := s.pending[q := Checked(request)])
      case Consume(q) => AfterConsume(s, q)
      case CallSigner(q) => AfterSigner(sign, s, q)
      // Only the vote table is looked up again when the quota is used up.
      case Exhausted(q) =>
        Finished(s, q, if s.pending[q].request.service == "vote_ballot" then Replay(s, s.pending[q].request) else [])
      case Commit(q) => AfterCommit(s, q)
      case Abort(q) => Finished(s, q, [])
  }

  function Run(sign: Signer, s: State, events: seq<Event>): State
    decreases events
  {
    if events == [] then s else Run(sign, Next(sign, s, events[0]), events[1..])
  }

  // Invariant

  predicate HasRecord(p: Progress) {
    p.Holding? || p.Signed?
  }

  /** The signer may use the record for this request: it was made for it, and it had not lapsed. */
  predicate Proper(created: Store, r: Request, record: Record) {
    && r.commitmentId in created && record == created[r.commitmentId].(consumed := true)
    && record.id == r.commitmentId
    && BoundTo(record, r.user, r.service, r.period) && Live(record, r.now)
  }

  predicate StoreOk(s: State) {
    forall id :: id in s.store ==> id in s.created && s.store[id] == s.created[id]
  }

  predicate CreatedOk(created: Store) {
    && (forall id :: id in created ==> created[id].id == id)
    && (forall i, j :: i in created && j in created && created[i].k == created[j].k ==> i == j)
  }

  /** A commitment in some request's hands is not in the store. */
  predicate HeldOk(s: State, q: nat)
    requires q in s.pending
  {
    var p := s.pending[q];
    HasRecord(p) ==> Proper(s.created, p.request, p.record) && p.request.commitmentId !in s.store
  }

  predicate Apart(s: State, p: nat, q: nat)
    requires p in s.pending && q in s.pending
  {
    HasRecord(s.pending[p]) && HasRecord(s.pending[q]) ==>
      s.pending[p].request.commitmentId != s.pending[q].request.commitmentId
  }

  /** A used commitment is neither in the store nor in the hands of a request that has not signed. */
  predicate UsedOk(s: State, g: Signing) {
    && Proper(s.created, g.request, g.record) && g.request.commitmentId !in s.store
    && forall q :: q in s.pending && s.pending[q].Holding? ==>
              s.pending[q].request.commitmentId != g.request.commitmentId
  }

  predicate Explains(g: Signing, key: Key, row: Row) {
    KeyOf(g.request) == key && Replays(row, g.request) && g.result == Some(row.signature)
  }

  /** Some call of the signer, for a request with this key, gave this signature. */
  predicate Explained(signings: seq<Signing>, key: Key, row: Row) {
    exists i :: 0 <= i < |signings| && Explains(signings[i], key, row)
  }

  predicate SignedOk(s: State, q: nat)
    requires q in s.pending
  {
    var p := s.pending[q];
    p.Signed? ==> Explained(s.signings, KeyOf(p.request), Row(p.request.keyHash, p.request.requestHash, p.signature))
  }

  predicate Answered(rows: map<Key, Row>, a: Response) {
    KeyOf(a.request) in rows && rows[KeyOf(a.request)].signature == a.signature &&
    Replays(rows[KeyOf(a.request)], a.request)
  }

  predicate SignedOnce(signings: seq<Signing>) {
    forall i, j :: 0 <= i < j < |signings| ==> signings[i].request.commitmentId != signings[j].request.commitmentId
  }

  predicate Genuine(sign: Signer, g: Signing) {
    g.result == sign(g.record.k, g.request.cPrime)
  }

  ghost predicate CommitmentsOk(s: State) {
    && StoreOk(s) && CreatedOk(s.created)
    && (forall q :: q in s.pending ==> HeldOk(s, q))
    && (forall p, q :: p in s.pending && q in s.pending && p != q ==> Apart(s, p, q))
    && (forall i :: 0 <= i < |s.signings| ==> UsedOk(s, s.signings[i]))
    && SignedOnce(s.signings)
  }

  /** The signature of this row was handed out. */
  predicate HandedOut(responses: seq<Response>, key: Key) {
    exists i :: 0 <= i < |responses| && KeyOf(responses[i].request) == key
  }

  ghost predicate IssuesOk(sign: Signer, s: State) {
    && (forall q :: q in s.pending ==> SignedOk(s, q))
    && (forall key :: key in s.rows ==> Explained(s.signings, key, s.rows[key]))
    && (forall key :: key in s.rows ==> HandedOut(s.responses, key))
    && (forall i :: 0 <= i < |s.responses| ==> Answered(s.rows, s.responses[i]))
    && (forall i :: 0 <= i < |s.signings| ==> Genuine(sign, s.signings[i]))
  }

  ghost predicate Inv(sign: Signer, s: State) {
    CommitmentsOk(s) && IssuesOk(sign, s)
  }

  lemma InitialOk(sign: Signer)
    ensures Inv(sign, INITIAL)
  {
  }

  /** Nothing that happened is forgotten, no issued row changes, and a spent commitment never comes back. */
  ghost predicate Extends(s: State, t: State) {
    && s.signings <= t.signings && s.responses <= t.responses
    && (forall key :: key in s.rows ==> key in t.rows && t.rows[key] == s.rows[key])
    && (forall id :: id in s.created ==> id in t.created && t.created[id] == s.created[id])
    && (forall id :: id in s.created && id !in s.store ==> id !in t.store)
  }

  // Commitments, step by step

  lemma CreateSafe(s: State, record: Record, now: int)
    requires CommitmentsOk(s) && Fresh(s.created, record) && !record.consumed
    ensures CommitmentsOk(s.(store := Cleaned(s.store, now)[record.id := record],
                             created := s.created[record.id := record]))
  {
    hide Stale, Proper, SignedOnce;
    var t := s.(store := Cleaned(s.store, now)[record.id := record], created := s.created[record.id := record]);
    forall q | q in t.pending ensures HeldOk(t, q) {
      assert HeldOk(s, q);
      if HasRecord(s.pending[q]) { ProperGrows(s.created, record, s.pending[q]); }
    }
    forall p, q | p in t.pending && q in t.pending && p != q ensures Apart(t, p, q) { assert Apart(s, p, q); }
    forall i | 0 <= i < |t.signings| ensures UsedOk(t, t.signings[i]) {
      assert UsedOk(s, s.signings[i]);
      ProperGrows(s.created, record, Holding(s.signings[i].request, s.signings[i].record));
    }
  }

  /** A commitment made later has another id, so it disturbs no use of an earlier one. */
  lemma ProperGrows(created: Store, record: Record, p: Progress)
    requires record.id !in created && HasRecord(p) && Proper(created, p.request, p.record)
    ensures Proper(created[record.id := record], p.request, p.record) && p.request.commitmentId != record.id
  {
    hide BoundTo, Live;
  }

  /** Removing a commitment from the store is always safe. */
  lemma RemoveSafe(s: State, id: Bytes)
    requires CommitmentsOk(s)
    ensures CommitmentsOk(s.(store := Without(s.store, id)))
  {
    hide Proper;
    var t := s.(store := Without(s.store, id));
    forall q | q in t.pending ensures HeldOk(t, q) { assert HeldOk(s, q); }
    forall p, q | p in t.pending && q in t.pending && p != q ensures Apart(t, p, q) { assert Apart(s, p, q); }
    forall i | 0 <= i < |t.signings| ensures UsedOk(t, t.signings[i]) { assert UsedOk(s, s.signings[i]); }
  }

  lemma BeginSafe(s: State, q: nat, r: Request)
    requires CommitmentsOk(s) && q !in s.pending
    ensures CommitmentsOk(s.(pending := s.pending[q := Checked(r)]))
  {
    hide Proper;
    var t := s.(pending := s.pending[q := Checked(r)]);
    forall p | p in t.pending ensures HeldOk(t, p) { assert p in s.pending ==> HeldOk(s, p); }
    forall o, p | o in t.pending && p in t.pending && o != p ensures Apart(t, o, p) {
      assert o in s.pending && p in s.pending ==> Apart(s, o, p);
    }
    forall i | 0 <= i < |t.signings| ensures UsedOk(t, t.signings[i]) { assert UsedOk(s, s.signings[i]); }
  }

  lemma FinishSafe(s: State, q: nat, answer: seq<Response>)
    requires CommitmentsOk(s)
    ensures CommitmentsOk(Finished(s, q, answer))
  {
    hide Proper;
    var t := Finished(s, q, answer);
    forall p | p in t.pending ensures HeldOk(t, p) { assert HeldOk(s, p); }
    forall o, p | o in t.pending && p in t.pending && o != p ensures Apart(t, o, p) { assert Apart(s, o, p); }
    forall i | 0 <= i < |t.signings| ensures UsedOk(t, t.signings[i]) { assert UsedOk(s, s.signings[i]); }
  }

  /** Taking a commitment out of the store, for a request that may use it. */
  lemma TakeSafe(s: State, q: nat, record: Record)
    requires CommitmentsOk(s) && q in s.pending && s.pending[q].Checked?
    requires var r := s.pending[q].request; r.commitmentId in s.store && Proper(s.created, r, record)
    ensures var r := s.pending[q].request;
      CommitmentsOk(s.(store := Without(s.store, r.commitmentId), pending := s.pending[q := Holding(r, record)]))
  {
    hide Proper;
    var r := s.pending[q].request;
    var t := s.(store := Without(s.store, r.commitmentId), pending := s.pending[q := Holding(r, record)]);
    forall p | p in t.pending ensures HeldOk(t, p) { assert HeldOk(s, p); }
    forall o, p | o in t.pending && p in t.pending && o != p ensures Apart(t, o, p) {
      assert HeldOk(s, o) && HeldOk(s, p) && Apart(s, o, p);
    }
    forall i | 0 <= i < |t.signings| ensures UsedOk(t, t.signings[i]) { assert UsedOk(s, s.signings[i]); }
  }

  lemma ConsumedIsProper(s: State, r: Request)
    requires StoreOk(s) && CreatedOk(s.created)
    ensures var t := Consumption(s.store, r.commitmentId, r.user, r.service, r.period, r.now);
      t.Consumed? ==>
        && r.commitmentId in s.store && Proper(s.created, r, t.record) && t.record.id == r.commitmentId
        && t.record.user == r.user && t.record.service == r.service && t.record.period == r.period
        && r.now < t.record.expiresAt
  {
  }

  lemma ConsumeSafe(s: State, q: nat)
    requires CommitmentsOk(s) && q in s.pending && s.pending[q].Checked?
    ensures CommitmentsOk(AfterConsume(s, q))
  {
    var r := s.pending[q].request;
    ConsumedIsProper(s, r);
    hide CommitmentsOk, Proper, Consumption;
    var t := Consumption(s.store, r.commitmentId, r.user, r.service, r.period, r.now);
    if t.Consumed? {
      TakeSafe(s, q, t.record);
    } else if t.Expired? {
      RemoveSafe(s, r.commitmentId);
      FinishSafe(s.(store := Without(s.store, r.commitmentId)), q, []);
    } else {
      FinishSafe(s, q, []);
    }
  }

  /** A call of the signer: the request moves on, and its commitment counts as used. */
  lemma SpendSafe(s: State, q: nat, result: Option<Sig>, signature: Sig)
    requires CommitmentsOk(s) && q in s.pending && s.pending[q].Holding?
    ensures var p := s.pending[q];
      CommitmentsOk(s.(signings := s.signings + [Signing(p.request, p.record, result)],
                       pending := s.pending[q := Signed(p.request, p.record, signature)]))
  {
    hide Proper;
    var p := s.pending[q];
    var g := Signing(p.request, p.record, result);
    var t := s.(signings := s.signings + [g], pending := s.pending[q := Signed(p.request, p.record, signature)]);
    assert HeldOk(s, q);
    forall o | o in t.pending ensures HeldOk(t, o) { assert HeldOk(s, o); }
    forall o, o' | o in t.pending && o' in t.pending && o != o' ensures Apart(t, o, o') { assert Apart(s, o, o'); }
    forall i | 0 <= i < |t.signings| ensures UsedOk(t, t.signings[i]) {
      if i < |s.signings| { assert UsedOk(s, s.signings[i]); } else { OthersApart(s, q); }
    }
    forall i | 0 <= i < |s.signings| ensures s.signings[i].request.commitmentId != g.request.commitmentId {
      assert UsedOk(s, s.signings[i]);
    }
  }

  lemma OthersApart(s: State, q: nat)
    requires CommitmentsOk(s) && q in s.pending && s.pending[q].Holding?
    ensures forall o :: o in s.pending && o != q && s.pending[o].Holding? ==>
              s.pending[o].request.commitmentId != s.pending[q].request.commitmentId
  {
    hide Proper, UsedOk, HeldOk, StoreOk, CreatedOk, SignedOnce;
    forall o | o in s.pending && o != q && s.pending[o].Holding?
      ensures s.pending[o].request.commitmentId != s.pending[q].request.commitmentId
    {
      assert Apart(s, o, q);
    }
  }

  lemma SignerSafe(sign: Signer, s: State, q: nat)
    requires CommitmentsOk(s) && q in s.pending && s.pending[q].Holding?
    ensures CommitmentsOk(AfterSigner(sign, s, q))
  {
    hide CommitmentsOk;
    var p := s.pending[q];
    var result := sign(p.record.k, p.request.cPrime);
    if result.Some? {
      SpendSafe(s, q, result, result.value);
    } else {
      SpendSafe(s, q, result, []);
      var u := s.(signings := s.signings + [Signing(p.request, p.record, result)],
                  pending := s.pending[q := Signed(p.request, p.record, [])]);
      FinishSafe(u, q, []);
      assert Without(u.pending, q) == Without(s.pending, q);
    }
  }

  // Issued signatures, step by step

  lemma ExplainedGrows(signings: seq<Signing>, g: Signing, key: Key, row: Row)
    requires Explained(signings, key, row)
    ensures Explained(signings + [g], key, row)
  {
    var i :| 0 <= i < |signings| && Explains(signings[i], key, row);
    assert (signings + [g])[i] == signings[i];
  }

  lemma HandedOutGrows(responses: seq<Response>, more: seq<Response>, key: Key)
    requires HandedOut(responses, key) && responses <= more
    ensures HandedOut(more, key)
  {
    var i :| 0 <= i < |responses| && KeyOf(responses[i].request) == key;
    assert more[i] == responses[i];
  }

  /** Steps that only move requests which have not signed, or end them, and answer only from the table. */
  lemma QuietIssues(sign: Signer, s: State, t: State)
    requires IssuesOk(sign, s)
    requires t.rows == s.rows && t.signings == s.signings
    requires forall q :: q in t.pending && t.pending[q].Signed? ==> q in s.pending && t.pending[q] == s.pending[q]
    requires s.responses <= t.responses
    requires forall i :: |s.responses| <= i < |t.responses| ==> Answered(t.rows, t.responses[i])
    ensures IssuesOk(sign, t)
  {
    hide Explained, Answered, Genuine, HandedOut;
    forall key | key in t.rows ensures HandedOut(t.responses, key) { HandedOutGrows(s.responses, t.responses, key); }
    forall q | q in t.pending ensures SignedOk(t, q) { assert q in s.pending ==> SignedOk(s, q); }
    forall i | 0 <= i < |t.responses| ensures Answered(t.rows, t.responses[i]) {
      assert i < |s.responses| ==> t.responses[i] == s.responses[i];
    }
  }

  lemma ReplayAnswers(s: State, r: Request)
    ensures forall i :: 0 <= i < |Replay(s, r)| ==> Answered(s.rows, Replay(s, r)[i])
  {
  }

  lemma FinishIssues(sign: Signer, s: State, q: nat, r: Request)
    requires IssuesOk(sign, s)
    ensures IssuesOk(sign, Finished(s, q, []))
    ensures IssuesOk(sign, Finished(s, q, Replay(s, r)))
  {
    hide IssuesOk, Answered;
    ReplayAnswers(s, r);
    QuietIssues(sign, s, Finished(s, q, []));
    QuietIssues(sign, s, Finished(s, q, Replay(s, r)));
  }

  lemma ConsumeIssues(sign: Signer, s: State, q: nat)
    requires IssuesOk(sign, s) && q in s.pending && s.pending[q].Checked?
    ensures IssuesOk(sign, AfterConsume(s, q))
  {
    hide IssuesOk, Answered, Consumption, AfterConsumption;
    QuietIssues(sign, s, AfterConsume(s, q));
  }

  lemma SignerIssues(sign: Signer, s: State, q: nat)
    requires IssuesOk(sign, s) && q in s.pending && s.pending[q].Holding?
    ensures IssuesOk(sign, AfterSigner(sign, s, q))
  {
    hide Explained, Answered, HandedOut;
    var t, p := AfterSigner(sign, s, q), s.pending[q];
    var g := Signing(p.request, p.record, sign(p.record.k, p.request.cPrime));
    forall o | o in t.pending ensures SignedOk(t, o) {
      if o == q { NewlyExplained(s.signings, g); } else if t.pending[o].Signed? {
        assert SignedOk(s, o);
        var r := t.pending[o].request;
        ExplainedGrows(s.signings, g, KeyOf(r), Row(r.keyHash, r.requestHash, t.pending[o].signature));
      }
    }
    forall key | key in t.rows ensures Explained(t.signings, key, t.rows[key]) {
      ExplainedGrows(s.signings, g, key, s.rows[key]);
    }
    forall key | key in t.rows ensures HandedOut(t.responses, key) {
      HandedOutGrows(s.responses, t.responses, key);
    }
  }

  lemma NewlyExplained(signings: seq<Signing>, g: Signing)
    ensures g.result.Some? ==>
              Explained(signings + [g], KeyOf(g.request), Row(g.request.keyHash, g.request.requestHash, g.result.value))
  {
    assert (signings + [g])[|signings|] == g;
  }

  lemma CommitHandsOut(sign: Signer, s: State, q: nat)
    requires IssuesOk(sign, s) && q in s.pending && s.pending[q].Signed?
    requires KeyOf(s.pending[q].request) !in s.rows
    ensures forall k :: k in AfterCommit(s, q).rows ==> HandedOut(AfterCommit(s, q).responses, k)
  {
    var p, t := s.pending[q], AfterCommit(s, q);
    var key := KeyOf(p.request);
    assert t.responses[|s.responses|] == Response(p.request, p.signature);
    assert HandedOut(t.responses, key);
    hide Explained, HandedOut, Answered, SignedOk;
    forall k | k in t.rows ensures HandedOut(t.responses, k) {
      if k != key { HandedOutGrows(s.responses, t.responses, k); }
    }
  }

  lemma CommitAnswers(sign: Signer, s: State, q: nat)
    requires IssuesOk(sign, s) && q in s.pending && s.pending[q].Signed?
    requires KeyOf(s.pending[q].request) !in s.rows
    ensures var t := AfterCommit(s, q); forall i :: 0 <= i < |t.responses| ==> Answered(t.rows, t.responses[i])
  {
    var t := AfterCommit(s, q);
    hide Explained, HandedOut, SignedOk;
    forall i | 0 <= i < |t.responses| ensures Answered(t.rows, t.responses[i]) {
      assert i < |s.responses| ==> Answered(s.rows, s.responses[i]);
    }
  }

  /** The unique key and the rollback keep one signature per key. */
  lemma CommitIssues(sign: Signer, s: State, q: nat)
    requires IssuesOk(sign, s) && q in s.pending && s.pending[q].Signed?
    ensures IssuesOk(sign, AfterCommit(s, q))
  {
    var p, t := s.pending[q], AfterCommit(s, q);
    var key := KeyOf(p.request);
    if key in s.rows {
      FinishIssues(sign, s, q, p.request);
    } else {
      assert SignedOk(s, q);
      CommitHandsOut(sign, s, q);
      CommitAnswers(sign, s, q);
      hide Explained, HandedOut, Answered;
      forall o | o in t.pending ensures SignedOk(t, o) { assert SignedOk(s, o); }
    }
  }

  // Runs

  lemma NextCommitments(sign: Signer, s: State, e: Event)
    requires CommitmentsOk(s)
    ensures CommitmentsOk(Next(sign, s, e))
  {
    hide CommitmentsOk;
    if Enabled(s, e) {
      match e
      case Create(record, now) => CreateSafe(s, record, now);
      case Get(id, at) => RemoveSafe(s, id);
      case Begin(q, request, sees) =>
        BeginSafe(s, q, request);
        FinishSafe(s, q, Replay(s, request));
        assert sees ==> Without(s.pending, q) == s.pending;
      case Consume(q) => ConsumeSafe(s, q);
      case CallSigner(q) => SignerSafe(sign, s, q);
      case Exhausted(q) =>
        FinishSafe(s, q, Replay(s, s.pending[q].request));
        FinishSafe(s, q, []);
      case Commit(q) => CommitCommitments(s, q);
      case Abort(q) => FinishSafe(s, q, []);
    }
  }

  lemma CommitCommitments(s: State, q: nat)
    requires CommitmentsOk(s) && q in s.pending && s.pending[q].Signed?
    ensures CommitmentsOk(AfterCommit(s, q))
  {
    var p := s.pending[q];
    FinishSafe(s, q, Replay(s, p.request));
    FinishSafe(s, q, [Response(p.request, p.signature)]);
    hide Proper, StoreOk, CreatedOk, SignedOnce;
    if KeyOf(p.request) !in s.rows {
      var t, u := AfterCommit(s, q), Finished(s, q, [Response(p.request, p.signature)]);
      SameCommitments(u, t);
    }
  }

  lemma SameCommitments(s: State, t: State)
    requires CommitmentsOk(s) && t.(rows := s.rows, responses := s.responses) == s
    ensures CommitmentsOk(t)
  {
    hide Proper, SignedOnce, CreatedOk;
    forall p | p in t.pending ensures HeldOk(t, p) { assert HeldOk(s, p); }
    forall o, p | o in t.pending && p in t.pending && o != p ensures Apart(t, o, p) { assert Apart(s, o, p); }
    forall i | 0 <= i < |t.signings| ensures UsedOk(t, t.signings[i]) { assert UsedOk(s, s.signings[i]); }
  }

  lemma NextIssues(sign: Signer, s: State, e: Event)
    requires IssuesOk(sign, s)
    ensures IssuesOk(sign, Next(sign, s, e))
  {
    hide IssuesOk, Answered;
    if Enabled(s, e) {
      match e
      case Create(record, now) => QuietIssues(sign, s, Next(sign, s, e));
      case Get(id, at) => QuietIssues(sign, s, Next(sign, s, e));
      case Begin(q, request, sees) =>
        ReplayAnswers(s, request);
        QuietIssues(sign, s, Next(sign, s, e));
      case Consume(q) => ConsumeIssues(sign, s, q);
      case CallSigner(q) => SignerIssues(sign, s, q);
      case Exhausted(q) => FinishIssues(sign, s, q, s.pending[q].request);
      case Commit(q) => CommitIssues(sign, s, q);
      case Abort(q) => FinishIssues(sign, s, q, s.pending[q].request);
    }
  }

  lemma NextExtends(sign: Signer, s: State, e: Event)
    ensures Extends(s, Next(sign, s, e))
  {
    hide Extends, Cleaned, AfterConsume, AfterSigner, AfterCommit, Replay, Finished;
    Reflexive(s);
    if Enabled(s, e) {
      match e
      case Create(record, now) => CreateExtends(s, record, now);
      case Get(id, at) => RemoveExtends(s, id);
      case Begin(q, request, sees) => BeginExtends(s, q, request);
      case Consume(q) => ConsumeExtends(s, q);
      case CallSigner(q) => SignerExtends(sign, s, q);
      case Exhausted(q) =>
        FinishExtends(s, q, []);
        FinishExtends(s, q, Replay(s, s.pending[q].request));
      case Commit(q) => CommitExtends(s, q);
      case Abort(q) => FinishExtends(s, q, []);
    }
  }

  lemma CreateExtends(s: State, record: Record, now: int)
    requires Fresh(s.created, record)
    ensures Extends(s, s.(store := Cleaned(s.store, now)[record.id := record],
                          created := s.created[record.id := record]))
  {
    hide Stale;
  }

  lemma RemoveExtends(s: State, id: Bytes)
    ensures Extends(s, s.(store := Without(s.store, id)))
  {
  }

  lemma BeginExtends(s: State, q: nat, r: Request)
    ensures Extends(s, s.(pending := s.pending[q := Checked(r)]))
    ensures Extends(s, s.(responses := s.responses + Replay(s, r)))
  {
    hide Replay;
  }

  lemma FinishExtends(s: State, q: nat, answer: seq<Response>)
    ensures Extends(s, Finished(s, q, answer))
  {
  }

  lemma ConsumeExtends(s: State, q: nat)
    requires q in s.pending
    ensures Extends(s, AfterConsume(s, q))
  {
    hide Consumption;
  }

  lemma SignerExtends(sign: Signer, s: State, q: nat)
    requires q in s.pending && s.pending[q].Holding?
    ensures Extends(s, AfterSigner(sign, s, q))
  {
  }

  lemma CommitExtends(s: State, q: nat)
    requires q in s.pending && s.pending[q].Signed?
    ensures Extends(s, AfterCommit(s, q))
  {
    hide Replay;
  }

  /** Every step keeps the invariant and only adds to history. */
  lemma {:induction false} RunSafe(sign: Signer, s: State, events: seq<Event>)
    requires Inv(sign, s)
    ensures Inv(sign, Run(sign, s, events)) && Extends(s, Run(sign, s, events))
    decreases events
  {
    hide CommitmentsOk, IssuesOk, Next;
    if events != [] {
      var t := Next(sign, s, events[0]);
      NextCommitments(sign, s, events[0]);
      NextIssues(sign, s, events[0]);
      NextExtends(sign, s, events[0]);
      RunSafe(sign, t, events[1..]);
      ExtendsChain(s, t, Run(sign, t, events[1..]));
    }
  }

  lemma ExtendsChain(s: State, t: State, u: State)
    requires Extends(s, t) && Extends(t, u)
    ensures Extends(s, u)
  {
  }

  /** In every interleaving of creation, lookup, consumption, cleanup, signing, commits, rollbacks and crashes:
      the signer is called with each commitment, and so with each scalar, at most once; it was made for the
      request's user, service and period; and it had not lapsed at the request's time. */
  lemma NonceUsedOnce(sign: Signer, events: seq<Event>, i: nat, j: nat)
    requires i < |Run(sign, INITIAL, events).signings| && j < |Run(sign, INITIAL, events).signings|
    ensures var s := Run(sign, INITIAL, events);
      var g := s.signings[i];
      && (i != j ==> g.record.id != s.signings[j].record.id && g.record.k != s.signings[j].record.k)
      && g.record.id in s.created && g.record.k == s.created[g.record.id].k
      && g.record.id == g.request.commitmentId && g.record.user == g.request.user
      && g.record.service == g.request.service && g.record.period == g.request.period
      && g.request.now < g.record.expiresAt
      && g.result == sign(g.record.k, g.request.cPrime)
  {
    InitialOk(sign);
    RunSafe(sign, INITIAL, events);
    var s := Run(sign, INITIAL, events);
    assert UsedOk(s, s.signings[i]) && UsedOk(s, s.signings[j]) && Genuine(sign, s.signings[i]);
    hide Run;
  }

  /** A commitment that has left the store, by use or by age, is never handed out again. */
  lemma SpentForever(sign: Signer, before: seq<Event>, after: seq<Event>, id: Bytes, r: Request)
    requires var s := Run(sign, INITIAL, before); id in s.created && id !in s.store
    ensures var t := Run(sign, Run(sign, INITIAL, before), after);
      Consumption(t.store, id, r.user, r.service, r.period, r.now) == NotFound
  {
    InitialOk(sign);
    RunSafe(sign, INITIAL, before);
    RunSafe(sign, Run(sign, INITIAL, before), after);
  }

  /** Whatever was handed out for one key, and for a vote that is one user and one vote, is one signature,
      given for one pair of hashes, and made by one call of the signer for that very key. */
  lemma OneSignaturePerKey(sign: Signer, events: seq<Event>, i: nat, j: nat)
    requires var s := Run(sign, INITIAL, events);
      i < |s.responses| && j < |s.responses| && KeyOf(s.responses[i].request) == KeyOf(s.responses[j].request)
    ensures var s := Run(sign, INITIAL, events);
      var a, b := s.responses[i], s.responses[j];
      && a.signature == b.signature && a.request.keyHash == b.request.keyHash
      && a.request.requestHash == b.request.requestHash
      && Explained(s.signings, KeyOf(a.request), Row(a.request.keyHash, a.request.requestHash, a.signature))
  {
    InitialOk(sign);
    RunSafe(sign, INITIAL, events);
    hide Run, Explained;
    var s := Run(sign, INITIAL, events);
    assert Answered(s.rows, s.responses[i]) && Answered(s.rows, s.responses[j]);
    var key := KeyOf(s.responses[i].request);
    assert s.rows[key] ==
           Row(s.responses[i].request.keyHash, s.responses[i].request.requestHash, s.responses[i].signature);
  }

  /** Two requests for the same thing: for a vote, the same user and the same vote, whatever the idempotency
      key; for another service, the same user, service, period and idempotency key. */
  predicate SameIssue(r: Request, t: Request) {
    && r.user == t.user && r.service == t.service && r.period == t.period
    && (r.service == "vote_ballot" || r.keyHash == t.keyHash)
  }

  lemma KeyIsColumns(r: Request, t: Request)
    ensures KeyOf(r) == KeyOf(t) <==> SameIssue(r, t)
  {
  }

  /** In every run a user is handed at most one signature for a vote, whatever idempotency keys the requests
      carry: all are answers to one pair of hashes. */
  lemma OneSignaturePerVote(sign: Signer, events: seq<Event>, i: nat, j: nat)
    requires var s := Run(sign, INITIAL, events); i < |s.responses| && j < |s.responses|
    ensures var s := Run(sign, INITIAL, events);
      var a, b := s.responses[i], s.responses[j];
      a.request.service == "vote_ballot" && b.request.service == "vote_ballot"
      && a.request.user == b.request.user && a.request.period == b.request.period ==>
        && a.signature == b.signature && a.request.keyHash == b.request.keyHash
        && a.request.requestHash == b.request.requestHash
  {
    hide Run;
    var s := Run(sign, INITIAL, events);
    KeyIsColumns(s.responses[i].request, s.responses[j].request);
    if SameIssue(s.responses[i].request, s.responses[j].request) { OneSignaturePerKey(sign, events, i, j); }
  }

  /** And for another service, at most one for each period and idempotency key. */
  lemma OneSignaturePerCredential(sign: Signer, events: seq<Event>, i: nat, j: nat)
    requires var s := Run(sign, INITIAL, events); i < |s.responses| && j < |s.responses|
    ensures var s := Run(sign, INITIAL, events);
      var a, b := s.responses[i], s.responses[j];
      a.request.service == b.request.service && a.request.user == b.request.user
      && a.request.period == b.request.period && a.request.keyHash == b.request.keyHash ==>
        a.signature == b.signature && a.request.requestHash == b.request.requestHash
  {
    hide Run;
    var s := Run(sign, INITIAL, events);
    KeyIsColumns(s.responses[i].request, s.responses[j].request);
    if SameIssue(s.responses[i].request, s.responses[j].request) { OneSignaturePerKey(sign, events, i, j); }
  }

  // One request

  datatype Outcome = Issued(signature: Sig) | Conflict | InvalidCommitment | QuotaExhausted | Unavailable

  datatype Quota = Granted | UsedUp

  /** What other workers do between two steps of this request: they keep the invariant and leave it alone. */
  type Interference = (nat, State) -> State

  ghost predicate Cooperates(sign: Signer, q: nat, s: State, t: State) {
    && Inv(sign, t) && Extends(s, t)
    && (q in t.pending <==> q in s.pending) && (q in s.pending ==> t.pending[q] == s.pending[q])
  }

  ghost predicate Cooperative(sign: Signer, q: nat, others: Interference) {
    forall n, s :: Inv(sign, s) ==> Cooperates(sign, q, s, others(n, s))
  }

  lemma Reflexive(s: State)
    ensures Extends(s, s)
  {
  }

  ghost predicate Quiet(others: Interference) {
    forall n, s :: others(n, s) == s
  }

  predicate Stored(s: State, r: Request) {
    KeyOf(r) in s.rows
  }

  /** What a request is answered when it runs alone. */
  function AnswerAlone(sign: Signer, s: State, r: Request, quota: Quota, keyAvailable: bool): Outcome {
    if Stored(s, r) then
      (if Replays(s.rows[KeyOf(r)], r) then Issued(s.rows[KeyOf(r)].signature) else Conflict)
    else
      match Consumption(s.store, r.commitmentId, r.user, r.service, r.period, r.now)
      case Consumed(record) =>
        if quota.UsedUp? then QuotaExhausted
        else if !keyAvailable || sign(record.k, r.cPrime).None? then Unavailable
        else Issued(sign(record.k, r.cPrime).value)
      case _ => InvalidCommitment
  }

  /** The same, from the moment the commitment has been taken. */
  function SignAlone(sign: Signer, s: State, r: Request, record: Record, quota: Quota, keyAvailable: bool): Outcome {
    var known := Stored(s, r);
    var stored := if known then (if Replays(s.rows[KeyOf(r)], r) then Issued(s.rows[KeyOf(r)].signature) else Conflict)
                  else QuotaExhausted;
    if quota.UsedUp? then (if r.service == "vote_ballot" then stored else QuotaExhausted)
    else if !keyAvailable || sign(record.k, r.cPrime).None? then Unavailable
    else if known then stored
    else Issued(sign(record.k, r.cPrime).value)
  }

  /** What it leaves in the store and the table: a new row exactly when it issues something new, and the
      commitment spent whenever it was taken, whatever became of the request. */
  predicate LeftAlone(sign: Signer, s: State, t: State, r: Request, o: Outcome) {
    if Stored(s, r) then t.rows == s.rows && t.store == s.store
    else
      && t.store == AfterConsumption(s.store, r.commitmentId,
                                     Consumption(s.store, r.commitmentId, r.user, r.service, r.period, r.now))
      && t.rows == if o.Issued? then s.rows[KeyOf(r) := Row(r.keyHash, r.requestHash, o.signature)] else s.rows
  }

  /** A request for the same thing was signed before, with these hashes. */
  predicate IssuedBefore(s: State, r: Request, keyHash: Bytes, requestHash: Bytes, i: nat) {
    && i < |s.signings| && SameIssue(s.signings[i].request, r) && s.signings[i].result.Some?
    && s.signings[i].request.keyHash == keyHash && s.signings[i].request.requestHash == requestHash
  }

  /** A stored row was signed for a request for the same thing: nothing else is in a request's way. */
  lemma StoredWasSigned(sign: Signer, s: State, r: Request)
    requires Inv(sign, s) && Stored(s, r)
    ensures var row := s.rows[KeyOf(r)]; exists i :: IssuedBefore(s, r, row.keyHash, row.requestHash, i)
  {
    hide CommitmentsOk;
    var row := s.rows[KeyOf(r)];
    assert Explained(s.signings, KeyOf(r), row);
    var i :| 0 <= i < |s.signings| && Explains(s.signings[i], KeyOf(r), row);
    KeyIsColumns(s.signings[i].request, r);
    assert IssuedBefore(s, r, row.keyHash, row.requestHash, i);
  }

  /** A signature handed out for the same thing is in the table. */
  lemma AnsweredIsStored(sign: Signer, s: State, r: Request, i: nat)
    requires Inv(sign, s) && i < |s.responses| && SameIssue(s.responses[i].request, r)
    ensures var b := s.responses[i];
      Stored(s, r) && s.rows[KeyOf(r)] == Row(b.request.keyHash, b.request.requestHash, b.signature)
  {
    hide CommitmentsOk;
    assert Answered(s.rows, s.responses[i]);
    KeyIsColumns(s.responses[i].request, r);
  }

  /** What a request that nobody disturbs is answered, by what was handed out before. For the same thing the
      stored signature comes back to the same request, and any other meets a conflict. */
  predicate AnswersRepeat(s: State, r: Request, o: Outcome) {
    forall i :: 0 <= i < |s.responses| && SameIssue(s.responses[i].request, r) ==>
      var b := s.responses[i];
      o == if b.request.keyHash == r.keyHash && b.request.requestHash == r.requestHash then Issued(b.signature)
           else Conflict
  }

  /** Nothing was handed out for the same thing yet. */
  predicate NothingIssued(s: State, r: Request) {
    forall i :: 0 <= i < |s.responses| ==> !SameIssue(s.responses[i].request, r)
  }

  /** Then the commitment, the quota, the key and the signer decide, in this order; whatever was issued to
      others, or to this user for other things, does not matter. */
  predicate AnswersFirst(sign: Signer, s: State, r: Request, quota: Quota, keyAvailable: bool, o: Outcome) {
    if r.commitmentId !in s.store then o == InvalidCommitment
    else
      var record := s.store[r.commitmentId];
      if r.now >= record.expiresAt || record.user != r.user || record.service != r.service || record.period != r.period
      then o == InvalidCommitment
      else if quota.UsedUp? then o == QuotaExhausted
      else if !keyAvailable || sign(record.k, r.cPrime).None? then o == Unavailable
      else o == Issued(sign(record.k, r.cPrime).value)
  }

  lemma AloneAnswers(sign: Signer, s: State, r: Request, quota: Quota, keyAvailable: bool)
    requires Inv(sign, s)
    ensures var o := AnswerAlone(sign, s, r, quota, keyAvailable);
      && AnswersRepeat(s, r, o)
      && (NothingIssued(s, r) ==> AnswersFirst(sign, s, r, quota, keyAvailable, o))
  {
    hide Inv;
    var o := AnswerAlone(sign, s, r, quota, keyAvailable);
    forall i | 0 <= i < |s.responses| && SameIssue(s.responses[i].request, r)
      ensures var b := s.responses[i];
        o == if b.request.keyHash == r.keyHash && b.request.requestHash == r.requestHash then Issued(b.signature)
             else Conflict
    {
      AnsweredIsStored(sign, s, r, i);
    }
    if Stored(s, r) { StoredWasHandedOut(sign, s, r); }
  }

  lemma StoredWasHandedOut(sign: Signer, s: State, r: Request)
    requires Inv(sign, s) && Stored(s, r)
    ensures !NothingIssued(s, r)
  {
    hide CommitmentsOk;
    assert HandedOut(s.responses, KeyOf(r));
    var i :| 0 <= i < |s.responses| && KeyOf(s.responses[i].request) == KeyOf(r);
    KeyIsColumns(s.responses[i].request, r);
  }

  lemma StepExhausted(sign: Signer, s: State, q: nat)
    requires q in s.pending && s.pending[q].Holding?
    ensures var r := s.pending[q].request;
      Next(sign, s, Exhausted(q)) == Finished(s, q, if r.service == "vote_ballot" then Replay(s, r) else [])
  {
  }

  lemma StepAbort(sign: Signer, s: State, q: nat)
    requires q in s.pending
    ensures Next(sign, s, Abort(q)) == Finished(s, q, [])
  {
  }

  lemma StepSigner(sign: Signer, s: State, q: nat)
    requires q in s.pending && s.pending[q].Holding?
    ensures Next(sign, s, CallSigner(q)) == AfterSigner(sign, s, q)
  {
  }

  lemma StepCommit(sign: Signer, s: State, q: nat)
    requires q in s.pending && s.pending[q].Signed?
    ensures Next(sign, s, Commit(q)) == AfterCommit(s, q)
  {
  }

  class IssuanceService {
    var state: State

    /** `issue`, of both services, after its own validation; `q` names the request among those in flight. */
    method Issue(sign: Signer, q: nat, r: Request, quota: Quota, keyAvailable: bool, others: Interference)
      returns (o: Outcome)
      requires Inv(sign, state) && q !in state.pending && Cooperative(sign, q, others)
      modifies this
      ensures Inv(sign, state) && Extends(old(state), state) && q !in state.pending
      ensures o.Issued? ==>
                Answered(state.rows, Response(r, o.signature)) && Response(r, o.signature) in state.responses
      ensures o.Conflict? ==> KeyOf(r) in state.rows && !Replays(state.rows[KeyOf(r)], r)
      ensures Quiet(others) ==> o == AnswerAlone(sign, old(state), r, quota, keyAvailable) &&
                                LeftAlone(sign, old(state), state, r, o)
      ensures o.Conflict? ==> exists i, keyHash, requestHash ::
                && IssuedBefore(state, r, keyHash, requestHash, i)
                && (keyHash != r.keyHash || requestHash != r.requestHash)
      ensures Quiet(others) ==> AnswersRepeat(old(state), r, o)
      ensures Quiet(others) && NothingIssued(old(state), r) ==>
                AnswersFirst(sign, old(state), r, quota, keyAvailable, o)
    {
      hide Inv, Extends, Cooperative, AnswersRepeat, AnswersFirst, NothingIssued;
      ghost var start := state;
      Reflexive(state);
      AloneAnswers(sign, state, r, quota, keyAvailable);
      if KeyOf(r) in state.rows {
        Step(sign, start, Begin(q, r, true));
        o := FromTable(r, Conflict);
        if o.Conflict? { StoredWasSigned(sign, state, r); }
        return;
      }
      Step(sign, start, Begin(q, r, false));
      Others(sign, start, q, 0, others);
      Step(sign, start, Consume(q));
      if q !in state.pending { return InvalidCommitment; }
      Others(sign, start, q, 1, others);
      o := SignAndCommit(sign, start, q, r, quota, keyAvailable, others);
      if o.Conflict? { StoredWasSigned(sign, state, r); }
    }

    /** The rest of the transaction, once the commitment has been taken: quota, key, signer, commit. */
    method SignAndCommit(sign: Signer, ghost start: State, q: nat, r: Request, quota: Quota, keyAvailable: bool,
                         others: Interference) returns (o: Outcome)
      requires Inv(sign, state) && Extends(start, state) && Cooperative(sign, q, others)
      requires q in state.pending && state.pending[q].Holding? && state.pending[q].request == r
      modifies this
      ensures Inv(sign, state) && Extends(start, state) && q !in state.pending
      ensures o.Issued? ==>
                Answered(state.rows, Response(r, o.signature)) && Response(r, o.signature) in state.responses
      ensures o.Conflict? ==> KeyOf(r) in state.rows && !Replays(state.rows[KeyOf(r)], r)
      ensures Quiet(others) ==> var p := old(state).pending[q];
        && o == SignAlone(sign, old(state), r, p.record, quota, keyAvailable)
        && state.store == old(state).store
        && state.rows == if o.Issued? && !Stored(old(state), r)
                         then old(state).rows[KeyOf(r) := Row(r.keyHash, r.requestHash, o.signature)]
                         else old(state).rows
    {
      hide Inv, Extends, Cooperative, Next;
      if quota.UsedUp? {
        StepExhausted(sign, state, q);
        Step(sign, start, Exhausted(q));
        if r.service != "vote_ballot" || KeyOf(r) !in state.rows { return QuotaExhausted; }
        o := FromTable(r, Conflict);
        return;
      }
      if !keyAvailable {
        StepAbort(sign, state, q);
        Step(sign, start, Abort(q));
        return Unavailable;
      }
      StepSigner(sign, state, q);
      Step(sign, start, CallSigner(q));
      if q !in state.pending { return Unavailable; }
      Others(sign, start, q, 2, others);
      StepCommit(sign, state, q);
      Step(sign, start, Commit(q));
      o := FromTable(r, Conflict);
    }

    /** The answer the table gives to the request. */
    method FromTable(r: Request, otherwise: Outcome) returns (o: Outcome)
      requires KeyOf(r) in state.rows
      ensures o == if Replays(state.rows[KeyOf(r)], r) then Issued(state.rows[KeyOf(r)].signature) else otherwise
    {
      var row := state.rows[KeyOf(r)];
      o := if row.keyHash == r.keyHash && row.requestHash == r.requestHash then Issued(row.signature) else otherwise;
    }

    method Step(sign: Signer, ghost start: State, e: Event)
      requires Inv(sign, state) && Extends(start, state)
      modifies this
      ensures state == Next(sign, old(state), e)
      ensures Inv(sign, state) && Extends(start, state)
    {
      hide CommitmentsOk, IssuesOk, Extends, Next;
      ghost var before := state;
      NextCommitments(sign, state, e);
      NextIssues(sign, state, e);
      NextExtends(sign, state, e);
      state := Next(sign, state, e);
      ExtendsChain(start, before, state);
    }

    method Others(sign: Signer, ghost start: State, q: nat, n: nat, others: Interference)
      requires Inv(sign, state) && Extends(start, state) && Cooperative(sign, q, others)
      modifies this
      ensures Inv(sign, state) && Extends(start, state)
      ensures q in state.pending <==> q in old(state).pending
      ensures q in state.pending ==> state.pending[q] == old(state).pending[q]
      ensures Quiet(others) ==> state == old(state)
    {
      hide Inv, Extends;
      ghost var before := state;
      assert Cooperates(sign, q, state, others(n, state));
      state := others(n, state);
      ExtendsChain(start, before, state);
    }
  }
}
