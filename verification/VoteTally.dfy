/** The anonymous vote tally: submissions and settlements race on ballots, consumed serial numbers,
    idempotency keys and versioned snapshots. Workers share no lock and no statement shares its state with
    another: each SELECT of an attempt reads its own earlier committed state, and the commit is against the
    current one, where only the unique constraints arbitrate. */
module VoteTally {
  import opened Bytes

  datatype VoteStatus = Open | Closed | Published

  datatype Vote = Vote(isPublic: bool, closesAt: int, options: seq<nat>, status: VoteStatus,
                       settledAt: Option<int>, finalSnapshot: Option<nat>)

  /** What a submission presents; the service and period of a credential are fixed by the vote. */
  datatype Ticket = Ticket(vote: nat, option: nat, sn: nat, signature: nat)

  datatype Ballot = Ballot(ticket: Ticket, at: int)

  datatype Snapshot = Snapshot(version: nat, counts: map<nat, nat>, total: nat, publishedAt: int, isFinal: bool)

  /** The rows of the ballot and snapshot tables that carry one vote's id, in commit order. A snapshot is
      identified by its position. */
  datatype VoteRows = VoteRows(vote: Vote, ballots: seq<Ballot>, snaps: seq<Snapshot>)

  /** An idempotency row: the request hash and the ballot it points to. */
  datatype IdemRow = IdemRow(requestHash: nat, vote: nat, index: nat)

  datatype Db = Db(votes: map<nat, VoteRows>, consumed: set<nat>, idem: map<nat, IdemRow>)

  function EmptyDb(): Db {
    Db(map[], {}, map[])
  }

  /** The stateless parts: blind-signature verification and the request digest. */
  datatype Crypto = Crypto(verify: Ticket -> bool, requestHash: Ticket -> nat)

  // Counting

  function Count(ballots: seq<Ballot>, option: nat): (n: nat)
    ensures n <= |ballots|
  {
    if ballots == [] then 0
    else Count(ballots[..|ballots| - 1], option) + (if ballots[|ballots| - 1].ticket.option == option then 1 else 0)
  }

  /** The positions of the ballots for an option. */
  function For(ballots: seq<Ballot>, option: nat): set<nat> {
    set i: nat | i < |ballots| && ballots[i].ticket.option == option
  }

  /** The grouped count is the number of ballots for the option. */
  lemma {:induction false} CountIs(ballots: seq<Ballot>, option: nat)
    ensures Count(ballots, option) == |For(ballots, option)|
  {
    if ballots != [] {
      var n := |ballots| - 1;
      CountIs(ballots[..n], option);
      assert For(ballots, option) ==
             For(ballots[..n], option) + (if ballots[n].ticket.option == option then {n} else {});
    } else {
      assert For(ballots, option) == {};
    }
  }

  /** The grouped count, with zero for options nobody chose. */
  function Tally(ballots: seq<Ballot>, options: seq<nat>): map<nat, nat> {
    map o | o in options :: Count(ballots, o)
  }

  function Total(ballots: seq<Ballot>, options: seq<nat>): nat {
    if options == [] then 0 else Count(ballots, options[0]) + Total(ballots, options[1..])
  }

  ghost predicate Distinct(options: seq<nat>) {
    forall i, j :: 0 <= i < j < |options| ==> options[i] != options[j]
  }

  lemma {:induction false} TotalOneMore(ballots: seq<Ballot>, b: Ballot, options: seq<nat>)
    requires Distinct(options)
    ensures Total(ballots + [b], options) == Total(ballots, options) + (if b.ticket.option in options then 1 else 0)
  {
    if options != [] {
      TotalOneMore(ballots, b, options[1..]);
      assert (ballots + [b])[..|ballots|] == ballots;
    }
  }

  /** When every ballot names one of the distinct options, the option counts add up to the ballots. */
  lemma {:induction false} TotalCountsBallots(ballots: seq<Ballot>, options: seq<nat>)
    requires Distinct(options) && forall i :: 0 <= i < |ballots| ==> ballots[i].ticket.option in options
    ensures Total(ballots, options) == |ballots|
  {
    if ballots == [] {
      TotalOfNone(options);
    } else {
      var init := ballots[..|ballots| - 1];
      TotalCountsBallots(init, options);
      TotalOneMore(init, ballots[|init|], options);
      assert ballots == init + [ballots[|init|]];
    }
  }

  lemma {:induction false} TotalOfNone(options: seq<nat>)
    ensures Total([], options) == 0
  {
    if options != [] { TotalOfNone(options[1..]); }
  }

  function MaxVersion(snaps: seq<Snapshot>): (m: nat)
    ensures forall k :: 0 <= k < |snaps| ==> snaps[k].version <= m
  {
    if snaps == [] then 0
    else
      var rest := MaxVersion(snaps[..|snaps| - 1]);
      if snaps[|snaps| - 1].version > rest then snaps[|snaps| - 1].version else rest
  }

  /** The ballots cast by the deadline: the filter applied before the final count. */
  function CastBy(ballots: seq<Ballot>, deadline: int): seq<Ballot> {
    if ballots == [] then []
    else CastBy(ballots[..|ballots| - 1], deadline)
         + (if ballots[|ballots| - 1].at <= deadline then [ballots[|ballots| - 1]] else [])
  }

  lemma {:induction false} CastByAll(ballots: seq<Ballot>, deadline: int)
    requires forall i :: 0 <= i < |ballots| ==> ballots[i].at <= deadline
    ensures CastBy(ballots, deadline) == ballots
  {
    if ballots != [] {
      CastByAll(ballots[..|ballots| - 1], deadline);
      assert ballots == ballots[..|ballots| - 1] + [ballots[|ballots| - 1]];
    }
  }

  // The invariant

  /** The k-th snapshot records the tally of the first k ballots, at the time of the last of them. */
  ghost predicate RunningSnapshot(rows: VoteRows, k: nat)
    requires k < |rows.snaps| && k < |rows.ballots|
  {
    var s := rows.snaps[k];
    && !s.isFinal && s.version == k + 1 && s.total == k + 1
    && s.counts == Tally(rows.ballots[..k + 1], rows.vote.options) && s.publishedAt == rows.ballots[k].at
  }

  /** The final snapshot records the tally of every ballot, one version after the last. */
  ghost predicate FinalSnapshot(rows: VoteRows, s: Snapshot) {
    && s.isFinal && s.version == |rows.ballots| + 1 && s.total == |rows.ballots|
    && s.counts == Tally(rows.ballots, rows.vote.options)
    && s.publishedAt >= rows.vote.closesAt
  }

  /** What the unique constraints alone guarantee of a final snapshot: one version after the last ballot, it
      records the tally of the first `total` ballots. */
  ghost predicate ClosingSnapshot(rows: VoteRows, s: Snapshot) {
    && s.isFinal && s.version == |rows.ballots| + 1 && s.total <= |rows.ballots|
    && s.counts == Tally(rows.ballots[..s.total], rows.vote.options)
    && s.publishedAt >= rows.vote.closesAt
  }

  lemma ClosingIsFinalIff(rows: VoteRows, s: Snapshot)
    requires ClosingSnapshot(rows, s)
    ensures FinalSnapshot(rows, s) <==> s.total == |rows.ballots|
  {
    if s.total == |rows.ballots| { assert rows.ballots[..s.total] == rows.ballots; }
  }

  ghost predicate GoodBallot(crypto: Crypto, id: nat, vote: Vote, b: Ballot) {
    b.ticket.vote == id && b.ticket.option in vote.options && b.at < vote.closesAt && crypto.verify(b.ticket)
  }

  predicate IsPublished(rows: VoteRows) {
    |rows.snaps| == |rows.ballots| + 1
  }

  ghost predicate RowsInv(crypto: Crypto, id: nat, rows: VoteRows) {
    && Distinct(rows.vote.options)
    && (forall i :: 0 <= i < |rows.ballots| ==> GoodBallot(crypto, id, rows.vote, rows.ballots[i]))
    && |rows.ballots| <= |rows.snaps| <= |rows.ballots| + 1
    && (forall k :: 0 <= k < |rows.ballots| ==> RunningSnapshot(rows, k))
    && (if IsPublished(rows) then
          ClosingSnapshot(rows, rows.snaps[|rows.ballots|])
          && rows.vote.status == Published && rows.vote.finalSnapshot == Some(|rows.ballots|)
          && rows.vote.settledAt == Some(rows.snaps[|rows.ballots|].publishedAt)
        else rows.vote.status != Published && rows.vote.finalSnapshot == None && rows.vote.settledAt == None)
  }

  predicate BallotAt(db: Db, v: nat, i: nat) {
    v in db.votes && i < |db.votes[v].ballots|
  }

  function TicketAt(db: Db, v: nat, i: nat): Ticket
    requires BallotAt(db, v, i)
  {
    db.votes[v].ballots[i].ticket
  }

  ghost predicate SpentBy(db: Db, sn: nat) {
    exists v, i :: BallotAt(db, v, i) && TicketAt(db, v, i).sn == sn
  }

  ghost predicate KeyedBy(db: Db, v: nat, i: nat) {
    exists key :: key in db.idem && db.idem[key].vote == v && db.idem[key].index == i
  }

  /** Ballots and consumed serial numbers are in bijection. */
  ghost predicate SerialsInv(db: Db) {
    && (forall v, i :: BallotAt(db, v, i) ==> TicketAt(db, v, i).sn in db.consumed)
    && (forall sn :: sn in db.consumed ==> SpentBy(db, sn))
    && (forall v, i, w, j :: BallotAt(db, v, i) && BallotAt(db, w, j) ==>
          TicketAt(db, v, i).sn == TicketAt(db, w, j).sn ==> v == w && i == j)
  }

  /** Ballots and idempotency keys are in bijection, each key with its own ballot's request hash. */
  ghost predicate KeysInv(crypto: Crypto, db: Db) {
    && (forall key :: key in db.idem ==>
          BallotAt(db, db.idem[key].vote, db.idem[key].index)
          && db.idem[key].requestHash == crypto.requestHash(TicketAt(db, db.idem[key].vote, db.idem[key].index)))
    && (forall v, i :: BallotAt(db, v, i) ==> KeyedBy(db, v, i))
    && (forall k, l :: k in db.idem && l in db.idem ==>
          db.idem[k].vote == db.idem[l].vote && db.idem[k].index == db.idem[l].index ==> k == l)
  }

  ghost predicate RowsOk(crypto: Crypto, db: Db) {
    forall v :: v in db.votes ==> RowsInv(crypto, v, db.votes[v])
  }

  ghost predicate Inv(crypto: Crypto, db: Db) {
    RowsOk(crypto, db) && SerialsInv(db) && KeysInv(crypto, db)
  }

  // How committed states evolve

  ghost predicate RowsExtend(before: VoteRows, after: VoteRows) {
    && before.ballots <= after.ballots && before.snaps <= after.snaps
    && after.vote.isPublic == before.vote.isPublic && after.vote.closesAt == before.vote.closesAt
    && after.vote.options == before.vote.options
    && (before.vote.status == Published ==> after.vote == before.vote)
  }

  ghost predicate Extends(before: Db, after: Db) {
    && (forall v :: v in before.votes ==> v in after.votes && RowsExtend(before.votes[v], after.votes[v]))
    && before.consumed <= after.consumed
    && (forall key :: key in before.idem ==> key in after.idem && after.idem[key] == before.idem[key])
  }

  lemma ExtendsTransitive(a: Db, b: Db, c: Db)
    requires Extends(a, b) && Extends(b, c)
    ensures Extends(a, c)
  {
  }

  lemma SnapshotVersions(crypto: Crypto, id: nat, rows: VoteRows)
    requires RowsInv(crypto, id, rows)
    ensures forall k :: 0 <= k < |rows.snaps| ==> rows.snaps[k].version == k + 1
    ensures MaxVersion(rows.snaps) == |rows.snaps|
  {
    forall k | 0 <= k < |rows.snaps| ensures rows.snaps[k].version == k + 1 {
      if k < |rows.ballots| { assert RunningSnapshot(rows, k); }
    }
    MaxOfVersions(rows.snaps);
  }

  lemma RunningNotFinal(crypto: Crypto, id: nat, rows: VoteRows)
    requires RowsInv(crypto, id, rows)
    ensures forall k :: 0 <= k < |rows.ballots| ==> !rows.snaps[k].isFinal
  {
    forall k | 0 <= k < |rows.ballots| ensures !rows.snaps[k].isFinal { assert RunningSnapshot(rows, k); }
  }

  /** A version not in use is beyond the last one, and a vote without a final snapshot is unpublished. */
  lemma FreshVersion(crypto: Crypto, id: nat, rows: VoteRows, version: nat)
    requires RowsInv(crypto, id, rows) && version >= 1
    ensures version <= |rows.snaps| ==> exists k :: 0 <= k < |rows.snaps| && rows.snaps[k].version == version
    ensures IsPublished(rows) ==> exists k :: 0 <= k < |rows.snaps| && rows.snaps[k].isFinal
  {
    SnapshotVersions(crypto, id, rows);
    if version <= |rows.snaps| { assert rows.snaps[version - 1].version == version; }
    if IsPublished(rows) { assert rows.snaps[|rows.ballots|].isFinal; }
  }

  lemma {:induction false} MaxOfVersions(snaps: seq<Snapshot>)
    requires forall k :: 0 <= k < |snaps| ==> snaps[k].version == k + 1
    ensures MaxVersion(snaps) == |snaps|
  {
    if snaps != [] { MaxOfVersions(snaps[..|snaps| - 1]); }
  }

  // Submitting

  datatype Submission = Submission(ticket: Ticket, key: nat, now: int)

  datatype Error =
    | IdempotencyConflict | VoteNotFound | OptionNotFound | VoteClosed | CredentialConsumed | InvalidSignature
    | VoteNotClosed | Conflict

  /** The idempotency lookup: an answer if the key is taken. */
  function KeyAnswer(crypto: Crypto, db: Db, s: Submission): Option<Option<Error>> {
    if s.key !in db.idem then None
    else if db.idem[s.key].requestHash == crypto.requestHash(s.ticket) then Some(None)
    else Some(Some(IdempotencyConflict))
  }

  /** The checks of the vote, its option and its deadline. */
  function VoteCheck(db: Db, s: Submission): Option<Error> {
    var t := s.ticket;
    if t.vote !in db.votes || !db.votes[t.vote].vote.isPublic then Some(VoteNotFound)
    else if t.option !in db.votes[t.vote].vote.options then Some(OptionNotFound)
    else if db.votes[t.vote].vote.status != Open || s.now >= db.votes[t.vote].vote.closesAt then Some(VoteClosed)
    else None
  }

  /** The check that the credential is not consumed, read after the vote. */
  function SpentCheck(db: Db, s: Submission): Option<Error> {
    if s.ticket.sn in db.consumed then Some(CredentialConsumed) else None
  }

  /** The transaction's checks when nothing changes between them. */
  function SubmitCheck(db: Db, s: Submission): Option<Error> {
    if VoteCheck(db, s).Some? then VoteCheck(db, s) else SpentCheck(db, s)
  }

  /** The snapshot written with the ballot: the count is read after the ballot is flushed. */
  function SubmitSnapshot(rows: VoteRows, s: Submission): Snapshot {
    var ballots := rows.ballots + [Ballot(s.ticket, s.now)];
    var total := Total(ballots, rows.vote.options);
    Snapshot(total, Tally(ballots, rows.vote.options), total, s.now, false)
  }

  /** Unique constraints met: serial number, idempotency key, (vote, version). */
  predicate SubmitAdmitted(db: Db, s: Submission, snap: Snapshot) {
    && s.ticket.vote in db.votes && s.ticket.sn !in db.consumed && s.key !in db.idem
    && forall k :: 0 <= k < |db.votes[s.ticket.vote].snaps| ==> db.votes[s.ticket.vote].snaps[k].version != snap.version
  }

  function SubmitCommitted(crypto: Crypto, db: Db, s: Submission, snap: Snapshot): Db
    requires s.ticket.vote in db.votes
  {
    var rows := db.votes[s.ticket.vote];
    Db(db.votes[s.ticket.vote := rows.(ballots := rows.ballots + [Ballot(s.ticket, s.now)],
                                       snaps := rows.snaps + [snap])],
       db.consumed + {s.ticket.sn},
       db.idem[s.key := IdemRow(crypto.requestHash(s.ticket), s.ticket.vote, |rows.ballots|)])
  }

  /** The (vote, version) constraint makes an accepted submission count exactly the current ballots. */
  lemma SubmitCountIsCurrent(crypto: Crypto, id: nat, counted: VoteRows, rows: VoteRows, s: Submission)
    requires RowsInv(crypto, id, counted) && RowsInv(crypto, id, rows) && RowsExtend(counted, rows)
    requires s.ticket.option in counted.vote.options
    requires forall k :: 0 <= k < |rows.snaps| ==> rows.snaps[k].version != SubmitSnapshot(counted, s).version
    ensures counted.ballots == rows.ballots && !IsPublished(rows)
    ensures SubmitSnapshot(counted, s).version == |rows.ballots| + 1
  {
    var ballots := counted.ballots + [Ballot(s.ticket, s.now)];
    forall i | 0 <= i < |ballots| ensures ballots[i].ticket.option in counted.vote.options {
      if i < |counted.ballots| { assert GoodBallot(crypto, id, counted.vote, counted.ballots[i]); }
    }
    TotalCountsBallots(ballots, counted.vote.options);
    FreshVersion(crypto, id, rows, |ballots|);
  }

  lemma RowsAfterSubmit(crypto: Crypto, id: nat, rows: VoteRows, s: Submission, snap: Snapshot)
    requires RowsInv(crypto, id, rows) && !IsPublished(rows)
    requires GoodBallot(crypto, id, rows.vote, Ballot(s.ticket, s.now))
    requires snap == SubmitSnapshot(rows, s) && snap.version == |rows.ballots| + 1
    ensures var after := rows.(ballots := rows.ballots + [Ballot(s.ticket, s.now)], snaps := rows.snaps + [snap]);
      RowsInv(crypto, id, after) && RowsExtend(rows, after)
  {
    var after := rows.(ballots := rows.ballots + [Ballot(s.ticket, s.now)], snaps := rows.snaps + [snap]);
    forall k | 0 <= k < |after.ballots| ensures RunningSnapshot(after, k) {
      if k < |rows.ballots| {
        assert RunningSnapshot(rows, k);
        assert after.ballots[..k + 1] == rows.ballots[..k + 1];
      } else {
        assert after.ballots[..k + 1] == after.ballots;
      }
    }
  }

  lemma BallotsAfterSubmit(crypto: Crypto, db: Db, s: Submission, snap: Snapshot)
    requires s.ticket.vote in db.votes
    ensures var after := SubmitCommitted(crypto, db, s, snap);
      var n := |db.votes[s.ticket.vote].ballots|;
      && (forall v, i :: BallotAt(after, v, i) <==> BallotAt(db, v, i) || (v == s.ticket.vote && i == n))
      && (forall v, i :: BallotAt(db, v, i) ==> TicketAt(after, v, i) == TicketAt(db, v, i))
      && TicketAt(after, s.ticket.vote, n) == s.ticket
  {
  }

  lemma SerialsAfterSubmit(crypto: Crypto, db: Db, s: Submission, snap: Snapshot)
    requires SerialsInv(db) && s.ticket.vote in db.votes && s.ticket.sn !in db.consumed
    ensures SerialsInv(SubmitCommitted(crypto, db, s, snap))
  {
    var after := SubmitCommitted(crypto, db, s, snap);
    BallotsAfterSubmit(crypto, db, s, snap);
    forall sn | sn in after.consumed ensures SpentBy(after, sn) {
      if sn in db.consumed {
        assert SpentBy(db, sn);
        var v, i :| BallotAt(db, v, i) && TicketAt(db, v, i).sn == sn;
        assert BallotAt(after, v, i) && TicketAt(after, v, i).sn == sn;
      } else {
        assert BallotAt(after, s.ticket.vote, |db.votes[s.ticket.vote].ballots|);
      }
    }
  }

  lemma KeysAfterSubmit(crypto: Crypto, db: Db, s: Submission, snap: Snapshot)
    requires KeysInv(crypto, db) && s.ticket.vote in db.votes && s.key !in db.idem
    ensures KeysInv(crypto, SubmitCommitted(crypto, db, s, snap))
  {
    var after := SubmitCommitted(crypto, db, s, snap);
    var n := |db.votes[s.ticket.vote].ballots|;
    BallotsAfterSubmit(crypto, db, s, snap);
    forall v, i | BallotAt(after, v, i) ensures KeyedBy(after, v, i) {
      if BallotAt(db, v, i) {
        assert KeyedBy(db, v, i);
        var key :| key in db.idem && db.idem[key].vote == v && db.idem[key].index == i;
        assert key in after.idem && after.idem[key] == db.idem[key];
      } else {
        assert after.idem[s.key].vote == v && after.idem[s.key].index == i;
      }
    }
    forall key | key in after.idem
      ensures BallotAt(after, after.idem[key].vote, after.idem[key].index)
      ensures after.idem[key].requestHash ==
              crypto.requestHash(TicketAt(after, after.idem[key].vote, after.idem[key].index))
    {
      if key != s.key { assert key in db.idem; }
    }
    assert forall key :: key in db.idem ==> BallotAt(db, db.idem[key].vote, db.idem[key].index);
  }

  lemma VotesAfter(crypto: Crypto, db: Db, after: Db, v: nat)
    requires RowsOk(crypto, db)
    requires v in db.votes && v in after.votes && after.votes == db.votes[v := after.votes[v]]
    requires RowsInv(crypto, v, after.votes[v]) && RowsExtend(db.votes[v], after.votes[v])
    requires db.consumed <= after.consumed
    requires forall key :: key in db.idem ==> key in after.idem && after.idem[key] == db.idem[key]
    ensures RowsOk(crypto, after) && Extends(db, after)
  {
    forall w | w in after.votes ensures RowsInv(crypto, w, after.votes[w]) {
      if w != v { assert after.votes[w] == db.votes[w]; }
    }
    forall w | w in db.votes ensures RowsExtend(db.votes[w], after.votes[w]) {
      if w != v { assert after.votes[w] == db.votes[w]; }
    }
  }

  lemma SubmitRowsSafe(crypto: Crypto, id: nat, checked: VoteRows, counted: VoteRows, rows: VoteRows, s: Submission)
    requires RowsInv(crypto, id, counted) && RowsInv(crypto, id, rows)
    requires RowsExtend(checked, counted) && RowsExtend(counted, rows)
    requires crypto.verify(s.ticket) && s.ticket.vote == id && s.ticket.option in checked.vote.options
    requires s.now < checked.vote.closesAt
    requires forall k :: 0 <= k < |rows.snaps| ==> rows.snaps[k].version != SubmitSnapshot(counted, s).version
    ensures var after := rows.(ballots := rows.ballots + [Ballot(s.ticket, s.now)],
                               snaps := rows.snaps + [SubmitSnapshot(counted, s)]);
      RowsInv(crypto, id, after) && RowsExtend(rows, after)
    ensures counted.ballots == rows.ballots && !IsPublished(rows)
  {
    SubmitCountIsCurrent(crypto, id, counted, rows, s);
    RowsAfterSubmit(crypto, id, rows, s, SubmitSnapshot(counted, s));
  }

  lemma SubmitCommitKeeps(crypto: Crypto, db: Db, s: Submission, snap: Snapshot)
    requires Inv(crypto, db) && s.ticket.vote in db.votes && s.ticket.sn !in db.consumed && s.key !in db.idem
    requires var rows := SubmitCommitted(crypto, db, s, snap).votes[s.ticket.vote];
      RowsInv(crypto, s.ticket.vote, rows) && RowsExtend(db.votes[s.ticket.vote], rows)
    ensures Inv(crypto, SubmitCommitted(crypto, db, s, snap)) && Extends(db, SubmitCommitted(crypto, db, s, snap))
  {
    VotesAfter(crypto, db, SubmitCommitted(crypto, db, s, snap), s.ticket.vote);
    SerialsAfterSubmit(crypto, db, s, snap);
    KeysAfterSubmit(crypto, db, s, snap);
  }

  /** A submission commits safely however stale its reads, and even when the checks and the count read
      two different states: the unique constraints alone serialise it. */
  lemma SubmitSafe(crypto: Crypto, checked: Db, counted: Db, db: Db, s: Submission)
    requires RowsOk(crypto, counted) && Inv(crypto, db)
    requires Extends(checked, counted) && Extends(counted, db)
    requires crypto.verify(s.ticket) && VoteCheck(checked, s) == None
    requires SubmitAdmitted(db, s, SubmitSnapshot(counted.votes[s.ticket.vote], s))
    ensures var after := SubmitCommitted(crypto, db, s, SubmitSnapshot(counted.votes[s.ticket.vote], s));
      Inv(crypto, after) && Extends(db, after)
    ensures counted.votes[s.ticket.vote].ballots == db.votes[s.ticket.vote].ballots
    ensures !IsPublished(db.votes[s.ticket.vote])
  {
    var v := s.ticket.vote;
    var snap := SubmitSnapshot(counted.votes[v], s);
    SubmitRowsSafe(crypto, v, checked.votes[v], counted.votes[v], db.votes[v], s);
    SubmitCommitKeeps(crypto, db, s, snap);
  }

  // Settling

  datatype Settlement =
    | Fail(error: Error) | Replay(snap: Snapshot) | Repair(index: nat, undated: bool) | Write(snap: Snapshot)

  function FinalIndex(snaps: seq<Snapshot>): (k: Option<nat>)
    ensures k.Some? ==> k.value < |snaps| && snaps[k.value].isFinal
    ensures k.None? ==> forall i :: 0 <= i < |snaps| ==> !snaps[i].isFinal
  {
    if snaps == [] then None
    else if snaps[|snaps| - 1].isFinal then Some(|snaps| - 1)
    else FinalIndex(snaps[..|snaps| - 1])
  }

  /** The rows a SELECT filtered by the vote's id finds. */
  function SnapsOf(db: Db, v: nat): seq<Snapshot> {
    if v in db.votes then db.votes[v].snaps else []
  }

  function BallotsOf(db: Db, v: nat): seq<Ballot> {
    if v in db.votes then db.votes[v].ballots else []
  }

  /** The final snapshot made from a vote record, the ballots one statement counted and the versions
      another looked up. */
  function SettleSnapshot(vote: Vote, counted: seq<Ballot>, versions: seq<Snapshot>, now: int): Snapshot {
    var ballots := CastBy(counted, vote.closesAt);
    Snapshot(MaxVersion(versions) + 1, Tally(ballots, vote.options), Total(ballots, vote.options), now, true)
  }

  /** What a vote record and the vote's snapshots decide before anything is counted. */
  function SettleLook(vote: Vote, snaps: seq<Snapshot>, now: int): Option<Settlement> {
    if vote.status == Published && vote.finalSnapshot.Some? && vote.finalSnapshot.value < |snaps| then
      Some(Replay(snaps[vote.finalSnapshot.value]))
    else if FinalIndex(snaps).Some? then Some(Repair(FinalIndex(snaps).value, vote.settledAt.None?))
    else if now < vote.closesAt then Some(Fail(VoteNotClosed))
    else None
  }

  /** What one settlement attempt decides when the vote record, the final snapshot, the ballots and the
      highest version are read from these states. */
  function Settle(seen: Db, looked: Db, counted: Db, versioned: Db, v: nat, now: int): Settlement {
    if v !in seen.votes then Fail(VoteNotFound)
    else
      var vote := seen.votes[v].vote;
      var early := SettleLook(vote, SnapsOf(looked, v), now);
      if early.Some? then early.value
      else Write(SettleSnapshot(vote, BallotsOf(counted, v), SnapsOf(versioned, v), now))
  }

  /** Unique constraints met: (vote, version), and one final snapshot per vote. */
  predicate SettleAdmitted(db: Db, v: nat, snap: Snapshot) {
    v in db.votes
    && forall k :: 0 <= k < |db.votes[v].snaps| ==>
              db.votes[v].snaps[k].version != snap.version && !db.votes[v].snaps[k].isFinal
  }

  function SettledRows(rows: VoteRows, snap: Snapshot): VoteRows {
    VoteRows(rows.vote.(status := Published, settledAt := Some(snap.publishedAt), finalSnapshot := Some(|rows.snaps|)),
             rows.ballots, rows.snaps + [snap])
  }

  function SettleCommitted(db: Db, v: nat, snap: Snapshot): Db
    requires v in db.votes
  {
    db.(votes := db.votes[v := SettledRows(db.votes[v], snap)])
  }

  lemma SettleCount(crypto: Crypto, id: nat, rows: VoteRows)
    requires RowsInv(crypto, id, rows)
    ensures CastBy(rows.ballots, rows.vote.closesAt) == rows.ballots
    ensures Total(rows.ballots, rows.vote.options) == |rows.ballots|
  {
    forall i | 0 <= i < |rows.ballots|
      ensures rows.ballots[i].at <= rows.vote.closesAt && rows.ballots[i].ticket.option in rows.vote.options
    {
      assert GoodBallot(crypto, id, rows.vote, rows.ballots[i]);
    }
    CastByAll(rows.ballots, rows.vote.closesAt);
    TotalCountsBallots(rows.ballots, rows.vote.options);
  }

  /** The (vote, version) constraint makes the highest version a committed settlement read the current one. */
  lemma SettleReadIsCurrent(crypto: Crypto, id: nat, versioned: VoteRows, rows: VoteRows, version: nat)
    requires RowsInv(crypto, id, versioned) && RowsInv(crypto, id, rows) && RowsExtend(versioned, rows)
    requires version == MaxVersion(versioned.snaps) + 1
    requires forall k :: 0 <= k < |rows.snaps| ==> rows.snaps[k].version != version && !rows.snaps[k].isFinal
    ensures versioned.snaps == rows.snaps && versioned.ballots == rows.ballots && !IsPublished(rows)
  {
    SnapshotVersions(crypto, id, versioned);
    FreshVersion(crypto, id, rows, version);
    assert versioned.snaps == rows.snaps;
  }

  lemma RowsAfterSettle(crypto: Crypto, id: nat, rows: VoteRows, snap: Snapshot)
    requires RowsInv(crypto, id, rows) && !IsPublished(rows)
    requires ClosingSnapshot(rows, snap)
    ensures RowsInv(crypto, id, SettledRows(rows, snap)) && RowsExtend(rows, SettledRows(rows, snap))
    ensures IsPublished(SettledRows(rows, snap))
  {
    var after := SettledRows(rows, snap);
    forall k | 0 <= k < |after.ballots| ensures RunningSnapshot(after, k) {
      assert RunningSnapshot(rows, k);
    }
  }

  lemma SameBallotsSameLinks(crypto: Crypto, db: Db, after: Db)
    requires SerialsInv(db) && KeysInv(crypto, db)
    requires after.consumed == db.consumed && after.idem == db.idem
    requires forall v, i :: BallotAt(after, v, i) <==> BallotAt(db, v, i)
    requires forall v, i :: BallotAt(db, v, i) ==> TicketAt(after, v, i) == TicketAt(db, v, i)
    ensures SerialsInv(after) && KeysInv(crypto, after)
  {
    forall sn | sn in after.consumed ensures SpentBy(after, sn) {
      assert SpentBy(db, sn);
      var v, i :| BallotAt(db, v, i) && TicketAt(db, v, i).sn == sn;
      assert BallotAt(after, v, i) && TicketAt(after, v, i).sn == sn;
    }
    forall v, i | BallotAt(after, v, i) ensures KeyedBy(after, v, i) { assert KeyedBy(db, v, i); }
  }

  /** A final snapshot made from two stale reads closes the vote, and counts every ballot exactly when the
      two reads found equally many. */
  lemma SettleRowsSafe(crypto: Crypto, id: nat, vote: Vote, counted: VoteRows, versioned: VoteRows, rows: VoteRows,
                       snap: Snapshot)
    requires RowsInv(crypto, id, counted) && RowsInv(crypto, id, versioned) && RowsInv(crypto, id, rows)
    requires RowsExtend(counted, versioned) && RowsExtend(versioned, rows)
    requires vote.closesAt == rows.vote.closesAt && vote.options == rows.vote.options
    requires snap.publishedAt >= vote.closesAt
    requires snap == SettleSnapshot(vote, counted.ballots, versioned.snaps, snap.publishedAt)
    requires forall k :: 0 <= k < |rows.snaps| ==> rows.snaps[k].version != snap.version && !rows.snaps[k].isFinal
    ensures var after := SettledRows(rows, snap);
      && RowsInv(crypto, id, after) && RowsExtend(rows, after) && IsPublished(after)
      && (FinalSnapshot(after, snap) <==> |counted.ballots| == |versioned.ballots|)
    ensures versioned.ballots == rows.ballots && !IsPublished(rows)
  {
    SettleReadIsCurrent(crypto, id, versioned, rows, snap.version);
    SettleCount(crypto, id, counted);
    SnapshotVersions(crypto, id, rows);
    assert rows.ballots[..snap.total] == counted.ballots;
    RowsAfterSettle(crypto, id, rows, snap);
    ClosingIsFinalIff(SettledRows(rows, snap), snap);
  }

  lemma SettleCommitKeeps(crypto: Crypto, db: Db, v: nat, snap: Snapshot)
    requires Inv(crypto, db) && v in db.votes
    requires RowsInv(crypto, v, SettledRows(db.votes[v], snap))
    requires RowsExtend(db.votes[v], SettledRows(db.votes[v], snap))
    ensures Inv(crypto, SettleCommitted(db, v, snap)) && Extends(db, SettleCommitted(db, v, snap))
  {
    VotesAfter(crypto, db, SettleCommitted(db, v, snap), v);
    SameBallotsSameLinks(crypto, db, SettleCommitted(db, v, snap));
  }

  lemma FrozenRows(crypto: Crypto, id: nat, before: VoteRows, after: VoteRows)
    requires RowsInv(crypto, id, before) && RowsInv(crypto, id, after) && RowsExtend(before, after)
    requires IsPublished(before)
    ensures after == before
  {
    var n := |before.ballots|;
    assert after.snaps[n] == before.snaps[n];
    RunningNotFinal(crypto, id, after);
    assert after.ballots == before.ballots && after.snaps == before.snaps;
  }

  predicate PublishedIn(db: Db, v: nat) {
    v in db.votes && db.votes[v].vote.status == Published
  }

  /** The final snapshot of a published vote counts every ballot cast. */
  ghost predicate Complete(db: Db, v: nat) {
    PublishedIn(db, v) && SnapsOf(db, v) != [] && FinalSnapshot(db.votes[v], db.votes[v].snaps[|db.votes[v].snaps| - 1])
  }

  lemma SettleWrites(seen: Db, looked: Db, counted: Db, versioned: Db, v: nat, now: int, snap: Snapshot)
    requires Settle(seen, looked, counted, versioned, v, now) == Write(snap)
    ensures v in seen.votes && now >= seen.votes[v].vote.closesAt && snap.publishedAt == now
    ensures snap == SettleSnapshot(seen.votes[v].vote, BallotsOf(counted, v), SnapsOf(versioned, v), now)
  {
  }

  /** A settlement commits safely however stale its reads are. It counts every ballot exactly when no ballot
      was committed between its count and its look at the versions. */
  lemma SettleSafe(crypto: Crypto, seen: Db, looked: Db, counted: Db, versioned: Db, db: Db, v: nat, now: int,
                   snap: Snapshot)
    requires RowsOk(crypto, counted) && RowsOk(crypto, versioned) && Inv(crypto, db)
    requires Extends(seen, counted) && Extends(counted, versioned) && Extends(versioned, db)
    requires Settle(seen, looked, counted, versioned, v, now) == Write(snap) && SettleAdmitted(db, v, snap)
    ensures var after := SettleCommitted(db, v, snap);
      && Inv(crypto, after) && Extends(db, after) && v in after.votes
      && IsPublished(after.votes[v]) && after.votes[v].snaps[|after.votes[v].ballots|] == snap
      && (Complete(after, v) <==> |BallotsOf(counted, v)| == |BallotsOf(versioned, v)|)
    ensures BallotsOf(versioned, v) == BallotsOf(db, v)
  {
    SettleWrites(seen, looked, counted, versioned, v, now, snap);
    hide Settle;
    WrittenRowsSafe(crypto, seen, counted, versioned, db, v, snap);
    hide *;
    SettleCommitKeeps(crypto, db, v, snap);
    CompleteAfterSettle(db, v, snap);
    LastAfterSettle(db.votes[v], snap);
  }

  lemma LastAfterSettle(rows: VoteRows, snap: Snapshot)
    requires IsPublished(SettledRows(rows, snap))
    ensures var after := SettledRows(rows, snap);
      |after.snaps| == |after.ballots| + 1 && after.snaps[|after.ballots|] == snap
  {
  }

  lemma CompleteAfterSettle(db: Db, v: nat, snap: Snapshot)
    requires v in db.votes
    ensures var after := SettleCommitted(db, v, snap);
      && after.votes[v] == SettledRows(db.votes[v], snap)
      && (Complete(after, v) <==> FinalSnapshot(SettledRows(db.votes[v], snap), snap))
      && v in after.votes
  {
  }

  lemma WrittenRowsSafe(crypto: Crypto, seen: Db, counted: Db, versioned: Db, db: Db, v: nat, snap: Snapshot)
    requires RowsOk(crypto, counted) && RowsOk(crypto, versioned) && Inv(crypto, db)
    requires Extends(seen, counted) && Extends(counted, versioned) && Extends(versioned, db) && v in seen.votes
    requires snap.publishedAt >= seen.votes[v].vote.closesAt && SettleAdmitted(db, v, snap)
    requires snap == SettleSnapshot(seen.votes[v].vote, BallotsOf(counted, v), SnapsOf(versioned, v), snap.publishedAt)
    ensures v in db.votes && BallotsOf(versioned, v) == BallotsOf(db, v)
    ensures var after := SettledRows(db.votes[v], snap);
      && RowsInv(crypto, v, after) && RowsExtend(db.votes[v], after) && IsPublished(after)
      && (FinalSnapshot(after, snap) <==> |BallotsOf(counted, v)| == |BallotsOf(versioned, v)|)
  {
    assert RowsExtend(seen.votes[v], counted.votes[v]) && RowsExtend(counted.votes[v], versioned.votes[v]);
    assert RowsExtend(versioned.votes[v], db.votes[v]);
    hide SettleSnapshot, RowsInv, SerialsInv, KeysInv, FinalSnapshot, IsPublished, SettledRows;
    SettleRowsSafe(crypto, v, seen.votes[v].vote, counted.votes[v], versioned.votes[v], db.votes[v], snap);
  }

  /** What the repairing branch of `settle` writes: only the columns that differ from the record it saw. */
  function AfterRepair(db: Db, v: nat, k: nat, undated: bool): Db {
    if v in db.votes && k < |db.votes[v].snaps| then
      var vote := db.votes[v].vote;
      db.(votes := db.votes[v := db.votes[v].(vote := vote.(status := Published, finalSnapshot := Some(k),
            settledAt := if undated then Some(db.votes[v].snaps[k].publishedAt) else vote.settledAt))])
    else db
  }

  /** The branch that repairs a vote record left behind its final snapshot runs when the vote was published
      between the two reads, and then writes what is there already. */
  lemma RepairChangesNothing(crypto: Crypto, seen: Db, looked: Db, counted: Db, versioned: Db, db: Db, v: nat, now: int)
    requires RowsOk(crypto, looked) && RowsOk(crypto, db) && Extends(seen, looked) && Extends(looked, db)
    requires Settle(seen, looked, counted, versioned, v, now).Repair?
    ensures var r := Settle(seen, looked, counted, versioned, v, now);
      && v in looked.votes && IsPublished(looked.votes[v]) && db.votes[v] == looked.votes[v]
      && r.index == |db.votes[v].ballots| && AfterRepair(db, v, r.index, r.undated) == db
  {
    RunningNotFinal(crypto, v, looked.votes[v]);
    FrozenRows(crypto, v, looked.votes[v], db.votes[v]);
    var r := Settle(seen, looked, counted, versioned, v, now);
    assert AfterRepair(db, v, r.index, r.undated).votes == db.votes;
  }

  /** With both reads from one state that branch never runs. */
  lemma RepairNeverNeeded(crypto: Crypto, db: Db, counted: Db, versioned: Db, v: nat, now: int)
    requires RowsOk(crypto, db)
    ensures !Settle(db, db, counted, versioned, v, now).Repair?
  {
    if v in db.votes {
      RunningNotFinal(crypto, v, db.votes[v]);
    }
  }

  // Runs

  /** What can happen next. Each SELECT of an attempt names the committed state it saw by its position in
      the history; a `lost` attempt is rolled back for another reason (a lock, the signing key). */
  datatype Event =
    | CreateVote(id: nat, vote: Vote)
    | SubmitBallot(s: Submission, keyed: nat, checked: nat, unspent: nat, counted: nat, lost: bool)
    | SettleVote(id: nat, now: int, seen: nat, looked: nat, counted: nat, versioned: nat, lost: bool)

  /** Whether a submission attempt gets as far as a successful commit. */
  predicate SubmitCommits(keyed: Db, checked: Db, unspent: Db, counted: Db, db: Db, crypto: Crypto, s: Submission) {
    && KeyAnswer(crypto, keyed, s) == None && VoteCheck(checked, s) == None && SpentCheck(unspent, s) == None
    && crypto.verify(s.ticket) && s.ticket.vote in counted.votes
    && SubmitAdmitted(db, s, SubmitSnapshot(counted.votes[s.ticket.vote], s))
  }

  function AfterSubmit(crypto: Crypto, keyed: Db, checked: Db, unspent: Db, counted: Db, db: Db, s: Submission): Db {
    if SubmitCommits(keyed, checked, unspent, counted, db, crypto, s) then
      SubmitCommitted(crypto, db, s, SubmitSnapshot(counted.votes[s.ticket.vote], s))
    else db
  }

  /** What a settlement attempt that decided `r` leaves behind. */
  function AfterSettle(db: Db, v: nat, r: Settlement): Db {
    match r
    case Write(snap) => if SettleAdmitted(db, v, snap) then SettleCommitted(db, v, snap) else db
    case Repair(k, undated) => AfterRepair(db, v, k, undated)
    case _ => db
  }

  ghost predicate SafeHistory(crypto: Crypto, history: seq<Db>) {
    && (forall i :: 0 <= i < |history| ==> Inv(crypto, history[i]))
    && (forall i, j :: 0 <= i <= j < |history| ==> Extends(history[i], history[j]))
  }

  ghost predicate NewVote(vote: Vote) {
    Distinct(vote.options) && vote.status == Open && vote.settledAt == None && vote.finalSnapshot == None
  }

  ghost function Next(crypto: Crypto, history: seq<Db>, ev: Event): Db
    requires history != [] && SafeHistory(crypto, history)
  {
    var db := history[|history| - 1];
    match ev
    case CreateVote(id, vote) =>
      if id in db.votes || !NewVote(vote) then db else db.(votes := db.votes[id := VoteRows(vote, [], [])])
    case SubmitBallot(s, keyed, checked, unspent, counted, lost) =>
      if lost || !(keyed <= checked <= unspent <= counted < |history|) then db
      else AfterSubmit(crypto, history[keyed], history[checked], history[unspent], history[counted], db, s)
    case SettleVote(id, now, seen, looked, counted, versioned, lost) =>
      if lost || !(seen <= looked <= counted <= versioned < |history|) then db
      else AfterSettle(db, id, Settle(history[seen], history[looked], history[counted], history[versioned], id, now))
  }

  lemma CreateSafe(crypto: Crypto, db: Db, id: nat, vote: Vote)
    requires Inv(crypto, db) && id !in db.votes && NewVote(vote)
    ensures var after := db.(votes := db.votes[id := VoteRows(vote, [], [])]); Inv(crypto, after) && Extends(db, after)
  {
    SameBallotsSameLinks(crypto, db, db.(votes := db.votes[id := VoteRows(vote, [], [])]));
  }

  lemma ExtendsReflexive(db: Db)
    ensures Extends(db, db)
  {
  }

  lemma SubmitStepSafe(crypto: Crypto, keyed: Db, checked: Db, unspent: Db, counted: Db, db: Db, s: Submission)
    requires RowsOk(crypto, counted) && Inv(crypto, db) && Extends(checked, counted) && Extends(counted, db)
    ensures var after := AfterSubmit(crypto, keyed, checked, unspent, counted, db, s);
      Inv(crypto, after) && Extends(db, after)
  {
    if SubmitCommits(keyed, checked, unspent, counted, db, crypto, s) {
      SubmitSafe(crypto, checked, counted, db, s);
    } else {
      ExtendsReflexive(db);
    }
  }

  lemma SettleStepSafe(crypto: Crypto, seen: Db, looked: Db, counted: Db, versioned: Db, db: Db, v: nat, now: int)
    requires RowsOk(crypto, looked) && RowsOk(crypto, counted) && RowsOk(crypto, versioned) && Inv(crypto, db)
    requires Extends(seen, looked) && Extends(looked, counted) && Extends(counted, versioned) && Extends(versioned, db)
    ensures var after := AfterSettle(db, v, Settle(seen, looked, counted, versioned, v, now));
      Inv(crypto, after) && Extends(db, after)
  {
    hide Settle, RowsOk, SerialsInv, KeysInv, Extends, RowsInv, SettleAdmitted, SettleCommitted;
    var r := Settle(seen, looked, counted, versioned, v, now);
    ExtendsReflexive(db);
    ExtendsTransitive(seen, looked, counted);
    ExtendsTransitive(looked, counted, versioned);
    ExtendsTransitive(looked, versioned, db);
    if r.Write? && SettleAdmitted(db, v, r.snap) {
      SettleSafe(crypto, seen, looked, counted, versioned, db, v, now, r.snap);
    } else if r.Repair? {
      RepairChangesNothing(crypto, seen, looked, counted, versioned, db, v, now);
    }
  }

  lemma NextSafe(crypto: Crypto, history: seq<Db>, ev: Event)
    requires history != [] && SafeHistory(crypto, history)
    ensures Inv(crypto, Next(crypto, history, ev)) && Extends(history[|history| - 1], Next(crypto, history, ev))
  {
    hide RowsOk, SerialsInv, KeysInv, Extends, AfterSubmit, AfterSettle, Settle, NewVote;
    var db := history[|history| - 1];
    assert Inv(crypto, db) && Extends(db, db);
    match ev {
      case CreateVote(id, vote) =>
        if id !in db.votes && NewVote(vote) { CreateSafe(crypto, db, id, vote); }
      case SubmitBallot(s, keyed, checked, unspent, counted, lost) =>
        if keyed <= checked <= unspent <= counted < |history| {
          assert Extends(history[checked], history[counted]) && Extends(history[counted], db);
          assert Inv(crypto, history[counted]);
          SubmitStepSafe(crypto, history[keyed], history[checked], history[unspent], history[counted], db, s);
        }
      case SettleVote(id, now, seen, looked, counted, versioned, lost) =>
        if seen <= looked <= counted <= versioned < |history| {
          assert Extends(history[seen], history[looked]) && Extends(history[looked], history[counted]);
          assert Extends(history[counted], history[versioned]) && Extends(history[versioned], db);
          assert Inv(crypto, history[looked]) && Inv(crypto, history[counted]) && Inv(crypto, history[versioned]);
          SettleStepSafe(crypto, history[seen], history[looked], history[counted], history[versioned], db, id, now);
        }
    }
  }

  lemma SafeOneMore(crypto: Crypto, history: seq<Db>, next: Db)
    requires history != [] && SafeHistory(crypto, history)
    requires Inv(crypto, next) && Extends(history[|history| - 1], next)
    ensures SafeHistory(crypto, history + [next])
  {
    var longer := history + [next];
    forall i, j | 0 <= i <= j < |longer| ensures Extends(longer[i], longer[j]) {
      if j < |history| {
        assert Extends(history[i], history[j]);
      } else if i < |history| {
        assert Extends(history[i], history[|history| - 1]);
        ExtendsTransitive(history[i], history[|history| - 1], next);
      }
    }
    forall i | 0 <= i < |longer| ensures Inv(crypto, longer[i]) {
      assert i < |history| ==> Inv(crypto, history[i]);
    }
  }

  lemma EmptySafe(crypto: Crypto)
    ensures SafeHistory(crypto, [EmptyDb()])
  {
  }

  /** Every committed state of a run, from the empty database. Each is safe: every interleaving of
      submissions and settlements with stale reads and retries keeps the invariant. */
  ghost function History(crypto: Crypto, events: seq<Event>): (history: seq<Db>)
    ensures |history| == |events| + 1 && SafeHistory(crypto, history)
  {
    if events == [] then
      EmptySafe(crypto);
      [EmptyDb()]
    else
      var before := History(crypto, events[..|events| - 1]);
      var next := Next(crypto, before, events[|events| - 1]);
      NextSafe(crypto, before, events[|events| - 1]);
      SafeOneMore(crypto, before, next);
      before + [next]
  }

  /** These are the committed states of some run. */
  ghost predicate IsRun(crypto: Crypto, history: seq<Db>) {
    exists events :: history == History(crypto, events)
  }

  /** What the later results need to know of two states of a run. */
  lemma RunIsSafe(crypto: Crypto, history: seq<Db>, i: nat, j: nat)
    requires IsRun(crypto, history) && i <= j < |history|
    ensures Inv(crypto, history[i]) && Inv(crypto, history[j]) && Extends(history[i], history[j])
  {
    hide Inv, Extends;
    var events :| history == History(crypto, events);
    assert SafeHistory(crypto, History(crypto, events));
  }

  /** The running snapshot of the first k + 1 ballots, made when the k-th was. */
  function TallyOfFirst(rows: VoteRows, k: nat): Snapshot
    requires k < |rows.ballots| && k < |rows.snaps|
  {
    var counts := Tally(rows.ballots[..k + 1], rows.vote.options);
    Snapshot(k + 1, counts, k + 1, rows.snaps[k].publishedAt, false)
  }

  /** For N ballots the running snapshots are versions 1..N, version k counting the first k ballots; at
      most one snapshot follows, the final one, counting a prefix of the ballots. */
  ghost predicate SerialRows(rows: VoteRows) {
    var n := |rows.ballots|;
    && (|rows.snaps| == n || |rows.snaps| == n + 1)
    && (forall k :: 0 <= k < n ==>
          rows.snaps[k] == TallyOfFirst(rows, k))
    && (|rows.snaps| == n + 1 ==>
          && var m := rows.snaps[n].total;
          && m <= n
          && rows.snaps[n] ==
               Snapshot(n + 1, Tally(rows.ballots[..m], rows.vote.options), m, rows.snaps[n].publishedAt, true))
  }

  lemma RowsAreSerial(crypto: Crypto, id: nat, rows: VoteRows)
    requires RowsInv(crypto, id, rows)
    ensures SerialRows(rows)
  {
    forall k | 0 <= k < |rows.ballots|
      ensures rows.snaps[k] == TallyOfFirst(rows, k)
    {
      assert RunningSnapshot(rows, k);
    }
  }

  /** The tally is serial in every committed state of every interleaving, and nothing is rewritten. */
  lemma TallyIsSerial(crypto: Crypto, history: seq<Db>, i: nat, j: nat, v: nat)
    requires IsRun(crypto, history) && i <= j < |history| && v in history[i].votes
    ensures v in history[j].votes && SerialRows(history[j].votes[v])
    ensures history[i].votes[v].ballots <= history[j].votes[v].ballots
    ensures history[i].votes[v].snaps <= history[j].votes[v].snaps
  {
    hide IsRun;
    RunIsSafe(crypto, history, i, j);
    RowsAreSerial(crypto, v, history[j].votes[v]);
  }

  /** `ORDER BY version DESC LIMIT 1`. */
  function Latest(snaps: seq<Snapshot>): (s: Snapshot)
    requires snaps != []
    ensures s in snaps && forall k :: 0 <= k < |snaps| ==> snaps[k].version <= s.version
  {
    var last := snaps[|snaps| - 1];
    if |snaps| == 1 then last
    else
      var rest := Latest(snaps[..|snaps| - 1]);
      if last.version > rest.version then last else rest
  }

  lemma LatestIsLast(crypto: Crypto, id: nat, rows: VoteRows)
    requires RowsInv(crypto, id, rows) && rows.snaps != []
    ensures Latest(rows.snaps) == rows.snaps[|rows.snaps| - 1]
  {
    SnapshotVersions(crypto, id, rows);
    var k :| 0 <= k < |rows.snaps| && rows.snaps[k] == Latest(rows.snaps);
    assert rows.snaps[|rows.snaps| - 1].version == |rows.snaps|;
  }

  /** Once a vote is published nothing about it changes: no ballot, snapshot or field, in any later state.
      There is one final snapshot, it tallies the first `total` ballots, it is the latest, it was not made
      before the deadline, and settling again, at any clock reading, returns it. */
  lemma PublishedIsFinal(crypto: Crypto, history: seq<Db>, i: nat, j: nat, v: nat)
    requires IsRun(crypto, history) && i <= j < |history| && v in history[i].votes
    requires history[i].votes[v].vote.status == Published
    ensures v in history[j].votes && history[j].votes[v] == history[i].votes[v]
    ensures var rows := history[j].votes[v];
      && |rows.snaps| == |rows.ballots| + 1
      && var final := rows.snaps[|rows.ballots|];
      && ClosingSnapshot(rows, final)
      && (forall k :: 0 <= k < |rows.snaps| && rows.snaps[k].isFinal ==> k == |rows.ballots|)
      && Latest(rows.snaps) == final
      && forall counted, versioned, now :: Settle(history[i], history[j], counted, versioned, v, now) == Replay(final)
  {
    hide IsRun;
    RunIsSafe(crypto, history, i, j);
    FrozenRows(crypto, v, history[i].votes[v], history[j].votes[v]);
    var rows := history[j].votes[v];
    LatestIsLast(crypto, v, rows);
    RunningNotFinal(crypto, v, rows);
  }

  /** A settlement attempt before the deadline writes nothing, whatever states it reads: it is refused, or
      finds the vote published between its reads. */
  lemma NoEarlySettlement(crypto: Crypto, history: seq<Db>, i: nat, j: nat, counted: Db, versioned: Db, v: nat,
                          now: int)
    requires IsRun(crypto, history) && i <= j < |history| && v in history[i].votes
    requires now < history[i].votes[v].vote.closesAt
    ensures var r := Settle(history[i], history[j], counted, versioned, v, now);
      r == Fail(VoteNotClosed) || (!r.Write? && history[j].votes[v].vote.status == Published)
  {
    hide IsRun;
    RunIsSafe(crypto, history, i, j);
    RunningNotFinal(crypto, v, history[j].votes[v]);
  }

  // When the final count is complete

  /** The committed states of the run that these events make. */
  ghost predicate RunOf(crypto: Crypto, events: seq<Event>, history: seq<Db>) {
    history == History(crypto, events)
  }

  /** The e-th event is the settlement that published the vote. */
  ghost predicate PublishedBy(events: seq<Event>, history: seq<Db>, e: nat, v: nat) {
    && e < |events| && e + 1 < |history| && !PublishedIn(history[e], v) && PublishedIn(history[e + 1], v)
    && events[e].SettleVote? && events[e].id == v && !events[e].lost
    && events[e].seen <= events[e].looked <= events[e].counted <= events[e].versioned <= e
  }

  /** No ballot of the vote was committed between the settlement's count and its look at the versions. */
  ghost predicate NoBallotBetween(events: seq<Event>, history: seq<Db>, e: nat, v: nat)
    requires PublishedBy(events, history, e, v)
  {
    |BallotsOf(history[events[e].counted], v)| == |BallotsOf(history[events[e].versioned], v)|
  }

  lemma {:induction false} RunStep(crypto: Crypto, events: seq<Event>, history: seq<Db>, e: nat)
    requires RunOf(crypto, events, history) && e < |events|
    ensures |history| == |events| + 1 && SafeHistory(crypto, history) && SafeHistory(crypto, history[..e + 1])
    ensures history[e + 1] == Next(crypto, history[..e + 1], events[e])
  {
    hide SafeHistory, Next;
    var n := |events| - 1;
    var before := History(crypto, events[..n]);
    assert history == before + [Next(crypto, before, events[n])];
    if e == n {
      assert history[..e + 1] == before;
    } else {
      RunStep(crypto, events[..n], before, e);
      assert history[..e + 1] == before[..e + 1];
    }
  }

  /** One step publishes a vote only if it is a settlement of it, whose final snapshot is complete exactly
      when no ballot came between the count and the look at the versions. */
  lemma StepPublishes(crypto: Crypto, history: seq<Db>, ev: Event, v: nat)
    requires history != [] && SafeHistory(crypto, history)
    requires !PublishedIn(history[|history| - 1], v) && PublishedIn(Next(crypto, history, ev), v)
    ensures ev.SettleVote? && ev.id == v && !ev.lost && ev.seen <= ev.looked <= ev.counted <= ev.versioned < |history|
    ensures Complete(Next(crypto, history, ev), v)
       <==> |BallotsOf(history[ev.counted], v)| == |BallotsOf(history[ev.versioned], v)|
  {
    var db := history[|history| - 1];
    assert Inv(crypto, db);
    hide Inv, RowsOk, Extends, FinalSnapshot;
    if ev.SettleVote? && !ev.lost && ev.seen <= ev.looked <= ev.counted <= ev.versioned < |history| {
      SettlementPublishes(crypto, history, ev, v);
    }
  }

  lemma SettlementPublishes(crypto: Crypto, history: seq<Db>, ev: Event, v: nat)
    requires history != [] && SafeHistory(crypto, history)
    requires ev.SettleVote? && !ev.lost && ev.seen <= ev.looked <= ev.counted <= ev.versioned < |history|
    requires !PublishedIn(history[|history| - 1], v) && PublishedIn(Next(crypto, history, ev), v)
    ensures ev.id == v
    ensures Complete(Next(crypto, history, ev), v)
       <==> |BallotsOf(history[ev.counted], v)| == |BallotsOf(history[ev.versioned], v)|
  {
    hide Inv, RowsOk, Extends, Settle, PublishedIn, Complete;
    var db := history[|history| - 1];
    var seen, looked, counted, versioned :=
      history[ev.seen], history[ev.looked], history[ev.counted], history[ev.versioned];
    assert Extends(seen, looked) && Extends(seen, counted) && Extends(counted, versioned);
    assert Extends(versioned, db) && Extends(looked, db);
    assert Inv(crypto, looked) && Inv(crypto, counted) && Inv(crypto, versioned) && Inv(crypto, db);
    assert Next(crypto, history, ev) == AfterSettle(db, ev.id, Settle(seen, looked, counted, versioned, ev.id, ev.now));
    hide SafeHistory, Next;
    AttemptPublishes(crypto, seen, looked, counted, versioned, db, ev.id, ev.now, v);
  }

  lemma AttemptPublishes(crypto: Crypto, seen: Db, looked: Db, counted: Db, versioned: Db, db: Db, id: nat, now: int,
                         v: nat)
    requires Inv(crypto, looked) && Inv(crypto, counted) && Inv(crypto, versioned) && Inv(crypto, db)
    requires Extends(seen, looked) && Extends(seen, counted) && Extends(counted, versioned)
    requires Extends(versioned, db) && Extends(looked, db)
    requires !PublishedIn(db, v)
    requires PublishedIn(AfterSettle(db, id, Settle(seen, looked, counted, versioned, id, now)), v)
    ensures id == v
    ensures Complete(AfterSettle(db, id, Settle(seen, looked, counted, versioned, id, now)), v)
       <==> |BallotsOf(counted, v)| == |BallotsOf(versioned, v)|
  {
    hide Settle, Extends, RowsOk, SerialsInv, KeysInv, Complete, SettleAdmitted, AfterRepair;
    var r := Settle(seen, looked, counted, versioned, id, now);
    if r.Repair? {
      RepairChangesNothing(crypto, seen, looked, counted, versioned, db, id, now);
    } else if r.Write? && SettleAdmitted(db, id, r.snap) {
      SettleSafe(crypto, seen, looked, counted, versioned, db, id, now, r.snap);
    }
  }

  /** Every published vote was published by one of the run's settlements. */
  lemma {:induction false} PublishedBySome(crypto: Crypto, events: seq<Event>, history: seq<Db>, j: nat, v: nat)
    requires RunOf(crypto, events, history) && j < |history| && PublishedIn(history[j], v)
    ensures exists e :: 0 <= e < j && PublishedBy(events, history, e, v)
  {
    hide SafeHistory, Next;
    if j == 0 {
      FirstState(crypto, events, history);
    } else {
      RunStep(crypto, events, history, j - 1);
      if PublishedIn(history[j - 1], v) {
        PublishedBySome(crypto, events, history, j - 1, v);
      } else {
        StepPublishes(crypto, history[..j], events[j - 1], v);
        assert PublishedBy(events, history, j - 1, v);
      }
    }
  }

  lemma {:induction false} FirstState(crypto: Crypto, events: seq<Event>, history: seq<Db>)
    requires RunOf(crypto, events, history)
    ensures history != [] && history[0] == EmptyDb()
  {
    if events != [] { FirstState(crypto, events[..|events| - 1], History(crypto, events[..|events| - 1])); }
  }

  lemma RunOfIsRun(crypto: Crypto, events: seq<Event>, history: seq<Db>)
    requires RunOf(crypto, events, history)
    ensures IsRun(crypto, history)
  {
  }

  /** In every run, the final snapshot of a published vote counts every ballot, then and ever after,
      exactly when no ballot was committed between the two SELECTs of the settlement that published it. */
  lemma CompleteIffNoBallotBetween(crypto: Crypto, events: seq<Event>, history: seq<Db>, e: nat, j: nat, v: nat)
    requires RunOf(crypto, events, history) && PublishedBy(events, history, e, v) && e < j < |history|
    ensures Complete(history[j], v) <==> NoBallotBetween(events, history, e, v)
  {
    hide SafeHistory, Next, FinalSnapshot, RunOf;
    RunOfIsRun(crypto, events, history);
    hide IsRun;
    RunStep(crypto, events, history, e);
    StepPublishes(crypto, history[..e + 1], events[e], v);
    PublishedIsFinal(crypto, history, e + 1, j, v);
  }

  /** So it does for every vote of every run whose settlements take both from one state, by a snapshot
      transaction or a lock that the submissions share. */
  lemma OneStateSettlesAll(crypto: Crypto, events: seq<Event>, history: seq<Db>, j: nat, v: nat)
    requires RunOf(crypto, events, history) && j < |history| && PublishedIn(history[j], v)
    requires forall ev :: ev in events && ev.SettleVote? ==> ev.counted == ev.versioned
    ensures Complete(history[j], v)
  {
    hide RunOf, Complete, PublishedIn;
    PublishedBySome(crypto, events, history, j, v);
    var e :| 0 <= e < j && PublishedBy(events, history, e, v);
    CompleteIffNoBallotBetween(crypto, events, history, e, j, v);
  }

  /** The e-th event submitted this ballot: a credential that verifies, presented before the deadline to a vote
      that its attempt saw public and open, and with a serial number it saw unspent. */
  ghost predicate SubmittedBy(crypto: Crypto, events: seq<Event>, history: seq<Db>, e: nat, b: Ballot) {
    && e < |events| && events[e].SubmitBallot? && events[e].s.ticket == b.ticket && events[e].s.now == b.at
    && crypto.verify(b.ticket)
    && events[e].checked <= events[e].unspent <= e < |history| && b.ticket.vote in history[events[e].checked].votes
    && var vote := history[events[e].checked].votes[b.ticket.vote].vote;
    && vote.isPublic && vote.status == Open && b.ticket.option in vote.options && b.at < vote.closesAt
    && b.ticket.sn !in history[events[e].unspent].consumed
  }

  lemma StepCasts(crypto: Crypto, history: seq<Db>, ev: Event, v: nat, i: nat)
    requires history != [] && SafeHistory(crypto, history)
    requires !BallotAt(history[|history| - 1], v, i) && BallotAt(Next(crypto, history, ev), v, i)
    ensures ev.SubmitBallot? && ev.checked <= ev.unspent < |history|
    ensures Next(crypto, history, ev).votes[v].ballots[i] == Ballot(ev.s.ticket, ev.s.now)
    ensures crypto.verify(ev.s.ticket) && ev.s.ticket.vote in history[ev.checked].votes
    ensures var vote := history[ev.checked].votes[ev.s.ticket.vote].vote;
      && vote.isPublic && vote.status == Open && ev.s.ticket.option in vote.options && ev.s.now < vote.closesAt
      && ev.s.ticket.sn !in history[ev.unspent].consumed
  {
    hide SafeHistory, Settle, SubmitSnapshot, KeyAnswer, NewVote;
  }

  /** Every ballot of every run was submitted so. */
  lemma {:induction false} BallotSubmittedBySome(crypto: Crypto, events: seq<Event>, history: seq<Db>, j: nat,
                                                 v: nat, i: nat)
    requires RunOf(crypto, events, history) && j < |history| && BallotAt(history[j], v, i)
    ensures exists e :: 0 <= e < j && SubmittedBy(crypto, events, history, e, history[j].votes[v].ballots[i])
  {
    hide SafeHistory, Next, RowsExtend;
    if j == 0 {
      FirstState(crypto, events, history);
    } else {
      RunStep(crypto, events, history, j - 1);
      if BallotAt(history[j - 1], v, i) {
        BallotSubmittedBySome(crypto, events, history, j - 1, v, i);
        BallotStays(crypto, history, j - 1, v, i);
      } else {
        StepCasts(crypto, history[..j], events[j - 1], v, i);
        assert SubmittedBy(crypto, events, history, j - 1, history[j].votes[v].ballots[i]);
      }
    }
  }

  lemma BallotStays(crypto: Crypto, history: seq<Db>, j: nat, v: nat, i: nat)
    requires SafeHistory(crypto, history) && j + 1 < |history| && BallotAt(history[j], v, i)
    ensures BallotAt(history[j + 1], v, i) && history[j + 1].votes[v].ballots[i] == history[j].votes[v].ballots[i]
  {
    assert Extends(history[j], history[j + 1]);
    assert RowsExtend(history[j].votes[v], history[j + 1].votes[v]);
  }

  /** A vote, a ballot submitted before its deadline, and a settlement that counts before the ballot is
      committed and looks up the versions after. */
  function LateBallotEvents(t: Ticket): seq<Event> {
    [CreateVote(t.vote, Vote(true, 10, [t.option], Open, None, None)),
     SubmitBallot(Submission(t, 0, 9), 1, 1, 1, 1, false),
     SettleVote(t.vote, 10, 1, 1, 1, 2, false)]
  }

  function VoteCreated(t: Ticket): Db {
    Db(map[t.vote := VoteRows(Vote(true, 10, [t.option], Open, None, None), [], [])], {}, map[])
  }

  function BallotCast(crypto: Crypto, t: Ticket): Db {
    SubmitCommitted(crypto, VoteCreated(t), Submission(t, 0, 9), Snapshot(1, map[t.option := 1], 1, 9, false))
  }

  function BallotMissed(crypto: Crypto, t: Ticket): Db {
    SettleCommitted(BallotCast(crypto, t), t.vote, Snapshot(2, map[t.option := 0], 0, 10, true))
  }

  lemma LateSnapshot(rows: VoteRows, t: Ticket)
    requires rows.ballots == [] && rows.vote.options == [t.option]
    ensures SubmitSnapshot(rows, Submission(t, 0, 9)) == Snapshot(1, map[t.option := 1], 1, 9, false)
  {
    var b := Ballot(t, 9);
    assert [b][..0] == [] && Count([], t.option) == 0 && Count([b], t.option) == 1;
    assert [t.option][1..] == [] && Total([b], []) == 0;
    assert [] + [b] == [b] && Tally([b], [t.option]) == map[t.option := 1];
  }

  lemma LateSubmit(crypto: Crypto, t: Ticket)
    requires crypto.verify(t)
    ensures var db := VoteCreated(t);
      AfterSubmit(crypto, db, db, db, db, db, Submission(t, 0, 9)) == BallotCast(crypto, t)
  {
    LateSnapshot(VoteCreated(t).votes[t.vote], t);
    hide SubmitSnapshot, SubmitCommitted;
  }

  lemma LateSettle(crypto: Crypto, t: Ticket)
    ensures var db := VoteCreated(t);
      AfterSettle(BallotCast(crypto, t), t.vote, Settle(db, db, db, BallotCast(crypto, t), t.vote, 10)) ==
      BallotMissed(crypto, t)
  {
    var db := VoteCreated(t);
    var snaps := SnapsOf(BallotCast(crypto, t), t.vote);
    assert snaps == [Snapshot(1, map[t.option := 1], 1, 9, false)] && snaps[..0] == [];
    assert MaxVersion(snaps) == 1;
    assert [t.option][1..] == [] && Total([], []) == 0 && Count([], t.option) == 0 && CastBy([], 10) == [];
    assert Tally([], [t.option]) == map[t.option := 0];
  }

  lemma HistoryOneMore(crypto: Crypto, events: seq<Event>, ev: Event)
    ensures History(crypto, events + [ev]) == History(crypto, events) + [Next(crypto, History(crypto, events), ev)]
  {
    assert (events + [ev])[..|events|] == events;
  }

  /** The settlement commits, and the published tally misses the ballot for good. */
  lemma LateBallotIsMissed(crypto: Crypto, t: Ticket)
    requires crypto.verify(t)
    ensures var events, history := LateBallotEvents(t), History(crypto, LateBallotEvents(t));
      && RunOf(crypto, events, history) && PublishedBy(events, history, 2, t.vote)
      && BallotsOf(history[3], t.vote) == [Ballot(t, 9)]
      && SnapsOf(history[3], t.vote)[1..] == [Snapshot(2, map[t.option := 0], 0, 10, true)]
      && !Complete(history[3], t.vote)
  {
    var events := LateBallotEvents(t);
    HistoryAfterMiss(crypto, t);
    LateRows(crypto, t);
    hide History, LateBallotEvents;
  }

  lemma LateRows(crypto: Crypto, t: Ticket)
    ensures BallotsOf(BallotMissed(crypto, t), t.vote) == [Ballot(t, 9)]
    ensures SnapsOf(BallotMissed(crypto, t), t.vote)[1..] == [Snapshot(2, map[t.option := 0], 0, 10, true)]
    ensures !PublishedIn(BallotCast(crypto, t), t.vote) && PublishedIn(BallotMissed(crypto, t), t.vote)
    ensures !Complete(BallotMissed(crypto, t), t.vote)
  {
  }

  lemma HistoryAfterCreate(crypto: Crypto, t: Ticket)
    ensures History(crypto, LateBallotEvents(t)[..1]) == [EmptyDb(), VoteCreated(t)]
  {
    var create := LateBallotEvents(t)[0];
    assert [] + [create] == LateBallotEvents(t)[..1];
    HistoryOneMore(crypto, [], create);
    assert History(crypto, []) == [EmptyDb()];
    hide History, SafeHistory, AfterSubmit, AfterSettle, Settle;
    LateCreate(crypto, t, [EmptyDb()]);
  }

  lemma LateCreate(crypto: Crypto, t: Ticket, history: seq<Db>)
    requires history == [EmptyDb()] && SafeHistory(crypto, history)
    ensures Next(crypto, history, LateBallotEvents(t)[0]) == VoteCreated(t)
  {
    var vote := LateBallotEvents(t)[0].vote;
    assert NewVote(vote);
    hide SafeHistory, NewVote, AfterSubmit, AfterSettle, Settle;
    assert EmptyDb().votes[t.vote := VoteRows(vote, [], [])] == map[t.vote := VoteRows(vote, [], [])];
  }

  lemma HistoryAfterCast(crypto: Crypto, t: Ticket)
    requires crypto.verify(t)
    ensures History(crypto, LateBallotEvents(t)[..2]) == [EmptyDb(), VoteCreated(t), BallotCast(crypto, t)]
  {
    assert LateBallotEvents(t)[..1] + [LateBallotEvents(t)[1]] == LateBallotEvents(t)[..2];
    HistoryOneMore(crypto, LateBallotEvents(t)[..1], LateBallotEvents(t)[1]);
    HistoryAfterCreate(crypto, t);
    LateSubmit(crypto, t);
    hide History, SafeHistory, AfterSubmit, BallotCast, VoteCreated;
  }

  lemma HistoryAfterMiss(crypto: Crypto, t: Ticket)
    requires crypto.verify(t)
    ensures History(crypto, LateBallotEvents(t))
         == [EmptyDb(), VoteCreated(t), BallotCast(crypto, t), BallotMissed(crypto, t)]
  {
    assert LateBallotEvents(t)[..2] + [LateBallotEvents(t)[2]] == LateBallotEvents(t);
    HistoryOneMore(crypto, LateBallotEvents(t)[..2], LateBallotEvents(t)[2]);
    HistoryAfterCast(crypto, t);
    LateSettle(crypto, t);
    hide History, SafeHistory, AfterSettle, Settle, BallotCast, BallotMissed, VoteCreated;
  }

  /** The structural test `verify` applies to the latest snapshot before it looks at the signature. */
  function SumOver(counts: map<nat, nat>, options: seq<nat>): nat {
    if options == [] then 0
    else (if options[0] in counts then counts[options[0]] else 0) + SumOver(counts, options[1..])
  }

  predicate ValidateCounts(s: Snapshot, options: seq<nat>) {
    && (s.isFinal || s.version == s.total)
    && SumOver(s.counts, options) == s.total
    && s.counts.Keys == set o | o in options
  }

  lemma {:induction false} SumOfTally(ballots: seq<Ballot>, options: seq<nat>, part: seq<nat>)
    requires forall o :: o in part ==> o in options
    ensures SumOver(Tally(ballots, options), part) == Total(ballots, part)
  {
    if part != [] { SumOfTally(ballots, options, part[1..]); }
  }

  lemma RowsValidate(crypto: Crypto, id: nat, rows: VoteRows, k: nat)
    requires RowsInv(crypto, id, rows) && k < |rows.snaps|
    ensures ValidateCounts(rows.snaps[k], rows.vote.options)
  {
    RowsAreSerial(crypto, id, rows);
    var ballots := if k < |rows.ballots| then rows.ballots[..k + 1] else rows.ballots[..rows.snaps[k].total];
    forall b | 0 <= b < |ballots| ensures ballots[b].ticket.option in rows.vote.options {
      assert GoodBallot(crypto, id, rows.vote, rows.ballots[b]);
    }
    SumOfTally(ballots, rows.vote.options, rows.vote.options);
    TotalCountsBallots(ballots, rows.vote.options);
  }

  /** Every snapshot ever committed passes the structural test. */
  lemma SnapshotsValidate(crypto: Crypto, history: seq<Db>, i: nat, v: nat, k: nat)
    requires IsRun(crypto, history) && i < |history| && v in history[i].votes && k < |history[i].votes[v].snaps|
    ensures var rows := history[i].votes[v]; ValidateCounts(rows.snaps[k], rows.vote.options)
  {
    hide IsRun;
    RunIsSafe(crypto, history, i, i);
    RowsValidate(crypto, v, history[i].votes[v], k);
  }

  /** The key points to one ballot, no other key does, and that ballot answers the same request. */
  ghost predicate AcceptedIn(crypto: Crypto, db: Db, s: Submission) {
    && s.key in db.idem
    && var row := db.idem[s.key];
    && BallotAt(db, row.vote, row.index)
    && crypto.requestHash(TicketAt(db, row.vote, row.index)) == crypto.requestHash(s.ticket)
    && TicketAt(db, row.vote, row.index).sn in db.consumed
    && forall l :: l in db.idem && db.idem[l].vote == row.vote && db.idem[l].index == row.index ==> l == s.key
  }

  lemma AcceptedKey(crypto: Crypto, db: Db, s: Submission)
    requires SerialsInv(db) && KeysInv(crypto, db) && KeyAnswer(crypto, db, s) == Some(None)
    ensures AcceptedIn(crypto, db, s)
  {
  }

  /** A submission answered "accepted" from some committed state stays backed by exactly one ballot. */
  lemma AcceptedOnce(crypto: Crypto, history: seq<Db>, i: nat, j: nat, s: Submission)
    requires IsRun(crypto, history) && i <= j < |history| && KeyAnswer(crypto, history[i], s) == Some(None)
    ensures AcceptedIn(crypto, history[j], s) && history[j].idem[s.key] == history[i].idem[s.key]
  {
    hide IsRun;
    RunIsSafe(crypto, history, i, j);
    AcceptedKey(crypto, history[j], s);
  }

  // The services

  datatype Response = Accepted | Rejected(error: Error)

  /** What other workers commit while a request is between two of its steps. */
  type Interference = (nat, Db) -> Db

  ghost predicate Cooperative(crypto: Crypto, others: Interference) {
    forall n, db :: Inv(crypto, db) ==> Inv(crypto, others(n, db)) && Extends(db, others(n, db))
  }

  /** The credential check made before the transaction. */
  function VerifyCheck(crypto: Crypto, db: Db, s: Submission): Option<Error> {
    if VoteCheck(db, s).Some? then VoteCheck(db, s)
    else if !crypto.verify(s.ticket) then Some(InvalidSignature)
    else None
  }

  ghost predicate Quiet(others: Interference) {
    forall n, db :: others(n, db) == db
  }

  /** Nobody else is at work, and no attempt is lost. */
  ghost predicate Undisturbed(others: Interference, busy: nat -> bool) {
    Quiet(others) && forall n :: !busy(n)
  }

  predicate Untouched(before: Db, after: Db, v: nat) {
    (v in before.votes <==> v in after.votes) && (v in before.votes ==> after.votes[v] == before.votes[v])
  }

  /** Nobody else touches this vote: every submission to it and settlement of it waits for one lock. */
  ghost predicate Locked(others: Interference, v: nat) {
    forall n, db :: Untouched(db, others(n, db), v)
  }

  /** A submission that reads and commits one state always meets the unique constraints. */
  lemma CurrentSubmitAdmitted(crypto: Crypto, db: Db, s: Submission)
    requires Inv(crypto, db) && s.key !in db.idem && SubmitCheck(db, s) == None
    ensures SubmitAdmitted(db, s, SubmitSnapshot(db.votes[s.ticket.vote], s))
  {
    var rows := db.votes[s.ticket.vote];
    var ballots := rows.ballots + [Ballot(s.ticket, s.now)];
    forall i | 0 <= i < |ballots| ensures ballots[i].ticket.option in rows.vote.options {
      if i < |rows.ballots| { assert GoodBallot(crypto, s.ticket.vote, rows.vote, rows.ballots[i]); }
    }
    TotalCountsBallots(ballots, rows.vote.options);
    SnapshotVersions(crypto, s.ticket.vote, rows);
  }

  /** And so does a settlement. */
  lemma CurrentSettleAdmitted(crypto: Crypto, db: Db, v: nat, now: int)
    requires RowsOk(crypto, db) && Settle(db, db, db, db, v, now).Write?
    ensures SettleAdmitted(db, v, Settle(db, db, db, db, v, now).snap)
  {
    SnapshotVersions(crypto, v, db.votes[v]);
    assert FinalIndex(db.votes[v].snaps).None?;
  }

  /** A settlement answer is right: either a refusal of a vote that was not already published, or the final
      snapshot of a vote that is; and a vote already published is untouched. */
  ghost predicate Settled(before: Db, db: Db, v: nat, r: Settlement) {
    && (r.Replay? || r.Fail?)
    && (r.Replay? ==> v in db.votes && IsPublished(db.votes[v]) && r.snap == db.votes[v].snaps[|db.votes[v].ballots|])
    && (v in before.votes && IsPublished(before.votes[v]) ==>
          r.Replay? && v in db.votes && db.votes[v] == before.votes[v])
  }

  lemma AdmittedHasVote(db: Db, v: nat, snap: Snapshot)
    requires SettleAdmitted(db, v, snap)
    ensures v in db.votes
  {
  }

  lemma NotFoundAnswers(before: Db, db: Db, v: nat)
    requires Extends(before, db) && v !in db.votes
    ensures Settled(before, db, v, Fail(VoteNotFound))
  {
  }

  lemma StaysComplete(before: Db, after: Db, v: nat)
    requires Untouched(before, after, v)
    ensures Complete(before, v) ==> Complete(after, v)
  {
  }

  lemma NewlySettled(crypto: Crypto, before: Db, db: Db, v: nat, snap: Snapshot)
    requires Inv(crypto, before) && !PublishedIn(before, v)
    requires v in db.votes && IsPublished(db.votes[v]) && db.votes[v].snaps[|db.votes[v].ballots|] == snap
    ensures Settled(before, db, v, Replay(snap))
  {
  }

  lemma StillSettled(crypto: Crypto, before: Db, looked: Db, db: Db, v: nat, r: Settlement)
    requires Settled(before, looked, v, r) && v in looked.votes && v in db.votes && db.votes[v] == looked.votes[v]
    ensures Settled(before, db, v, r)
  {
  }

  /** What the record and the snapshots decide is right: nothing is left to count only if the vote was not
      published, and an answer is its final snapshot or a refusal of an unpublished vote. */
  lemma LookAnswers(crypto: Crypto, before: Db, seen: Db, looked: Db, v: nat, now: int)
    requires Inv(crypto, before) && Inv(crypto, seen) && Inv(crypto, looked)
    requires Extends(before, seen) && Extends(seen, looked) && v in seen.votes
    ensures var early := SettleLook(seen.votes[v].vote, SnapsOf(looked, v), now);
      && (early.None? || early.value.Repair? ==> !PublishedIn(before, v) && !PublishedIn(seen, v))
      && (early.Some? ==> !early.value.Write?)
      && (early.Some? && early.value.Repair? ==>
            early.value.index < |SnapsOf(looked, v)| &&
            Settled(before, looked, v, Replay(SnapsOf(looked, v)[early.value.index])))
      && (early.Some? && !early.value.Repair? ==> Settled(before, looked, v, early.value))
  {
    hide SerialsInv, KeysInv, GoodBallot, RunningSnapshot, ClosingSnapshot, Distinct;
    RunningNotFinal(crypto, v, looked.votes[v]);
    if PublishedIn(before, v) { FrozenRows(crypto, v, before.votes[v], seen.votes[v]); }
    if PublishedIn(seen, v) { FrozenRows(crypto, v, seen.votes[v], looked.votes[v]); }
  }

  /** What a submission answers when it runs alone, and whether it casts a ballot. */
  function SubmitAlone(crypto: Crypto, db: Db, s: Submission): Response {
    var known := KeyAnswer(crypto, db, s);
    if known == Some(None) then Accepted
    else if known.Some? then Rejected(known.value.value)
    else
      var invalid := VerifyCheck(crypto, db, s);
      if invalid.Some? then Rejected(invalid.value)
      else if SubmitCheck(db, s).Some? then Rejected(SubmitCheck(db, s).value)
      else Accepted
  }

  function StateAfterSubmit(crypto: Crypto, db: Db, s: Submission): Db {
    if s.key in db.idem || SubmitAlone(crypto, db, s) != Accepted || s.ticket.vote !in db.votes then db
    else SubmitCommitted(crypto, db, s, SubmitSnapshot(db.votes[s.ticket.vote], s))
  }

  /** What a settlement answers when it runs alone, and what it leaves behind. */
  function SettleAlone(db: Db, v: nat, now: int): Settlement {
    var r := Settle(db, db, db, db, v, now);
    if r.Write? then Replay(r.snap) else r
  }

  function StateAfterSettle(db: Db, v: nat, now: int): Db {
    AfterSettle(db, v, Settle(db, db, db, db, v, now))
  }

  /** What settling a vote does when nobody else is at work: an unknown vote is not found; a published one is
      answered with its last snapshot; before the deadline it is refused; and from the deadline on the final
      snapshot is written now, counts every ballot, and is the answer. */
  ghost predicate SettlesRightly(before: Db, after: Db, v: nat, now: int, r: Settlement) {
    if v !in before.votes then r == Fail(VoteNotFound) && after == before
    else
      var rows := before.votes[v];
      if rows.vote.status == Published then
        rows.snaps != [] && r == Replay(rows.snaps[|rows.snaps| - 1]) && after == before
      else if now < rows.vote.closesAt then r == Fail(VoteNotClosed) && after == before
      else
        && r.Replay? && r.snap.isFinal && r.snap.publishedAt == now && Complete(after, v)
        && after.votes[v].snaps == rows.snaps + [r.snap] && after.votes[v].ballots == rows.ballots
        && after == before.(votes := before.votes[v := after.votes[v]])
  }

  lemma SettleAloneIsRight(crypto: Crypto, db: Db, v: nat, now: int)
    requires Inv(crypto, db)
    ensures SettlesRightly(db, StateAfterSettle(db, v, now), v, now, SettleAlone(db, v, now))
  {
    hide SerialsInv, KeysInv, Complete;
    if v in db.votes {
      RunningNotFinal(crypto, v, db.votes[v]);
      if Settle(db, db, db, db, v, now).Write? {
        var snap := Settle(db, db, db, db, v, now).snap;
        CurrentSettleAdmitted(crypto, db, v, now);
        ExtendsReflexive(db);
        SettleSafe(crypto, db, db, db, db, db, v, now, snap);
      }
    }
  }

  /** The ticket may be cast: a public, open vote with this option, before its deadline, and a credential that
      verifies and is not consumed. */
  predicate MayCast(crypto: Crypto, db: Db, s: Submission) {
    && s.ticket.vote in db.votes
    && var vote := db.votes[s.ticket.vote].vote;
    && vote.isPublic && vote.status == Open && s.ticket.option in vote.options && s.now < vote.closesAt
    && s.ticket.sn !in db.consumed && crypto.verify(s.ticket)
  }

  /** What a submission does when nobody else is at work: under a new key it is accepted exactly when the ticket
      may be cast, and then adds that one ballot and spends the credential. */
  predicate SubmitsRightly(crypto: Crypto, before: Db, after: Db, s: Submission, r: Response) {
    if r.Rejected? || s.key in before.idem then after == before && (s.key in before.idem || !MayCast(crypto, before, s))
    else
      && MayCast(crypto, before, s) && s.ticket.vote in after.votes
      && after.votes[s.ticket.vote].ballots == before.votes[s.ticket.vote].ballots + [Ballot(s.ticket, s.now)]
      && after.consumed == before.consumed + {s.ticket.sn}
      && s.key in after.idem && after.idem[s.key].requestHash == crypto.requestHash(s.ticket)
  }

  lemma SubmitAloneIsRight(crypto: Crypto, db: Db, s: Submission)
    ensures SubmitsRightly(crypto, db, StateAfterSubmit(crypto, db, s), s, SubmitAlone(crypto, db, s))
  {
    hide SubmitSnapshot;
  }

  class TallyServices {
    var db: Db

    /** Other workers' commits become visible. */
    method Interleave(crypto: Crypto, others: Interference, n: nat)
      requires Inv(crypto, db) && Cooperative(crypto, others)
      modifies this
      ensures Inv(crypto, db) && Extends(old(db), db)
      ensures Quiet(others) ==> db == old(db)
      ensures forall v :: Locked(others, v) ==> Untouched(old(db), db, v)
    {
      db := others(n, db);
    }

    /** The answer for a key that is already taken. */
    method Respond(crypto: Crypto, s: Submission) returns (r: Option<Response>)
      requires Inv(crypto, db)
      ensures r.None? <==> s.key !in db.idem
      ensures r == Some(Accepted) ==> AcceptedIn(crypto, db, s)
      ensures var known := KeyAnswer(crypto, db, s);
        r == if known.None? then None
             else if known.value.None? then Some(Accepted) else Some(Rejected(known.value.value))
    {
      var answer := KeyAnswer(crypto, db, s);
      if answer.None? { return None; }
      if answer.value.Some? { return Some(Rejected(answer.value.value)); }
      AcceptedKey(crypto, db, s);
      return Some(Accepted);
    }

    /** The insert part of an attempt: constraints are checked against the current state. */
    method CommitSubmit(crypto: Crypto, ghost checked: Db, ghost counted: Db, s: Submission, snap: Snapshot)
      returns (ok: bool)
      requires RowsOk(crypto, counted) && Inv(crypto, db) && Extends(checked, counted) && Extends(counted, db)
      requires crypto.verify(s.ticket) && VoteCheck(checked, s) == None
      requires snap == SubmitSnapshot(counted.votes[s.ticket.vote], s)
      modifies this
      ensures Inv(crypto, db) && Extends(old(db), db)
      ensures ok == SubmitAdmitted(old(db), s, snap)
      ensures db == if ok then SubmitCommitted(crypto, old(db), s, snap) else old(db)
      ensures ok ==> AcceptedIn(crypto, db, s)
    {
      ok := SubmitAdmitted(db, s, snap);
      if ok {
        SubmitSafe(crypto, checked, counted, db, s);
        db := SubmitCommitted(crypto, db, s, snap);
        AcceptedKey(crypto, db, s);
      } else {
        ExtendsReflexive(db);
      }
    }

    /** One attempt of `submit`; None asks for another. A conflict is resolved by looking the key and the
        serial number up again. */
    method AttemptSubmit(crypto: Crypto, s: Submission, others: Interference, n: nat, busy: bool)
      returns (r: Option<Response>)
      requires Inv(crypto, db) && Cooperative(crypto, others) && crypto.verify(s.ticket)
      modifies this
      ensures Inv(crypto, db) && Extends(old(db), db)
      ensures r == Some(Accepted) ==> AcceptedIn(crypto, db, s)
      ensures Quiet(others) && !busy && VerifyCheck(crypto, old(db), s) == None ==>
                r == Some(SubmitAlone(crypto, old(db), s)) && db == StateAfterSubmit(crypto, old(db), s)
    {
      hide SerialsInv, KeysInv, RowsOk, RowsInv, AcceptedIn, RowsExtend, SubmitCommitted, SubmitSnapshot;
      hide SubmitAdmitted;
      ghost var d0 := db;
      ExtendsReflexive(db);
      r := Respond(crypto, s);
      if r.Some? { return; }
      Interleave(crypto, others, n);
      ghost var checked := db;
      var refused := VoteCheck(db, s);
      if refused.Some? { return Some(Rejected(refused.value)); }
      Interleave(crypto, others, n + 1);
      ghost var unspent := db;
      refused := SpentCheck(db, s);
      if refused.Some? { ExtendsTransitive(d0, checked, db); return Some(Rejected(refused.value)); }
      Interleave(crypto, others, n + 2);
      ghost var counted := db;
      ExtendsTransitive(checked, unspent, counted);
      var snap := SubmitSnapshot(db.votes[s.ticket.vote], s);
      Interleave(crypto, others, n + 3);
      ghost var current := db;
      ExtendsTransitive(d0, checked, counted);
      ExtendsTransitive(d0, counted, current);
      if busy { return None; }
      if Quiet(others) { CurrentSubmitAdmitted(crypto, d0, s); }
      var ok := CommitSubmit(crypto, checked, counted, s, snap);
      ExtendsTransitive(d0, current, db);
      if ok { return Some(Accepted); }
      r := Respond(crypto, s);
      if r.None? && s.ticket.sn in db.consumed { return Some(Rejected(CredentialConsumed)); }
    }

    /** `submit`: look the key up, check the credential, then at most three attempts. */
    method Submit(crypto: Crypto, s: Submission, others: Interference, busy: nat -> bool) returns (r: Response)
      requires Inv(crypto, db) && Cooperative(crypto, others)
      modifies this
      ensures Inv(crypto, db) && Extends(old(db), db)
      ensures r.Accepted? ==> AcceptedIn(crypto, db, s)
      ensures Undisturbed(others, busy) ==>
                r == SubmitAlone(crypto, old(db), s) && db == StateAfterSubmit(crypto, old(db), s)
      ensures Undisturbed(others, busy) ==> SubmitsRightly(crypto, old(db), db, s, r)
      ensures s.key in old(db).idem ==>
                db == old(db) && r == if old(db).idem[s.key].requestHash == crypto.requestHash(s.ticket) then Accepted
                                      else Rejected(IdempotencyConflict)
    {
      SubmitAloneIsRight(crypto, db, s);
      hide Inv, Extends, AcceptedIn, Cooperative, SubmitCheck, SubmitCommitted, SubmitsRightly;
      ExtendsReflexive(db);
      var answer := Respond(crypto, s);
      if answer.Some? { return answer.value; }
      var refused := VerifyCheck(crypto, db, s);
      if refused.Some? { return Rejected(refused.value); }
      for attempt := 0 to 3
        invariant Inv(crypto, db) && Extends(old(db), db)
        invariant Undisturbed(others, busy) ==> attempt == 0 && db == old(db)
      {
        ghost var d0 := db;
        Interleave(crypto, others, 5 * attempt);
        ghost var d1 := db;
        answer := AttemptSubmit(crypto, s, others, 5 * attempt + 1, busy(attempt));
        ExtendsTransitive(old(db), d0, d1);
        ExtendsTransitive(old(db), d1, db);
        if answer.Some? { return answer.value; }
      }
      return Rejected(Conflict);
    }

    /** The insert part of a settlement: constraints are checked against the current state. */
    method CommitSettle(crypto: Crypto, ghost seen: Db, ghost looked: Db, ghost counted: Db, ghost versioned: Db,
                        v: nat, now: int, snap: Snapshot)
      returns (ok: bool)
      requires RowsOk(crypto, counted) && RowsOk(crypto, versioned) && Inv(crypto, db)
      requires Extends(seen, counted) && Extends(counted, versioned) && Extends(versioned, db)
      requires Settle(seen, looked, counted, versioned, v, now) == Write(snap)
      modifies this
      ensures Inv(crypto, db) && Extends(old(db), db)
      ensures ok == SettleAdmitted(old(db), v, snap)
      ensures db == AfterSettle(old(db), v, Write(snap)) && (!ok ==> db == old(db))
      ensures ok ==> v in db.votes && IsPublished(db.votes[v]) && db.votes[v].snaps[|db.votes[v].ballots|] == snap
      ensures ok ==> (Complete(db, v) <==> |BallotsOf(counted, v)| == |BallotsOf(versioned, v)|)
    {
      hide Inv, RowsOk, Extends, Settle, Complete, IsPublished, SettleCommitted, SettleAdmitted;
      ok := SettleAdmitted(db, v, snap);
      if ok {
        AdmittedHasVote(db, v, snap);
        SettleSafe(crypto, seen, looked, counted, versioned, db, v, now, snap);
        db := SettleCommitted(db, v, snap);
      } else {
        ExtendsReflexive(db);
      }
    }

    /** One attempt of `settle`; None asks for another. Every SELECT reads a state of its own. After a
        conflict, an existing final snapshot is the answer. */
    method AttemptSettle(crypto: Crypto, ghost before: Db, v: nat, now: int, others: Interference, n: nat, busy: bool)
      returns (r: Option<Settlement>)
      requires Inv(crypto, before) && Inv(crypto, db) && Extends(before, db) && Cooperative(crypto, others)
      modifies this
      ensures Inv(crypto, db) && Extends(old(db), db)
      ensures r.Some? ==> Settled(before, db, v, r.value)
      ensures Locked(others, v) ==> Untouched(old(db), db, v) || Complete(db, v)
      ensures Quiet(others) && !busy ==>
                r == Some(SettleAlone(old(db), v, now)) && db == StateAfterSettle(old(db), v, now)
    {
      hide Inv, Extends, RowsExtend, SettleLook, SettleSnapshot, AfterRepair, SettleAdmitted, Cooperative, Complete;
      hide Settled;
      ghost var seen := db;
      ExtendsReflexive(db);
      if v !in db.votes {
        NotFoundAnswers(before, db, v);
        return Some(Fail(VoteNotFound));
      }
      var vote := db.votes[v].vote;
      Interleave(crypto, others, n);
      ghost var looked := db;
      LookAnswers(crypto, before, seen, looked, v, now);
      var early := SettleLook(vote, SnapsOf(db, v), now);
      if early.Some? && !early.value.Repair? { return early; }
      if early.Some? {
        var existing := SnapsOf(db, v)[early.value.index];
        Interleave(crypto, others, n + 1);
        RepairChangesNothing(crypto, seen, looked, looked, looked, db, v, now);
        StillSettled(crypto, before, looked, db, v, Replay(existing));
        ExtendsTransitive(seen, looked, db);
        db := AfterRepair(db, v, early.value.index, early.value.undated);
        return Some(Replay(existing));
      }
      r := CountAndCommit(crypto, before, seen, looked, v, vote, now, others, n + 1, busy);
      ExtendsTransitive(seen, looked, db);
    }

    /** The rest of an attempt once nothing is decided yet: count, look up the highest version, insert. */
    method CountAndCommit(crypto: Crypto, ghost before: Db, ghost seen: Db, ghost looked: Db, v: nat, vote: Vote,
                          now: int,
                          others: Interference, n: nat, busy: bool)
      returns (r: Option<Settlement>)
      requires Inv(crypto, before) && Inv(crypto, seen) && Inv(crypto, db) && db == looked
      requires Cooperative(crypto, others)
      requires Extends(before, seen) && Extends(seen, looked) && v in seen.votes && vote == seen.votes[v].vote
      requires SettleLook(vote, SnapsOf(looked, v), now) == None
      modifies this
      ensures Inv(crypto, db) && Extends(old(db), db)
      ensures r.Some? ==> Settled(before, db, v, r.value)
      ensures Locked(others, v) ==> Untouched(looked, db, v) || Complete(db, v)
      ensures Quiet(others) && !busy && seen == looked ==>
                r == Some(SettleAlone(looked, v, now)) && db == StateAfterSettle(looked, v, now)
    {
      hide Inv, Extends, RowsExtend, SettleLook, SettleSnapshot, AfterSettle, SettleAdmitted, Cooperative;
      hide Complete, Settled, IsPublished, Quiet, Locked;
      LookAnswers(crypto, before, seen, looked, v, now);
      Interleave(crypto, others, n);
      ghost var counted := db;
      ExtendsTransitive(seen, looked, counted);
      var ballots := BallotsOf(db, v);
      Interleave(crypto, others, n + 1);
      ghost var versioned := db;
      ExtendsTransitive(looked, counted, versioned);
      var snap := SettleSnapshot(vote, ballots, SnapsOf(db, v), now);
      Interleave(crypto, others, n + 2);
      ghost var current := db;
      ExtendsTransitive(looked, versioned, current);
      if busy { return None; }
      if Quiet(others) && seen == looked { CurrentSettleAdmitted(crypto, seen, v, now); }
      var ok := CommitSettle(crypto, seen, looked, counted, versioned, v, now, snap);
      ExtendsTransitive(looked, current, db);
      if ok {
        NewlySettled(crypto, before, db, v, snap);
        return Some(Replay(snap));
      }
      ExtendsTransitive(before, seen, looked);
      ExtendsTransitive(before, looked, db);
      r := ExistingFinal(crypto, before, v);
    }

    /** The lookup after a conflict. */
    method ExistingFinal(crypto: Crypto, ghost before: Db, v: nat) returns (r: Option<Settlement>)
      requires Inv(crypto, before) && Inv(crypto, db) && Extends(before, db)
      ensures r.Some? ==> Settled(before, db, v, r.value)
      ensures r.None? ==> v in db.votes ==> !IsPublished(db.votes[v])
    {
      var k := FinalIndex(SnapsOf(db, v));
      if k.None? { return None; }
      RunningNotFinal(crypto, v, db.votes[v]);
      if v in before.votes && IsPublished(before.votes[v]) { FrozenRows(crypto, v, before.votes[v], db.votes[v]); }
      return Some(Replay(db.votes[v].snaps[k.value]));
    }

    /** `settle`: at most three attempts. */
    method SettleOne(crypto: Crypto, v: nat, now: int, others: Interference, busy: nat -> bool) returns (r: Settlement)
      requires Inv(crypto, db) && Cooperative(crypto, others)
      modifies this
      ensures Inv(crypto, db) && Extends(old(db), db)
      ensures r == Fail(Conflict) || Settled(old(db), db, v, r)
      ensures Locked(others, v) ==> Untouched(old(db), db, v) || Complete(db, v)
      ensures Undisturbed(others, busy) ==> r == SettleAlone(old(db), v, now) && db == StateAfterSettle(old(db), v, now)
      ensures Undisturbed(others, busy) ==> SettlesRightly(old(db), db, v, now, r)
    {
      SettleAloneIsRight(crypto, db, v, now);
      hide Inv, Extends, Cooperative, Complete, Settled, SettleAlone, StateAfterSettle, Locked, SettlesRightly;
      ExtendsReflexive(db);
      for attempt := 0 to 3
        invariant Inv(crypto, db) && Extends(old(db), db)
        invariant Locked(others, v) ==> Untouched(old(db), db, v) || Complete(db, v)
        invariant Undisturbed(others, busy) ==> attempt == 0 && db == old(db)
      {
        ghost var d0 := db;
        Interleave(crypto, others, 5 * attempt);
        ghost var d1 := db;
        ExtendsTransitive(old(db), d0, d1);
        var answer := AttemptSettle(crypto, old(db), v, now, others, 5 * attempt + 1, busy(attempt));
        ExtendsTransitive(old(db), d1, db);
        if Untouched(d0, d1, v) { StaysComplete(d0, d1, v); }
        if Untouched(d1, db, v) { StaysComplete(d1, db, v); }
        if answer.Some? { return answer.value; }
      }
      return Fail(Conflict);
    }
  }
}
