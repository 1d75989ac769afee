/** Withdrawing hole posts by any number of racing workers. Each SELECT of an attempt reads some earlier
    committed state of the database, each its own, and the attempt commits against the current one; only
    the unique constraints on the revocation log arbitrate. */
module HoleGovernance {
  import opened Bytes
  import opened Text
  import opened HashChain
  import opened RevocationLog

  datatype PostStatus = Published | Withdrawn | OtherStatus

  datatype Post = Post(status: PostStatus, forHole: bool, sn: Bytes, credentialValid: bool)

  datatype User = User(active: bool, mayWithdraw: bool)

  /** The two tables. The log is listed in commit order; readers treat it as a bag. */
  datatype Db = Db(posts: map<nat, Post>, log: seq<Entry>)

  /** A withdrawal request, with the operator row found for it, if any. */
  datatype Request = Request(postId: nat, reason: string, operatorId: string, operator: Option<User>, now: Utc)

  datatype Error =
    Unauthorized | Forbidden | PostNotFound | InvalidService | InvalidReason | IntegrityError | Conflict | Unexpected

  datatype Outcome =
    | Fail(error: Error)
    | Replay(entry: Entry)
    | Append(entry: Entry)

  predicate Logged(log: seq<Entry>, sn: Bytes) {
    exists i :: 0 <= i < |log| && log[i].body.sn == sn
  }

  /** The row with this serial number; the unique constraint makes it the only one. */
  function RowFor(log: seq<Entry>, sn: Bytes): (e: Entry)
    requires Logged(log, sn)
    ensures e in log && e.body.sn == sn
  {
    if log[|log| - 1].body.sn == sn then log[|log| - 1] else RowFor(log[..|log| - 1], sn)
  }

  /** The states that the three SELECTs of an attempt read: the post, the row with its serial number, and
      the whole log. */
  datatype Seen = Seen(post: Db, row: Db, log: Db)

  function AllFrom(db: Db): Seen {
    Seen(db, db, db)
  }

  /** The row to append to the verified log. */
  ghost function Chained(h: Digest, log: seq<Entry>, body: Revocation): (r: Outcome)
    ensures !r.Replay?
  {
    var chain := OrderedLog(h, log);
    if chain.None? then Fail(IntegrityError)
    else
      var prev := TailHash(chain.value);
      var encoded := EncodeRevocationEntry(prev, body.sn, body.reason, body.ts);
      if encoded.None? then Fail(Unexpected) else Append(Row(Some(prev), h(encoded.value), body))
  }

  /** What one attempt decides from what it reads. */
  ghost function Attempt(h: Digest, seen: Seen, req: Request): Outcome {
    var reason := NormalizeReason(req.reason);
    if reason.None? then Fail(InvalidReason)
    else if req.operator.None? || !req.operator.value.active then Fail(Unauthorized)
    else if !req.operator.value.mayWithdraw then Fail(Forbidden)
    else if req.postId !in seen.post.posts then Fail(PostNotFound)
    else
      var post := seen.post.posts[req.postId];
      if !post.forHole then Fail(InvalidService)
      else if |post.sn| < 16 then Fail(IntegrityError)
      else if post.status == Withdrawn then
        (if Logged(seen.row.log, post.sn) then Replay(RowFor(seen.row.log, post.sn)) else Fail(IntegrityError))
      else if post.status != Published then Fail(Conflict)
      else if Logged(seen.row.log, post.sn) then Fail(IntegrityError)
      else Chained(h, seen.log.log, Revocation(post.sn, reason.value, req.operatorId, req.now))
  }

  /** The unique constraints of the revocation log: primary key `hash_curr`, `hash_prev`, `sn`. */
  predicate Admits(log: seq<Entry>, e: Entry) {
    forall i :: 0 <= i < |log| ==> log[i].curr != e.curr && log[i].prev != e.prev && log[i].body.sn != e.body.sn
  }

  predicate Commits(db: Db, postId: nat, e: Entry) {
    postId in db.posts && Admits(db.log, e)
  }

  /** The two writes of a committed withdrawal. */
  function Committed(db: Db, postId: nat, e: Entry): Db
    requires postId in db.posts
  {
    Db(db.posts[postId := db.posts[postId].(status := Withdrawn, credentialValid := false)], db.log + [e])
  }

  predicate WithdrawnAs(db: Db, p: nat, sn: Bytes) {
    p in db.posts && db.posts[p].forHole && db.posts[p].status == Withdrawn &&
    !db.posts[p].credentialValid && db.posts[p].sn == sn
  }

  ghost predicate HasWithdrawnPost(db: Db, sn: Bytes) {
    exists p :: WithdrawnAs(db, p, sn)
  }

  ghost predicate UniquePosts(db: Db) {
    forall p, q :: p in db.posts && q in db.posts && db.posts[p].forHole && db.posts[q].forHole ==>
                     db.posts[p].sn == db.posts[q].sn ==> p == q
  }

  /** A withdrawn post has its row, and serial numbers identify hole posts. */
  ghost predicate PostsMatchLog(db: Db) {
    && (forall p :: p in db.posts && db.posts[p].status == Withdrawn ==>
          WithdrawnAs(db, p, db.posts[p].sn) && Logged(db.log, db.posts[p].sn))
    && (forall i :: 0 <= i < |db.log| ==>
          HasWithdrawnPost(db, db.log[i].body.sn))
    && UniquePosts(db)
  }

  ghost predicate UniqueSerials(log: seq<Entry>) {
    forall i, j :: 0 <= i < j < |log| ==> log[i].body.sn != log[j].body.sn
  }

  /** Withdrawn posts and log rows correspond one to one by serial number, and the log is intact. */
  ghost predicate Inv(h: Digest, db: Db) {
    IntactLog(h, db.log) && PostsMatchLog(db) && UniqueSerials(db.log)
  }

  /** How a committed state may evolve: the log only grows at its end, posts stay, withdrawal is final. */
  ghost predicate Extends(before: Db, after: Db) {
    && before.log <= after.log
    && (forall p :: p in before.posts ==>
          && p in after.posts
          && after.posts[p].sn == before.posts[p].sn && after.posts[p].forHole == before.posts[p].forHole
          && (after.posts[p].status == before.posts[p].status ||
              (before.posts[p].status == Published && after.posts[p].status == Withdrawn)))
  }

  /** Outputs have 32 bytes and are never the all-zero genesis value. */
  ghost predicate GoodDigest(h: Digest) {
    forall x :: |h(x)| == 32 && h(x) != GENESIS_HASH
  }

  /** The reads of an attempt happen in order between these two states. */
  ghost predicate ReadBetween(h: Digest, start: Db, seen: Seen, end: Db) {
    && Inv(h, seen.post) && Inv(h, seen.row) && Inv(h, seen.log)
    && Extends(start, seen.post) && Extends(seen.post, seen.row) && Extends(seen.row, seen.log)
    && Extends(seen.log, end)
  }

  /** An attempt that appends read an intact log, and names its tail as the predecessor. */
  lemma AppendNamesTail(h: Digest, seen: Seen, req: Request)
    requires IntactLog(h, seen.log.log) && Attempt(h, seen, req).Append?
    ensures var e := Attempt(h, seen, req).entry;
      e.prev == Some(TailHash(seen.log.log)) && HashOk(h, e) && req.postId in seen.post.posts
      && var post := seen.post.posts[req.postId]; e.body.sn == post.sn && post.forHole && post.status == Published
  {
    AppendIsChained(h, seen, req);
    hide *;
    var post, reason := seen.post.posts[req.postId], NormalizeReason(req.reason).value;
    ChainedToTail(h, seen.log.log, Revocation(post.sn, reason, req.operatorId, req.now));
  }

  lemma AppendIsChained(h: Digest, seen: Seen, req: Request)
    requires Attempt(h, seen, req).Append?
    ensures NormalizeReason(req.reason).Some? && req.postId in seen.post.posts
    ensures var post := seen.post.posts[req.postId];
      && post.forHole && post.status == Published && |post.sn| >= 16
      && Attempt(h, seen, req) == Chained(h, seen.log.log,
           Revocation(post.sn, NormalizeReason(req.reason).value, req.operatorId, req.now))
  {
    hide Chained, NormalizeReason, Logged, RowFor;
  }

  lemma ChainedToTail(h: Digest, log: seq<Entry>, body: Revocation)
    requires IntactLog(h, log)
    ensures var r := Chained(h, log, body);
      && (r.Append? || r == Fail(Unexpected))
      && (r.Append? ==> r.entry.prev == Some(TailHash(log)) && HashOk(h, r.entry) && r.entry.body == body)
  {
    OrderedLogCanonical(h, log, log);
    hide OrderedLog, IntactLog, EncodeRevocationEntry;
  }

  /** The unique `hash_prev` serialises appends: an attempt that commits read the current log. */
  lemma CommittingReadIsCurrent(h: Digest, read: Db, db: Db, e: Entry)
    requires IntactLog(h, db.log) && read.log <= db.log
    requires e.prev == Some(TailHash(read.log)) && Admits(db.log, e)
    ensures read.log == db.log
  {
    if |read.log| < |db.log| {
      RowNamesPredecessor(h, db.log, |read.log|);
    }
  }

  /** The appended row passes the column checks exactly when the digest has 32 bytes. */
  lemma AppendedColumns(h: Digest, seen: Seen, req: Request)
    requires IntactLog(h, seen.log.log) && Attempt(h, seen, req).Append?
    requires Admits(seen.log.log, Attempt(h, seen, req).entry)
    ensures var e := Attempt(h, seen, req).entry;
      e.curr != GENESIS_HASH ==> (ColumnsOk(e) <==> |e.curr| == 32)
  {
    var e, log := Attempt(h, seen, req).entry, seen.log.log;
    AppendNamesTail(h, seen, req);
    AppendedBody(h, seen, req);
    hide Attempt, HashOk, IntactLog;
    TailIsColumn(h, log);
    if log != [] {
      assert log[|log| - 1].curr != e.curr;
    }
  }

  lemma TailIsColumn(h: Digest, log: seq<Entry>)
    requires IntactLog(h, log)
    ensures |TailHash(log)| == 32
  {
    if log != [] { assert ColumnsOk(log[|log| - 1]); }
  }

  lemma AppendedBody(h: Digest, seen: Seen, req: Request)
    requires IntactLog(h, seen.log.log) && Attempt(h, seen, req).Append?
    ensures var e := Attempt(h, seen, req).entry;
      |e.body.sn| >= 16 && Strip(e.body.reason) == e.body.reason && 1 <= |e.body.reason| <= 500
  {
    StripIsStripped(req.reason);
    StripIsStripped(Strip(req.reason));
    AppendIsChained(h, seen, req);
    var post, reason := seen.post.posts[req.postId], NormalizeReason(req.reason).value;
    ChainedToTail(h, seen.log.log, Revocation(post.sn, reason, req.operatorId, req.now));
    hide Attempt, Chained, IntactLog, HashOk, Strip;
  }

  /** A committed withdrawal leaves an intact log in every case but one: a digest of the wrong length, or
      equal to the genesis value. */
  lemma CommitKeepsLogIntact(h: Digest, seen: Seen, db: Db, req: Request)
    requires IntactLog(h, seen.log.log) && IntactLog(h, db.log) && seen.log.log <= db.log
    requires Attempt(h, seen, req).Append? && Commits(db, req.postId, Attempt(h, seen, req).entry)
    ensures var e := Attempt(h, seen, req).entry;
      IntactLog(h, Committed(db, req.postId, e).log) <==> |e.curr| == 32 && e.curr != GENESIS_HASH
  {
    var e := Attempt(h, seen, req).entry;
    AppendNamesTail(h, seen, req);
    CommittingReadIsCurrent(h, seen.log, db, e);
    AppendedColumns(h, seen, req);
    IntactExtend(h, db.log, e);
  }

  lemma LoggedExtend(log: seq<Entry>, e: Entry, sn: Bytes)
    ensures Logged(log + [e], sn) <==> Logged(log, sn) || e.body.sn == sn
  {
    var t := log + [e];
    assert t[|log|] == e && forall i :: 0 <= i < |log| ==> t[i] == log[i];
    if Logged(log, sn) {
      var i :| 0 <= i < |log| && log[i].body.sn == sn;
      assert t[i].body.sn == sn;
    }
    if e.body.sn == sn { assert t[|log|].body.sn == sn; }
  }

  /** A committed withdrawal keeps posts and log rows in one-to-one correspondence. */
  lemma CommitKeepsMatch(db: Db, postId: nat, e: Entry)
    requires PostsMatchLog(db) && UniqueSerials(db.log) && Commits(db, postId, e)
    requires db.posts[postId].forHole && e.body.sn == db.posts[postId].sn
    ensures PostsMatchLog(Committed(db, postId, e)) && UniqueSerials(Committed(db, postId, e).log)
  {
    var after := Committed(db, postId, e);
    forall p | p in after.posts && after.posts[p].status == Withdrawn
      ensures WithdrawnAs(after, p, after.posts[p].sn) && Logged(after.log, after.posts[p].sn)
    {
      LoggedExtend(db.log, e, after.posts[p].sn);
    }
    forall i | 0 <= i < |after.log|
      ensures HasWithdrawnPost(after, after.log[i].body.sn)
    {
      if i < |db.log| {
        assert HasWithdrawnPost(db, db.log[i].body.sn);
        var p :| WithdrawnAs(db, p, db.log[i].body.sn);
        assert WithdrawnAs(after, p, after.log[i].body.sn);
      } else {
        assert WithdrawnAs(after, postId, after.log[i].body.sn);
      }
    }
  }

  lemma CommitExtends(db: Db, postId: nat, e: Entry)
    requires postId in db.posts && db.posts[postId].status == Published
    ensures Extends(db, Committed(db, postId, e))
  {
  }

  /** A post seen published is still published while no row carries its serial number. */
  lemma StillPublished(read: Db, db: Db, postId: nat)
    requires PostsMatchLog(db) && Extends(read, db)
    requires postId in read.posts && read.posts[postId].status == Published && !Logged(db.log, read.posts[postId].sn)
    ensures db.posts[postId].status == Published
  {
  }

  /** Every committed withdrawal, however stale each of its reads, keeps the invariant and only extends the
      state. */
  lemma CommitSafe(h: Digest, start: Db, seen: Seen, db: Db, req: Request)
    requires GoodDigest(h) && ReadBetween(h, start, seen, db) && Inv(h, db)
    requires Attempt(h, seen, req).Append? && Commits(db, req.postId, Attempt(h, seen, req).entry)
    ensures var after := Committed(db, req.postId, Attempt(h, seen, req).entry);
      Inv(h, after) && Extends(db, after) && db.posts[req.postId].status == Published
  {
    ExtendsTransitive(seen.post, seen.row, seen.log);
    ExtendsTransitive(seen.post, seen.log, db);
    AppendNamesTail(h, seen, req);
    CommitIsSafe(h, seen, db, req, Attempt(h, seen, req).entry);
  }

  lemma CommitIsSafe(h: Digest, seen: Seen, db: Db, req: Request, e: Entry)
    requires GoodDigest(h) && Inv(h, seen.log) && Inv(h, db) && Extends(seen.post, db) && Extends(seen.log, db)
    requires Attempt(h, seen, req) == Append(e) && Commits(db, req.postId, e)
    requires req.postId in seen.post.posts
    requires var post := seen.post.posts[req.postId]; e.body.sn == post.sn && post.forHole && post.status == Published
    ensures Inv(h, Committed(db, req.postId, e)) && Extends(db, Committed(db, req.postId, e))
    ensures db.posts[req.postId].status == Published
  {
    StillPublished(seen.post, db, req.postId);
    CommitKeepsLogIntact(h, seen, db, req);
    CommitKeepsMatch(db, req.postId, e);
    CommitExtends(db, req.postId, e);
  }

  /** What can happen next: a post is published, or a worker tries to commit what it decided. Its three
      reads name the state they saw by its position in the history. A `lost` attempt is rolled back for
      another reason (lock, other table). */
  datatype Event =
    | Publish(postId: nat, post: Post)
    | Withdraw(req: Request, atPost: nat, atRow: nat, atLog: nat, lost: bool)

  predicate CanPublish(db: Db, postId: nat, post: Post) {
    postId !in db.posts && post.status == Published
    && forall p :: p in db.posts && db.posts[p].sn == post.sn ==> db.posts[p].forHole != post.forHole
  }

  ghost function Next(h: Digest, history: seq<Db>, ev: Event): Db
    requires history != []
  {
    var db := history[|history| - 1];
    match ev
    case Publish(postId, post) =>
      if CanPublish(db, postId, post) then Db(db.posts[postId := post], db.log) else db
    case Withdraw(req, post, row, log, lost) =>
      if lost || !(post <= row <= log < |history|) then db
      else
        var outcome := Attempt(h, Seen(history[post], history[row], history[log]), req);
        if outcome.Append? && Commits(db, req.postId, outcome.entry)
        then Committed(db, req.postId, outcome.entry) else db
  }

  /** Every committed state of a run, from the empty database. */
  ghost function History(h: Digest, events: seq<Event>): (history: seq<Db>)
    ensures |history| == |events| + 1
  {
    if events == [] then [Db(map[], [])]
    else
      var before := History(h, events[..|events| - 1]);
      before + [Next(h, before, events[|events| - 1])]
  }

  ghost predicate SafeHistory(h: Digest, history: seq<Db>) {
    && (forall i :: 0 <= i < |history| ==> Inv(h, history[i]))
    && (forall i, j :: 0 <= i <= j < |history| ==> Extends(history[i], history[j]))
  }

  lemma PublishSafe(h: Digest, db: Db, postId: nat, post: Post)
    requires Inv(h, db) && CanPublish(db, postId, post)
    ensures Inv(h, Db(db.posts[postId := post], db.log)) && Extends(db, Db(db.posts[postId := post], db.log))
  {
    var after := Db(db.posts[postId := post], db.log);
    forall i | 0 <= i < |after.log|
      ensures HasWithdrawnPost(after, after.log[i].body.sn)
    {
      assert HasWithdrawnPost(db, db.log[i].body.sn);
      var p :| WithdrawnAs(db, p, db.log[i].body.sn);
      assert WithdrawnAs(after, p, after.log[i].body.sn);
    }
  }

  lemma NextSafe(h: Digest, history: seq<Db>, ev: Event)
    requires GoodDigest(h) && history != [] && SafeHistory(h, history)
    ensures var db := history[|history| - 1];
      Inv(h, Next(h, history, ev)) && Extends(db, Next(h, history, ev))
  {
    var last := |history| - 1;
    var db := history[last];
    match ev {
      case Publish(postId, post) =>
        if CanPublish(db, postId, post) { PublishSafe(h, db, postId, post); }
      case Withdraw(req, post, row, log, lost) =>
        if !lost && post <= row <= log < |history| {
          var seen := Seen(history[post], history[row], history[log]);
          assert ReadBetween(h, seen.post, seen, db);
          var outcome := Attempt(h, seen, req);
          hide Attempt, Inv, Extends, ReadBetween;
          if outcome.Append? && Commits(db, req.postId, outcome.entry) {
            CommitSafe(h, seen.post, seen, db, req);
          }
        }
    }
  }

  lemma ExtendsTransitive(a: Db, b: Db, c: Db)
    requires Extends(a, b) && Extends(b, c)
    ensures Extends(a, c)
  {
  }

  lemma {:induction false} HistorySafe(h: Digest, events: seq<Event>)
    requires GoodDigest(h)
    ensures SafeHistory(h, History(h, events))
  {
    if events == [] {
      EmptyIntact(h);
    } else {
      var before := History(h, events[..|events| - 1]);
      HistorySafe(h, events[..|events| - 1]);
      var next := Next(h, before, events[|events| - 1]);
      NextSafe(h, before, events[|events| - 1]);
      SafeOneMore(h, before, next);
    }
  }

  lemma SafeOneMore(h: Digest, history: seq<Db>, next: Db)
    requires history != [] && SafeHistory(h, history)
    requires Inv(h, next) && Extends(history[|history| - 1], next)
    ensures SafeHistory(h, history + [next])
  {
    var longer := history + [next];
    forall i, j | 0 <= i <= j < |longer| ensures Extends(longer[i], longer[j]) {
      if j < |history| {
        assert Extends(history[i], history[j]);
      } else if i < |history| {
        assert Extends(history[i], history[|history| - 1]);
        ExtendsTransitive(history[i], history[|history| - 1], next);
      }
    }
    forall i | 0 <= i < |longer| ensures Inv(h, longer[i]) {
      assert i < |history| ==> Inv(h, history[i]);
    }
  }

  lemma EmptyIntact(h: Digest)
    ensures Inv(h, Db(map[], []))
  {
  }

  /** In every run of racing workers, however stale their reads: each committed log is intact, an earlier
      log is a prefix of a later one, and withdrawn posts and log rows match one to one. */
  lemma RacingWithdrawalsSafe(h: Digest, events: seq<Event>, i: nat, j: nat)
    requires GoodDigest(h) && i <= j <= |events|
    ensures var history := History(h, events);
      && IntactLog(h, history[j].log)
      && history[i].log <= history[j].log
      && (forall p :: p in history[j].posts && history[j].posts[p].status == Withdrawn ==>
            Logged(history[j].log, history[j].posts[p].sn))
      && (forall k :: 0 <= k < |history[j].log| ==> HasWithdrawnPost(history[j], history[j].log[k].body.sn))
      && UniqueSerials(history[j].log)
      && UniquePosts(history[j])
  {
    HistorySafe(h, events);
  }

  lemma RowForStable(log: seq<Entry>, longer: seq<Entry>, sn: Bytes)
    requires log <= longer && UniqueSerials(longer) && Logged(log, sn)
    ensures Logged(longer, sn) && RowFor(longer, sn) == RowFor(log, sn)
  {
    var e := RowFor(log, sn);
    var i :| 0 <= i < |log| && log[i] == e;
    assert longer[i] == e;
    var f := RowFor(longer, sn);
    var j :| 0 <= j < |longer| && longer[j] == f;
  }

  ghost predicate Authorised(req: Request) {
    NormalizeReason(req.reason).Some? && req.operator == Some(User(true, true))
  }

  /** Once a post is withdrawn in some committed state, every later authorised request for it, whichever
      states committed since it reads, answers with the same row; nothing is ever appended for it again. */
  lemma WithdrawalIdempotent(h: Digest, events: seq<Event>, i: nat, j: nat, k: nat, log: Db, req: Request)
    requires GoodDigest(h) && i <= j <= k <= |events| && Authorised(req)
    requires var db := History(h, events)[i]; req.postId in db.posts && db.posts[req.postId].status == Withdrawn
    ensures var history := History(h, events);
      var sn := history[i].posts[req.postId].sn;
      Logged(history[i].log, sn)
      && Attempt(h, Seen(history[j], history[k], log), req) == Replay(RowFor(history[i].log, sn))
  {
    hide Inv, Extends, Attempt, History;
    HistorySafe(h, events);
    var history := History(h, events);
    assert Extends(history[i], history[j]) && Extends(history[i], history[k]);
    assert Inv(h, history[i]) && Inv(h, history[j]) && Inv(h, history[k]);
    hide SafeHistory;
    WithdrawnReplays(h, history[i], history[j], history[k], log, req);
  }

  lemma WithdrawnReplays(h: Digest, before: Db, post: Db, row: Db, log: Db, req: Request)
    requires Inv(h, before) && Inv(h, post) && Inv(h, row) && Extends(before, post) && Extends(before, row)
    requires Authorised(req)
    requires req.postId in before.posts && before.posts[req.postId].status == Withdrawn
    ensures var sn := before.posts[req.postId].sn;
      Logged(before.log, sn) && Attempt(h, Seen(post, row, log), req) == Replay(RowFor(before.log, sn))
  {
    var sn := before.posts[req.postId].sn;
    assert WithdrawnAs(before, req.postId, sn);
    LoggedSerialIsLong(h, before.log, sn);
    RowForStable(before.log, row.log, sn);
    hide OrderedLog, IntactLog, NormalizeReason, EncodeRevocationEntry, HasWithdrawnPost;
  }

  lemma LoggedSerialIsLong(h: Digest, log: seq<Entry>, sn: Bytes)
    requires IntactLog(h, log) && Logged(log, sn)
    ensures |sn| >= 16
  {
    var i :| 0 <= i < |log| && log[i].body.sn == sn;
    assert ColumnsOk(log[i]);
  }

  lemma RefusedIffLogged(h: Digest, seen: Seen, req: Request)
    requires IntactLog(h, seen.log.log) && Authorised(req) && req.postId in seen.post.posts
    requires var post := seen.post.posts[req.postId]; post.forHole && post.status == Published && |post.sn| >= 16
    ensures Attempt(h, seen, req) == Fail(IntegrityError) <==> Logged(seen.row.log, seen.post.posts[req.postId].sn)
  {
    var post, reason := seen.post.posts[req.postId], NormalizeReason(req.reason).value;
    ChainedToTail(h, seen.log.log, Revocation(post.sn, reason, req.operatorId, req.now));
    hide Chained, NormalizeReason, OrderedLog, IntactLog, HashOk, Logged;
  }

  lemma LoggedIffWithdrawn(h: Digest, db: Db, p: nat)
    requires Inv(h, db) && p in db.posts && db.posts[p].forHole
    ensures Logged(db.log, db.posts[p].sn) <==> db.posts[p].status == Withdrawn
  {
    hide IntactLog;
    if Logged(db.log, db.posts[p].sn) {
      var i :| 0 <= i < |db.log| && db.log[i].body.sn == db.posts[p].sn;
      assert HasWithdrawnPost(db, db.posts[p].sn);
    }
  }

  /** For a post that is there to withdraw, an authorised request is refused as an integrity error exactly
      when another worker withdraws it between the read of the post and the lookup of its row. */
  lemma IntegrityErrorIff(h: Digest, start: Db, seen: Seen, db: Db, req: Request)
    requires ReadBetween(h, start, seen, db) && Authorised(req) && req.postId in seen.post.posts
    requires var post := seen.post.posts[req.postId]; post.forHole && post.status == Published && |post.sn| >= 16
    ensures Attempt(h, seen, req) == Fail(IntegrityError) <==> seen.row.posts[req.postId].status == Withdrawn
  {
    hide Attempt, PostsMatchLog, UniqueSerials, IntactLog;
    RefusedIffLogged(h, seen, req);
    LoggedIffWithdrawn(h, seen.row, req.postId);
  }

  /** A request for this post, served between the two states, is rightly answered by this row: it is the
      post's row, the post is withdrawn, and if it already was, the row is the old one. */
  ghost predicate Answers(earlier: Db, later: Db, postId: nat, e: Entry) {
    && e in later.log && postId in later.posts
    && e.body.sn == later.posts[postId].sn && WithdrawnAs(later, postId, e.body.sn)
    && (postId in earlier.posts && earlier.posts[postId].status == Withdrawn ==>
          Logged(earlier.log, e.body.sn) && e == RowFor(earlier.log, e.body.sn))
  }

  lemma RowAnswers(h: Digest, earlier: Db, later: Db, postId: nat)
    requires Inv(h, earlier) && Inv(h, later) && Extends(earlier, later)
    requires postId in later.posts && later.posts[postId].status == Withdrawn
    ensures Logged(later.log, later.posts[postId].sn)
    ensures Answers(earlier, later, postId, RowFor(later.log, later.posts[postId].sn))
  {
    var sn := later.posts[postId].sn;
    assert WithdrawnAs(later, postId, sn);
    if postId in earlier.posts && earlier.posts[postId].status == Withdrawn {
      assert WithdrawnAs(earlier, postId, sn);
      RowForStable(earlier.log, later.log, sn);
    }
  }

  lemma ReplayFindsRow(h: Digest, seen: Seen, req: Request)
    ensures Attempt(h, seen, req).Replay? ==>
              && req.postId in seen.post.posts && seen.post.posts[req.postId].status == Withdrawn
              && Logged(seen.row.log, seen.post.posts[req.postId].sn)
              && Attempt(h, seen, req).entry == RowFor(seen.row.log, seen.post.posts[req.postId].sn)
  {
    hide Chained, NormalizeReason, Logged, RowFor;
  }

  lemma ReadAnswers(h: Digest, earlier: Db, seen: Seen, later: Db, req: Request)
    requires Inv(h, earlier) && ReadBetween(h, earlier, seen, later) && Inv(h, later)
    ensures Attempt(h, seen, req).Replay? ==> Answers(earlier, later, req.postId, Attempt(h, seen, req).entry)
  {
    ReplayFindsRow(h, seen, req);
    hide Attempt, PostsMatchLog, IntactLog, Answers;
    if Attempt(h, seen, req).Replay? {
      ExtendsTransitive(earlier, seen.post, seen.row);
      ExtendsTransitive(seen.row, seen.log, later);
      ExtendsTransitive(earlier, seen.row, later);
      RowForStable(seen.row.log, later.log, seen.post.posts[req.postId].sn);
      RowAnswers(h, earlier, later, req.postId);
    }
  }

  lemma CommitAnswers(h: Digest, earlier: Db, seen: Seen, db: Db, req: Request)
    requires GoodDigest(h) && ReadBetween(h, earlier, seen, db) && Inv(h, db)
    requires Attempt(h, seen, req).Append? && Commits(db, req.postId, Attempt(h, seen, req).entry)
    ensures var e := Attempt(h, seen, req).entry;
      Answers(earlier, Committed(db, req.postId, e), req.postId, e)
  {
    hide Attempt;
    var e := Attempt(h, seen, req).entry;
    AppendNamesTail(h, seen, req);
    ExtendsTransitive(earlier, seen.post, seen.row);
    ExtendsTransitive(earlier, seen.row, seen.log);
    ExtendsTransitive(seen.post, seen.row, seen.log);
    ExtendsTransitive(seen.post, seen.log, db);
    CommitSafe(h, earlier, seen, db, req);
    assert e == (db.log + [e])[|db.log|];
  }

  datatype Response = Done(entry: Entry) | Failed(error: Error)

  /** What other workers commit while an attempt is between its read and its commit. */
  type Interference = (nat, Db) -> Db

  ghost predicate Cooperative(h: Digest, others: Interference) {
    forall n, db :: Inv(h, db) ==> Inv(h, others(n, db)) && Extends(db, others(n, db))
  }

  ghost predicate Quiet(others: Interference) {
    forall n, db :: others(n, db) == db
  }

  /** Nobody else is at work, and no lock fails. */
  ghost predicate Undisturbed(others: Interference, busy: nat -> bool) {
    Quiet(others) && forall n :: !busy(n)
  }

  /** What a withdrawal answers when it runs alone. */
  ghost function AnswerAlone(h: Digest, db: Db, req: Request): Response {
    match Attempt(h, AllFrom(db), req)
    case Fail(error) => Failed(error)
    case Replay(entry) => Done(entry)
    case Append(entry) => if Commits(db, req.postId, entry) then Done(entry) else Failed(Conflict)
  }

  /** And what it leaves behind. */
  ghost function StateAlone(h: Digest, db: Db, req: Request): Db {
    match Attempt(h, AllFrom(db), req)
    case Append(entry) => if Commits(db, req.postId, entry) then Committed(db, req.postId, entry) else db
    case _ => db
  }

  /** The attempt appends a row that the unique constraints reject. */
  ghost predicate Refused(h: Digest, db: Db, req: Request) {
    var outcome := Attempt(h, AllFrom(db), req);
    outcome.Append? && !Commits(db, req.postId, outcome.entry)
  }

  lemma RefusedAlone(h: Digest, db: Db, req: Request)
    ensures Refused(h, db, req) ==> AnswerAlone(h, db, req) == Failed(Conflict) && StateAlone(h, db, req) == db
  {
    hide Attempt;
  }

  lemma AppendSeesPublished(h: Digest, seen: Seen, req: Request)
    ensures Attempt(h, seen, req).Append? ==>
              req.postId in seen.post.posts && seen.post.posts[req.postId].status == Published
  {
  }

  lemma ExtendsReflexive(db: Db)
    ensures Extends(db, db)
  {
  }

  /** The operator is active and may withdraw, and gave a reason. */
  predicate MayWithdraw(req: Request) {
    && req.operator.Some? && req.operator.value.active && req.operator.value.mayWithdraw
    && 1 <= |Strip(req.reason)| <= 500
  }

  /** Nobody else appends or is answered. */
  lemma OnlyByOperators(h: Digest, seen: Seen, req: Request)
    ensures Attempt(h, seen, req).Append? || Attempt(h, seen, req).Replay? ==> MayWithdraw(req)
  {
    hide Chained, Logged, RowFor, Strip;
  }

  /** The row a withdrawal appends to this log. */
  predicate IsNextRow(h: Digest, log: seq<Entry>, sn: Bytes, req: Request, e: Entry) {
    && e.prev == Some(TailHash(log)) && HashOk(h, e)
    && e.body == Revocation(sn, Strip(req.reason), req.operatorId, req.now)
  }

  /** What a withdrawal does when nobody else is at work. Without authority nothing happens. Of a hole post with
      a proper serial number, a withdrawn one is answered with its row; and a published one is withdrawn by the
      next row of the log, unless that row's hash is in use. */
  ghost predicate WithdrawsRightly(h: Digest, before: Db, after: Db, req: Request, r: Response) {
    if !MayWithdraw(req) || req.postId !in before.posts then r.Failed? && after == before
    else
      var post := before.posts[req.postId];
      post.forHole && 16 <= |post.sn| < 0x1_0000_0000 ==>
        (post.status == Withdrawn ==>
          Logged(before.log, post.sn) && r == Done(RowFor(before.log, post.sn)) && after == before)
        && (post.status == Published ==>
          (r.Done? && IsNextRow(h, before.log, post.sn, req, r.entry) && after.log == before.log + [r.entry]
           && after.posts == before.posts[req.postId := post.(status := Withdrawn, credentialValid := false)])
          || (r == Failed(Conflict) && after == before && exists e, i ::
                IsNextRow(h, before.log, post.sn, req, e) && 0 <= i < |before.log| && before.log[i].curr == e.curr))
        && (post.status == OtherStatus ==> r == Failed(Conflict) && after == before)
  }

  lemma NothingWithoutPost(h: Digest, db: Db, req: Request)
    requires !MayWithdraw(req) || req.postId !in db.posts
    ensures Attempt(h, AllFrom(db), req).Fail?
  {
    hide Chained, Logged, RowFor, Strip;
  }

  lemma ChainedSucceeds(h: Digest, log: seq<Entry>, body: Revocation)
    requires IntactLog(h, log) && EncodeRevocationEntry(TailHash(log), body.sn, body.reason, body.ts).Some?
    ensures Chained(h, log, body).Append?
  {
    OrderedLogCanonical(h, log, log);
    hide OrderedLog, IntactLog, EncodeRevocationEntry;
  }

  lemma AttemptOnHolePost(h: Digest, db: Db, req: Request)
    requires MayWithdraw(req) && req.postId in db.posts
    requires var post := db.posts[req.postId];
      post.forHole && |post.sn| >= 16 && (Logged(db.log, post.sn) <==> post.status == Withdrawn)
    ensures var post := db.posts[req.postId];
      Attempt(h, AllFrom(db), req) ==
        if post.status == Withdrawn then Replay(RowFor(db.log, post.sn))
        else if post.status == OtherStatus then Fail(Conflict)
        else Chained(h, db.log, Revocation(post.sn, Strip(req.reason), req.operatorId, req.now))
  {
    hide Chained, Logged, RowFor, Strip;
  }

  /** Only a hash in use keeps the next row out. */
  lemma NextRowAdmitted(h: Digest, db: Db, postId: nat, e: Entry)
    requires Inv(h, db) && postId in db.posts && !Logged(db.log, e.body.sn) && e.prev == Some(TailHash(db.log))
    ensures Commits(db, postId, e) || exists i :: 0 <= i < |db.log| && db.log[i].curr == e.curr
  {
    forall i | 0 <= i < |db.log| ensures db.log[i].prev != e.prev && db.log[i].body.sn != e.body.sn {
      RowNamesPredecessor(h, db.log, i);
      TailIsNobodysPredecessor(h, db.log, i);
    }
  }

  lemma TailIsNobodysPredecessor(h: Digest, log: seq<Entry>, i: nat)
    requires IntactLog(h, log) && i < |log|
    ensures TailHash(log[..i]) != TailHash(log)
  {
    if i > 0 { assert log[..i][i - 1] == log[i - 1]; }
  }

  lemma PublishedPostAlone(h: Digest, db: Db, req: Request, e: Entry)
    requires MayWithdraw(req) && req.postId in db.posts && Attempt(h, AllFrom(db), req) == Append(e)
    requires var post := db.posts[req.postId];
      && post.forHole && 16 <= |post.sn| < 0x1_0000_0000
      && post.status == Published && IsNextRow(h, db.log, post.sn, req, e)
    requires Commits(db, req.postId, e) || exists i :: 0 <= i < |db.log| && db.log[i].curr == e.curr
    ensures WithdrawsRightly(h, db, StateAlone(h, db, req), req, AnswerAlone(h, db, req))
  {
    hide Attempt, MayWithdraw, IsNextRow;
  }

  /** The outcome of an attempt on a published post. */
  lemma PublishedPostAppends(h: Digest, db: Db, req: Request) returns (e: Entry)
    requires Inv(h, db) && MayWithdraw(req) && req.postId in db.posts
    requires var post := db.posts[req.postId];
      post.forHole && 16 <= |post.sn| < 0x1_0000_0000 && post.status == Published
    ensures Attempt(h, AllFrom(db), req) == Append(e) && IsNextRow(h, db.log, db.posts[req.postId].sn, req, e)
    ensures Commits(db, req.postId, e) || exists i :: 0 <= i < |db.log| && db.log[i].curr == e.curr
  {
    hide PostsMatchLog, UniqueSerials, IntactLog, Attempt, Chained, HashOk, Logged, Strip, Commits;
    var post := db.posts[req.postId];
    var body := Revocation(post.sn, Strip(req.reason), req.operatorId, req.now);
    LoggedIffWithdrawn(h, db, req.postId);
    ChainedToTail(h, db.log, body);
    TailIsColumn(h, db.log);
    StripIsStripped(req.reason);
    StripIsStripped(Strip(req.reason));
    EncodableIff(TailHash(db.log), post.sn, Strip(req.reason), req.now);
    ChainedSucceeds(h, db.log, body);
    AttemptOnHolePost(h, db, req);
    e := Chained(h, db.log, body).entry;
    NextRowAdmitted(h, db, req.postId, e);
  }

  lemma HolePostAlone(h: Digest, db: Db, req: Request)
    requires Inv(h, db) && MayWithdraw(req) && req.postId in db.posts
    requires var post := db.posts[req.postId]; post.forHole && 16 <= |post.sn| < 0x1_0000_0000
    ensures WithdrawsRightly(h, db, StateAlone(h, db, req), req, AnswerAlone(h, db, req))
  {
    hide Inv, Attempt, MayWithdraw, IsNextRow, RowFor, Logged, Commits;
    if db.posts[req.postId].status == Published {
      var e := PublishedPostAppends(h, db, req);
      PublishedPostAlone(h, db, req, e);
    } else {
      LoggedIffWithdrawn(h, db, req.postId);
      AttemptOnHolePost(h, db, req);
    }
  }

  lemma AloneWithdraws(h: Digest, db: Db, req: Request)
    requires Inv(h, db)
    ensures WithdrawsRightly(h, db, StateAlone(h, db, req), req, AnswerAlone(h, db, req))
  {
    OnlyByOperators(h, AllFrom(db), req);
    hide Inv, Attempt;
    if MayWithdraw(req) && req.postId in db.posts {
      var post := db.posts[req.postId];
      if post.forHole && 16 <= |post.sn| < 0x1_0000_0000 { HolePostAlone(h, db, req); }
    } else {
      NothingWithoutPost(h, db, req);
    }
  }

  class HoleContentGovernanceService {
    var db: Db

    /** `withdraw_post`: at most four attempts; a conflict is resolved by reading the post again. Other
        workers, and lock failures, may strike between any read and its commit. */
    method WithdrawPost(h: Digest, req: Request, others: Interference, busy: nat -> bool) returns (r: Response)
      requires GoodDigest(h) && Inv(h, db) && Cooperative(h, others)
      modifies this
      ensures Inv(h, db) && Extends(old(db), db)
      ensures r.Done? ==> Answers(old(db), db, req.postId, r.entry)
      ensures Undisturbed(others, busy) ==> r == AnswerAlone(h, old(db), req) && db == StateAlone(h, old(db), req)
      ensures r.Done? ==> MayWithdraw(req)
      ensures Undisturbed(others, busy) ==> WithdrawsRightly(h, old(db), db, req, r)
    {
      AloneWithdraws(h, db, req);
      hide GoodDigest, Inv, Extends, Answers, Cooperative, Undisturbed, Refused, AnswerAlone, StateAlone;
      hide WithdrawsRightly, MayWithdraw;
      ghost var start := db;
      ExtendsReflexive(db);
      for attempt := 0 to 4
        invariant Inv(h, db) && Extends(start, db)
        invariant Undisturbed(others, busy) ==> db == start
        invariant Undisturbed(others, busy) && attempt > 0 ==> Refused(h, start, req)
      {
        var answer := AttemptWithdraw(h, start, req, others, 5 * attempt, busy, attempt);
        if answer.Some? { return answer.value; }
      }
      RefusedAlone(h, start, req);
      return Failed(Conflict);
    }

    /** One attempt; None asks for another. */
    method AttemptWithdraw(h: Digest, ghost start: Db, req: Request, others: Interference, n: nat, busy: nat -> bool,
                           attempt: nat)
      returns (r: Option<Response>)
      requires GoodDigest(h) && Inv(h, start) && Inv(h, db) && Extends(start, db) && Cooperative(h, others)
      modifies this
      ensures Inv(h, db) && Extends(start, db)
      ensures r.Some? && r.value.Done? ==> Answers(start, db, req.postId, r.value.entry)
      ensures Undisturbed(others, busy) && r.Some? ==>
                r.value == AnswerAlone(h, old(db), req) && db == StateAlone(h, old(db), req)
      ensures Undisturbed(others, busy) && r.None? ==> db == old(db) && Refused(h, db, req)
      ensures r.Some? && r.value.Done? ==> MayWithdraw(req)
    {
      hide GoodDigest, Inv, Extends, Answers, Attempt, Committed;
      ghost var d0 := db;
      var outcome, seen := Decide(h, start, req, others, n);
      OnlyByOperators(h, seen, req);
      ghost var decided := db;
      ReadAnswers(h, start, seen, db, req);
      if outcome.Fail? { return Some(Failed(outcome.error)); }
      if outcome.Replay? { return Some(Done(outcome.entry)); }
      db := others(n + 2, db);
      ExtendsTransitive(start, decided, db);
      ExtendsTransitive(seen.log, decided, db);
      if !busy(attempt) && Commits(db, req.postId, outcome.entry) {
        CommitSafe(h, start, seen, db, req);
        CommitAnswers(h, start, seen, db, req);
        ghost var before := db;
        db := Committed(db, req.postId, outcome.entry);
        ExtendsTransitive(start, before, db);
        return Some(Done(outcome.entry));
      }
      AppendSeesPublished(h, seen, req);
      r := Recheck(h, start, req, others, n + 3);
    }

    /** The fresh look at the post after a conflict. */
    method Recheck(h: Digest, ghost start: Db, req: Request, others: Interference, n: nat) returns (r: Option<Response>)
      requires Inv(h, start) && Inv(h, db) && Extends(start, db) && Cooperative(h, others)
      modifies this
      ensures Inv(h, db) && Extends(start, db)
      ensures r.Some? ==> r.value.Done? && Answers(start, db, req.postId, r.value.entry)
      ensures Quiet(others) ==> db == old(db)
      ensures Quiet(others) && r.Some? ==> req.postId in db.posts && db.posts[req.postId].status == Withdrawn
    {
      hide Inv, Answers;
      ghost var d0 := db;
      db := others(n, db);
      ExtendsTransitive(start, d0, db);
      if req.postId !in db.posts || db.posts[req.postId].status != Withdrawn { return None; }
      var sn := db.posts[req.postId].sn;
      ghost var d1 := db;
      db := others(n + 1, db);
      ExtendsTransitive(start, d1, db);
      RowAnswers(h, start, db, req.postId);
      return Some(Done(RowFor(db.log, sn)));
    }

    /** The read part of one attempt, through the verifying read of the log. */
    method Decide(h: Digest, ghost start: Db, req: Request, others: Interference, n: nat)
      returns (outcome: Outcome, ghost seen: Seen)
      requires Inv(h, db) && Extends(start, db) && Cooperative(h, others)
      modifies this
      ensures Inv(h, db) && Extends(start, db) && ReadBetween(h, start, seen, db)
      ensures outcome == Attempt(h, seen, req)
      ensures Quiet(others) ==> db == old(db) && seen == AllFrom(old(db))
    {
      hide Inv, Extends;
      ExtendsReflexive(db);
      seen := AllFrom(db);
      var reason := NormalizeReason(req.reason);
      if reason.None? { return Fail(InvalidReason), seen; }
      if req.operator.None? || !req.operator.value.active { return Fail(Unauthorized), seen; }
      if !req.operator.value.mayWithdraw { return Fail(Forbidden), seen; }
      if req.postId !in db.posts { return Fail(PostNotFound), seen; }
      var post := db.posts[req.postId];
      if !post.forHole { return Fail(InvalidService), seen; }
      if |post.sn| < 16 { return Fail(IntegrityError), seen; }
      db := others(n, db);
      ExtendsReflexive(db);
      ExtendsTransitive(start, seen.post, db);
      seen := Seen(seen.post, db, db);
      if post.status == Withdrawn {
        if Logged(db.log, post.sn) { return Replay(RowFor(db.log, post.sn)), seen; }
        return Fail(IntegrityError), seen;
      }
      if post.status != Published { return Fail(Conflict), seen; }
      if Logged(db.log, post.sn) { return Fail(IntegrityError), seen; }
      db := others(n + 1, db);
      ExtendsReflexive(db);
      ExtendsTransitive(start, seen.row, db);
      seen := Seen(seen.post, seen.row, db);
      var chain := OrderAndVerifyChain(db.log, h);
      if chain.None? { return Fail(IntegrityError), seen; }
      var prev := TailHash(chain.value);
      var encoded := EncodeRevocationEntry(prev, post.sn, reason.value, req.now);
      if encoded.None? { return Fail(Unexpected), seen; }
      return Append(Row(Some(prev), h(encoded.value),
                        Revocation(post.sn, reason.value, req.operatorId, req.now))), seen;
    }
  }
}
