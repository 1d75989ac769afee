/** The writer-preferring reader/writer monitor. A thread's acquisition is cut at `wait()` into the pieces
    that run under the monitor's mutex; pieces of different threads interleave freely. */
module ProviderLock {

  /** Where a thread is: not asking, in the condition's wait set, notified but not yet running, timed out
      inside `wait` but not yet running, or holding the lock. */
  datatype Phase =
    | Outside
    | Asleep(writer: bool)
    | Awake(writer: bool)
    | Expired(writer: bool)
    | Inside(writer: bool)

  datatype Monitor = Monitor(readers: int, active: bool, waiting: int, threads: map<nat, Phase>)

  function PhaseOf(m: Monitor, t: nat): Phase {
    if t in m.threads then m.threads[t] else Outside
  }

  function With(m: Monitor, t: nat, p: Phase): Monitor {
    m.(threads := m.threads[t := p])
  }

  /** The guard of the wait loop. */
  predicate Blocked(m: Monitor, writer: bool) {
    m.active || (if writer then m.readers > 0 else m.waiting > 0)
  }

  function NotifyAll(m: Monitor): Monitor {
    m.(threads := map t | t in m.threads ::
         if m.threads[t].Asleep? then Awake(m.threads[t].writer) else m.threads[t])
  }

  /** The pieces of code that run under the mutex, and the one event that does not: a `wait` timing out.
      `late` says that the deadline has passed when the guard is found true. */
  datatype Step =
    | Arrive(t: nat, writer: bool, late: bool)
    | Retry(t: nat, late: bool)
    | Expire(t: nat)
    | GiveUp(t: nat)
    | Release(t: nat)

  predicate Enabled(m: Monitor, s: Step) {
    match s
    case Arrive(t, _, _) => PhaseOf(m, t) == Outside
    case Retry(t, _) => PhaseOf(m, t).Awake?
    case Expire(t) => PhaseOf(m, t).Asleep?
    case GiveUp(t) => PhaseOf(m, t).Expired?
    case Release(t) => PhaseOf(m, t).Inside?
  }

  function Uncount(m: Monitor, writer: bool): Monitor {
    if writer then m.(waiting := m.waiting - 1) else m
  }

  /** One turn of the wait loop for a thread already counted among the waiting writers. */
  function Turn(m: Monitor, t: nat, writer: bool, late: bool): Monitor {
    if Blocked(m, writer) then
      (if late then With(Uncount(m, writer), t, Outside) else With(m, t, Asleep(writer)))
    else if writer then With(Uncount(m, true).(active := true), t, Inside(true))
    else With(m.(readers := m.readers + 1), t, Inside(false))
  }

  function Apply(m: Monitor, s: Step): Monitor
    requires Enabled(m, s)
  {
    match s
    case Arrive(t, writer, late) => Turn(if writer then m.(waiting := m.waiting + 1) else m, t, writer, late)
    case Retry(t, late) => Turn(m, t, PhaseOf(m, t).writer, late)
    case Expire(t) => With(m, t, Expired(PhaseOf(m, t).writer))
    case GiveUp(t) => With(Uncount(m, PhaseOf(m, t).writer), t, Outside)
    case Release(t) =>
      if PhaseOf(m, t).writer then NotifyAll(With(m.(active := false), t, Outside))
      else
        var left := With(m.(readers := m.readers - 1), t, Outside);
        if left.readers == 0 then NotifyAll(left) else left
  }

  // Exclusion and counting

  function Holders(m: Monitor, writer: bool): set<nat> {
    set t | t in m.threads && m.threads[t] == Inside(writer)
  }

  predicate WaitsToWrite(p: Phase) {
    (p.Asleep? || p.Awake? || p.Expired?) && p.writer
  }

  function WaitingWriters(m: Monitor): set<nat> {
    set t | t in m.threads && WaitsToWrite(m.threads[t])
  }

  /** The counters count, and a writer excludes everyone. */
  ghost predicate Consistent(m: Monitor) {
    && m.readers == |Holders(m, false)|
    && |Holders(m, true)| == (if m.active then 1 else 0)
    && m.waiting == |WaitingWriters(m)|
    && (m.active ==> m.readers == 0)
  }

  function One(b: bool): int {
    if b then 1 else 0
  }

  lemma WithMoves(m: Monitor, t: nat, p: Phase)
    ensures var after := With(m, t, p); var was := PhaseOf(m, t);
      && |Holders(after, false)| == |Holders(m, false)| + One(p == Inside(false)) - One(was == Inside(false))
      && |Holders(after, true)| == |Holders(m, true)| + One(p == Inside(true)) - One(was == Inside(true))
      && |WaitingWriters(after)| == |WaitingWriters(m)| + One(WaitsToWrite(p)) - One(WaitsToWrite(was))
  {
    var after := With(m, t, p);
    SizeApart(Holders(after, false), Holders(m, false), t);
    SizeApart(Holders(after, true), Holders(m, true), t);
    SizeApart(WaitingWriters(after), WaitingWriters(m), t);
  }

  lemma SizeApart(a: set<nat>, b: set<nat>, t: nat)
    requires forall x :: x != t ==> (x in a <==> x in b)
    ensures |a| - One(t in a) == |b| - One(t in b)
  {
    assert a - {t} == b - {t};
    assert t in a ==> |a - {t}| == |a| - 1;
    assert t !in a ==> a - {t} == a;
    assert t in b ==> |b - {t}| == |b| - 1;
    assert t !in b ==> b - {t} == b;
  }

  lemma NotifyMovesNobodyIn(m: Monitor)
    ensures Holders(NotifyAll(m), false) == Holders(m, false) && Holders(NotifyAll(m), true) == Holders(m, true)
    ensures WaitingWriters(NotifyAll(m)) == WaitingWriters(m)
  {
  }

  lemma StepConsistent(m: Monitor, s: Step)
    requires Consistent(m) && Enabled(m, s)
    ensures Consistent(Apply(m, s))
  {
    match s {
      case Arrive(t, writer, late) => TurnConsistent(m, t, writer, late, true);
      case Retry(t, late) => TurnConsistent(m, t, PhaseOf(m, t).writer, late, false);
      case Expire(t) => WithMoves(m, t, Expired(PhaseOf(m, t).writer));
      case GiveUp(t) => WithMoves(m, t, Outside);
      case Release(t) =>
        WithMoves(m, t, Outside);
        NotifyMovesNobodyIn(With(m.(active := false), t, Outside));
        NotifyMovesNobodyIn(With(m.(readers := m.readers - 1), t, Outside));
    }
  }

  lemma TurnConsistent(m: Monitor, t: nat, writer: bool, late: bool, arriving: bool)
    requires Consistent(m)
    requires PhaseOf(m, t) == (if arriving then Outside else Awake(writer))
    ensures Consistent(Turn(if arriving && writer then m.(waiting := m.waiting + 1) else m, t, writer, late))
  {
    WithMoves(m, t, Outside);
    WithMoves(m, t, Asleep(writer));
    WithMoves(m, t, Inside(writer));
  }

  const INITIAL := Monitor(0, false, 0, map[])

  function Next(m: Monitor, s: Step): Monitor {
    if Enabled(m, s) then Apply(m, s) else m
  }

  /** The monitor after a schedule of steps; a step that is not possible is skipped. */
  function Run(steps: seq<Step>): Monitor {
    if steps == [] then INITIAL else Next(Run(steps[..|steps| - 1]), steps[|steps| - 1])
  }

  lemma {:induction false} RunConsistent(steps: seq<Step>)
    ensures Consistent(Run(steps))
  {
    if steps == [] {
      assert Holders(INITIAL, false) == {} && Holders(INITIAL, true) == {} && WaitingWriters(INITIAL) == {};
    } else {
      RunConsistent(steps[..|steps| - 1]);
      var m := Run(steps[..|steps| - 1]);
      if Enabled(m, steps[|steps| - 1]) { StepConsistent(m, steps[|steps| - 1]); }
    }
  }

  /** In every run, timeouts included, the lock's three fields are right: the waiting-writer counter is the
      number of writers in the wait loop, the reader counter the number of readers inside, and the writer
      flag says whether a writer is inside. */
  lemma FieldsCount(steps: seq<Step>)
    ensures var m := Run(steps);
      && m.waiting == |WaitingWriters(m)| && m.readers == |Holders(m, false)|
      && (m.active <==> exists t :: PhaseOf(m, t) == Inside(true))
  {
    hide Run;
    RunConsistent(steps);
    var m := Run(steps);
    if m.active {
      var t :| t in Holders(m, true);
      assert PhaseOf(m, t) == Inside(true);
    }
    forall t | PhaseOf(m, t) == Inside(true) ensures m.active { assert t in Holders(m, true); }
  }

  /** In every run, timeouts included, a thread holding the lock as a writer holds it alone. */
  lemma WriterExcludesAll(steps: seq<Step>, t: nat, u: nat)
    requires PhaseOf(Run(steps), t) == Inside(true) && PhaseOf(Run(steps), u).Inside?
    ensures t == u
  {
    RunConsistent(steps);
    var m := Run(steps);
    assert t in Holders(m, true) && u in Holders(m, PhaseOf(m, u).writer);
    if t != u && u in Holders(m, true) {
      assert {t, u} <= Holders(m, true);
      SubsetSize({t, u}, Holders(m, true));
    }
  }

  lemma {:induction false} SubsetSize(a: set<nat>, b: set<nat>)
    requires a <= b
    ensures |a| <= |b|
  {
    assert b == a + (b - a);
  }

  /** Readers yield: whenever a step lets a reader in, no writer holds the lock and none is waiting. */
  lemma ReaderEntersOnlyPastWriters(steps: seq<Step>, s: Step, t: nat)
    requires Enabled(Run(steps), s)
    requires PhaseOf(Run(steps), t) != Inside(false) && PhaseOf(Apply(Run(steps), s), t) == Inside(false)
    ensures WaitingWriters(Run(steps)) == {} && Holders(Run(steps), true) == {}
  {
    RunConsistent(steps);
  }

  // Lost wakeups

  ghost predicate HasAsleep(m: Monitor, writer: bool) {
    exists t :: t in m.threads && m.threads[t] == Asleep(writer)
  }

  ghost predicate HasAwakeWriter(m: Monitor) {
    exists t :: t in m.threads && m.threads[t] == Awake(true)
  }

  /** Somebody is due to run who will notify every sleeper in the end. */
  ghost predicate Covered(m: Monitor) {
    && (HasAsleep(m, true) ==> m.active || m.readers > 0)
    && (HasAsleep(m, false) ==> m.active || m.readers > 0 || HasAwakeWriter(m))
  }

  /** A reader goes to sleep on account of writers that have all given up waiting already. */
  ghost predicate Strands(m: Monitor, s: Step)
    requires Enabled(m, s)
  {
    && Blocked(m, false) && !m.active && m.readers == 0 && !HasAwakeWriter(m)
    && (s.Arrive? || s.Retry?) && !s.late && !(if s.Arrive? then s.writer else PhaseOf(m, s.t).writer)
  }

  lemma AsleepAfterWith(m: Monitor, t: nat, p: Phase)
    ensures forall w :: HasAsleep(With(m, t, p), w) <==>
                          p == Asleep(w) || exists u :: u != t && u in m.threads && m.threads[u] == Asleep(w)
    ensures HasAwakeWriter(With(m, t, p)) <==>
              p == Awake(true) || exists u :: u != t && u in m.threads && m.threads[u] == Awake(true)
  {
    var after := With(m, t, p);
    assert after.threads[t] == p;
    forall w | exists u :: u != t && u in m.threads && m.threads[u] == Asleep(w) ensures HasAsleep(after, w) {
      var u :| u != t && u in m.threads && m.threads[u] == Asleep(w);
      assert after.threads[u] == Asleep(w);
    }
    if exists u :: u != t && u in m.threads && m.threads[u] == Awake(true) {
      var u :| u != t && u in m.threads && m.threads[u] == Awake(true);
      assert after.threads[u] == Awake(true);
    }
  }

  lemma NotifiedNobodyAsleep(m: Monitor)
    ensures !HasAsleep(NotifyAll(m), true) && !HasAsleep(NotifyAll(m), false)
  {
  }

  /** Coverage survives every step except exactly those that strand a reader. */
  lemma CoverageStep(m: Monitor, s: Step)
    requires Consistent(m) && Covered(m) && Enabled(m, s)
    ensures Covered(Apply(m, s)) <==> !Strands(m, s)
  {
    match s {
      case Arrive(t, writer, late) =>
        AsleepAfterWith(m, t, Asleep(writer));
        AsleepAfterWith(m, t, Outside);
        AsleepAfterWith(m, t, Inside(writer));
      case Retry(t, late) =>
        var writer := PhaseOf(m, t).writer;
        AsleepAfterWith(m, t, Asleep(writer));
        AsleepAfterWith(m, t, Outside);
        AsleepAfterWith(m, t, Inside(writer));
      case Expire(t) => AsleepAfterWith(m, t, Expired(PhaseOf(m, t).writer));
      case GiveUp(t) => AsleepAfterWith(m, t, Outside);
      case Release(t) =>
        NotifiedNobodyAsleep(With(m.(active := false), t, Outside));
        NotifiedNobodyAsleep(With(m.(readers := m.readers - 1), t, Outside));
        AsleepAfterWith(m, t, Outside);
    }
  }

  lemma OneMoreStep(steps: seq<Step>, i: nat)
    requires i < |steps|
    ensures Run(steps[..i + 1]) == Next(Run(steps[..i]), steps[i])
  {
    assert steps[..i + 1][..i] == steps[..i];
  }

  /** Step i of the schedule happens, and strands a reader. */
  ghost predicate StrandsAt(steps: seq<Step>, i: nat)
    requires i < |steps|
  {
    Enabled(Run(steps[..i]), steps[i]) && Strands(Run(steps[..i]), steps[i])
  }

  lemma CoveredAfter(steps: seq<Step>, i: nat)
    requires i < |steps| && Covered(Run(steps[..i]))
    ensures Covered(Run(steps[..i + 1])) <==> !StrandsAt(steps, i)
  {
    hide Covered, Strands, Apply, Enabled, Run;
    OneMoreStep(steps, i);
    RunConsistent(steps[..i]);
    if Enabled(Run(steps[..i]), steps[i]) { CoverageStep(Run(steps[..i]), steps[i]); }
  }

  /** In every run, timeouts included, somebody will still wake every sleeper all the way through exactly when
      no step strands a reader. */
  lemma CoveredIffNobodyStranded(steps: seq<Step>)
    ensures (forall i :: 0 <= i <= |steps| ==> Covered(Run(steps[..i])))
       <==> (forall i :: 0 <= i < |steps| ==> !StrandsAt(steps, i))
  {
    assert Covered(Run(steps[..0]));
    hide Covered, StrandsAt, Run;
    if forall i :: 0 <= i <= |steps| ==> Covered(Run(steps[..i])) {
      forall i | 0 <= i < |steps| ensures !StrandsAt(steps, i) { CoveredAfter(steps, i); }
    }
    if forall i :: 0 <= i < |steps| ==> !StrandsAt(steps, i) {
      for n := 0 to |steps|
        invariant forall i :: 0 <= i <= n ==> Covered(Run(steps[..i]))
      {
        CoveredAfter(steps, n);
      }
    }
  }

  /** In this run no writer's `wait` ever times out; readers' may, and deadlines may pass. */
  predicate WritersNeverExpire(steps: seq<Step>) {
    forall i :: 0 <= i < |steps| && steps[i].Expire? ==> PhaseOf(Run(steps[..i]), steps[i].t) != Asleep(true)
  }

  ghost predicate NoExpiredWriter(m: Monitor) {
    forall t :: t in m.threads ==> m.threads[t] != Expired(true)
  }

  lemma WaitingWriterIsAwake(m: Monitor)
    requires Consistent(m) && Covered(m) && NoExpiredWriter(m) && m.waiting > 0 && !m.active && m.readers == 0
    ensures HasAwakeWriter(m)
  {
    var t :| t in WaitingWriters(m);
    assert m.threads[t] != Asleep(true);
  }

  lemma {:induction false} RunCovered(steps: seq<Step>)
    requires WritersNeverExpire(steps)
    ensures Covered(Run(steps)) && NoExpiredWriter(Run(steps))
  {
    if steps != [] {
      var n := |steps| - 1;
      var m := Run(steps[..n]);
      forall i | 0 <= i < n && steps[..n][i].Expire?
        ensures PhaseOf(Run(steps[..n][..i]), steps[..n][i].t) != Asleep(true)
      {
        assert steps[..n][..i] == steps[..i];
      }
      RunCovered(steps[..n]);
      RunConsistent(steps[..n]);
      if Enabled(m, steps[n]) {
        if Blocked(m, false) && !m.active && m.readers == 0 { WaitingWriterIsAwake(m); }
        CoverageStep(m, steps[n]);
      }
    }
  }

  /** No lost wakeups while no waiting writer times out: when nobody holds the lock no writer is asleep on
      it, and a reader is asleep only if some writer is awake, who will take the lock and wake everyone. */
  lemma FreeLockSleepersAreCovered(steps: seq<Step>)
    requires WritersNeverExpire(steps)
    requires var m := Run(steps); Holders(m, true) == {} && Holders(m, false) == {}
    ensures forall t :: PhaseOf(Run(steps), t) != Asleep(true)
    ensures forall t :: PhaseOf(Run(steps), t) == Asleep(false) ==> exists u :: PhaseOf(Run(steps), u) == Awake(true)
  {
    hide Run, WritersNeverExpire;
    RunCovered(steps);
    RunConsistent(steps);
    var m := Run(steps);
    forall t | PhaseOf(m, t).Asleep? ensures HasAsleep(m, PhaseOf(m, t).writer) { assert t in m.threads; }
    if HasAwakeWriter(m) {
      var u :| u in m.threads && m.threads[u] == Awake(true);
      assert PhaseOf(m, u) == Awake(true);
    }
  }

  /** So an idle lock, which nobody holds and no writer waits for, has no sleeper. */
  lemma IdleLockHasNoSleeper(steps: seq<Step>)
    requires WritersNeverExpire(steps)
    requires var m := Run(steps); Holders(m, true) == {} && Holders(m, false) == {} && WaitingWriters(m) == {}
    ensures forall t :: !PhaseOf(Run(steps), t).Asleep?
  {
    hide Run, WritersNeverExpire;
    FreeLockSleepersAreCovered(steps);
    forall u | PhaseOf(Run(steps), u) == Awake(true) ensures u in WaitingWriters(Run(steps)) {}
  }

  /** With a writer timeout a wakeup can be lost: thread 1 reads, writer 2 times out waiting, reader 3 is
      woken while writer 2 is still counted, sleeps again, and writer 2 leaves without notifying. */
  const STRANDING_RUN := [Arrive(1, false, false), Arrive(2, true, false), Arrive(3, false, false), Expire(2),
                          Release(1), Retry(3, false), GiveUp(2)]

  lemma WriterTimeoutStrandsReader()
    ensures var m := Run(STRANDING_RUN);
      Holders(m, true) == {} && Holders(m, false) == {} && WaitingWriters(m) == {} && PhaseOf(m, 3) == Asleep(false)
  {
    var s := STRANDING_RUN;
    var m0 := INITIAL;
    var m1 := Next(m0, s[0]);
    var m2 := Next(m1, s[1]);
    var m3 := Next(m2, s[2]);
    var m4 := Next(m3, s[3]);
    var m5 := Next(m4, s[4]);
    var m6 := Next(m5, s[5]);
    var m7 := Next(m6, s[6]);
    assert m7.threads[1] == Outside && m7.threads[2] == Outside && m7.threads[3] == Asleep(false);
    RunOf(s, [m0, m1, m2, m3, m4, m5, m6, m7]);
  }

  lemma {:induction false} RunOf(steps: seq<Step>, states: seq<Monitor>)
    requires |states| == |steps| + 1 && states[0] == INITIAL
    requires forall i :: 0 <= i < |steps| ==> states[i + 1] == Next(states[i], steps[i])
    ensures Run(steps) == states[|steps|]
  {
    if steps != [] { RunOf(steps[..|steps| - 1], states[..|steps|]); }
  }

  /** The monitor object: its three fields, with the threads' whereabouts as ghost state. */
  class ProviderOperationLock {
    var readersCount: int
    var writerActive: bool
    var waitingWriters: int
    ghost var threads: map<nat, Phase>

    ghost function State(): Monitor
      reads this
    {
      Monitor(readersCount, writerActive, waitingWriters, threads)
    }

    constructor ()
      ensures State() == INITIAL
    {
      readersCount, writerActive, waitingWriters, threads := 0, false, 0, map[];
    }

    /** `reader_lock` up to the first `wait`, or from a wakeup to the next one. */
    method ReaderTurn(t: nat, late: bool) returns (entered: bool)
      requires PhaseOf(State(), t) == Outside || PhaseOf(State(), t) == Awake(false)
      modifies this
      ensures State() == Apply(old(State()),
                               if old(PhaseOf(State(), t)) == Outside then Arrive(t, false, late) else Retry(t, late))
      ensures entered <==> PhaseOf(State(), t) == Inside(false)
    {
      if writerActive || waitingWriters > 0 {
        threads := threads[t := if late then Outside else Asleep(false)];
        return false;
      }
      readersCount := readersCount + 1;
      threads := threads[t := Inside(false)];
      return true;
    }

    /** The entry of `writer_lock`, up to the first `wait`. */
    method WriterArrive(t: nat, late: bool) returns (entered: bool)
      requires PhaseOf(State(), t) == Outside
      modifies this
      ensures State() == Apply(old(State()), Arrive(t, true, late))
      ensures entered <==> PhaseOf(State(), t) == Inside(true)
    {
      waitingWriters := waitingWriters + 1;
      entered := WriterTurn(t, late);
    }

    /** One turn of the writer's wait loop; a waiting writer that leaves it, either way, is uncounted. */
    method WriterTurn(t: nat, late: bool) returns (entered: bool)
      modifies this
      ensures State() == Turn(old(State()), t, true, late)
      ensures entered <==> PhaseOf(State(), t) == Inside(true)
    {
      if writerActive || readersCount > 0 {
        if late {
          waitingWriters := waitingWriters - 1;
          threads := threads[t := Outside];
        } else {
          threads := threads[t := Asleep(true)];
        }
        return false;
      }
      writerActive := true;
      waitingWriters := waitingWriters - 1;
      threads := threads[t := Inside(true)];
      return true;
    }

    /** A writer's timed-out `wait` gets the mutex back and raises; nobody is notified. */
    method WriterGiveUp(t: nat)
      requires PhaseOf(State(), t) == Expired(true)
      modifies this
      ensures State() == Apply(old(State()), GiveUp(t))
    {
      waitingWriters := waitingWriters - 1;
      threads := threads[t := Outside];
    }

    method ReaderRelease(t: nat)
      requires PhaseOf(State(), t) == Inside(false)
      modifies this
      ensures State() == Apply(old(State()), Release(t))
    {
      readersCount := readersCount - 1;
      threads := threads[t := Outside];
      if readersCount == 0 { threads := NotifyAll(State()).threads; }
    }

    method WriterRelease(t: nat)
      requires PhaseOf(State(), t) == Inside(true)
      modifies this
      ensures State() == Apply(old(State()), Release(t))
    {
      writerActive := false;
      threads := threads[t := Outside];
      threads := NotifyAll(State()).threads;
    }
  }
}
