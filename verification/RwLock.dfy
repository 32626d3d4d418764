/**
  The read-write lock of `wsgidav/rw_lock.py`.

  Every method body there runs under the mutex of one condition variable, which is given up
  only inside `wait()`. A run is therefore an interleaving of atomic blocks: from the call to
  its return or to `wait()`, and from the end of a `wait()` to the return or to the next
  `wait()`. `State` is what the blocks share, `Next` is one block, `Run` is any interleaving
  of blocks of any number of threads. The class `ReadWriteLock` has the fields of the original
  and does each block in place; its contracts tie it to `Next`.

  `timed` says that the call was made with a timeout; `expired` that the deadline had passed
  when the block looked at the clock.
*/
module RwLock {
  import opened Sequences
  import opened Wrappers

  type Thread = nat

  datatype Kind = Reader | Writer | Upgrader

  // A thread inside `wait()`; `woken` says that a notification reached it since it went there.
  datatype Waiter = Waiter(kind: Kind, timed: bool, woken: bool)

  datatype State = State(
    writer: Option<Thread>,
    writerCount: nat,
    readers: map<Thread, nat>,
    pendingWriters: seq<Thread>,
    upgradeWriterCount: nat,
    waiting: map<Thread, Waiter>)

  datatype Event =
    | AcquireRead(t: Thread, timed: bool, expired: bool)
    | AcquireWrite(t: Thread, timed: bool, expired: bool)
    | Resume(t: Thread, expired: bool)
    | Release(t: Thread)

  datatype Outcome = Granted | Blocked | TimedOut | DeadlockError | Released | UnheldError

  const INIT := State(None, 0, map[], [], 0, map[])

  // ---------------------------------------------------------------- the atomic blocks

  predicate Waits(s: State, t: Thread, k: Kind) {
    t in s.waiting && s.waiting[t].kind == k
  }

  /** A thread starts a call only outside of `wait()`, and leaves an untimed `wait()` only when notified. */
  predicate Enabled(s: State, e: Event) {
    match e
    case AcquireRead(t, timed, expired) => t !in s.waiting && (expired ==> timed)
    case AcquireWrite(t, timed, expired) => t !in s.waiting && (expired ==> timed)
    case Resume(t, expired) =>
      && t in s.waiting
      && (s.waiting[t].woken || s.waiting[t].timed)
      && (expired ==> s.waiting[t].timed)
    case Release(t) => t !in s.waiting
  }

  function Depth(readers: map<Thread, nat>, t: Thread): nat {
    if t in readers then readers[t] else 0
  }

  function NotifyAll(s: State): State {
    s.(waiting := map t | t in s.waiting :: s.waiting[t].(woken := true))
  }

  /** One turn of the loop in `acquire_read`. */
  function ReadTurn(s: State, t: Thread, timed: bool, expired: bool): (State, Outcome) {
    if s.writer.None? && ((s.upgradeWriterCount == 0 && s.pendingWriters == []) || t in s.readers) then
      (s.(readers := s.readers[t := Depth(s.readers, t) + 1], waiting := s.waiting - {t}), Granted)
    else if expired then
      (s.(waiting := s.waiting - {t}), TimedOut)
    else
      (s.(waiting := s.waiting[t := Waiter(Reader, timed, false)]), Blocked)
  }

  /** The test at the head of the loop in `acquire_write`. */
  predicate WriteTurnGrants(s: State, t: Thread, k: Kind)
    requires k == Upgrader ==> s.upgradeWriterCount > 0
    requires k == Writer ==> t in s.pendingWriters
    requires k != Reader
  {
    && s.readers == map[] && s.writer.None?
    && if s.upgradeWriterCount > 0 then k == Upgrader else s.pendingWriters[0] == t
  }

  /** One turn of the loop in `acquire_write`. */
  function WriteTurn(s: State, t: Thread, k: Kind, timed: bool, expired: bool): (State, Outcome)
    requires k == Upgrader ==> s.upgradeWriterCount > 0
    requires k == Writer ==> t in s.pendingWriters
    requires k != Reader
  {
    if WriteTurnGrants(s, t, k) then
      if k == Upgrader then
        (s.(writer := Some(t), writerCount := s.upgradeWriterCount + 1, upgradeWriterCount := 0,
            waiting := s.waiting - {t}), Granted)
      else
        (s.(writer := Some(t), writerCount := 1, pendingWriters := s.pendingWriters[1..],
            waiting := s.waiting - {t}), Granted)
    else if expired then
      if k == Upgrader then
        (s.(readers := s.readers[t := s.upgradeWriterCount], upgradeWriterCount := 0,
            waiting := s.waiting - {t}), TimedOut)
      else
        (s.(pendingWriters := Remove(s.pendingWriters, t), waiting := s.waiting - {t}), TimedOut)
    else
      (s.(waiting := s.waiting[t := Waiter(k, timed, false)]), Blocked)
  }

  function ReleaseStep(s: State, t: Thread): (State, Outcome)
    requires s.writer == Some(t) ==> s.writerCount > 0
    requires t in s.readers ==> s.readers[t] > 0
  {
    if s.writer == Some(t) then
      if s.writerCount == 1 then
        (NotifyAll(s.(writerCount := 0, writer := None)), Released)
      else
        (s.(writerCount := s.writerCount - 1), Released)
    else if t in s.readers then
      if s.readers[t] == 1 then
        var s' := s.(readers := s.readers - {t});
        (if s'.readers == map[] then NotifyAll(s') else s', Released)
      else
        (s.(readers := s.readers[t := s.readers[t] - 1]), Released)
    else
      (s, UnheldError)
  }

  function Next(s: State, e: Event): (State, Outcome)
    requires Inv(s) && Enabled(s, e)
  {
    match e
    case AcquireRead(t, timed, expired) =>
      if s.writer == Some(t) then (s.(writerCount := s.writerCount + 1), Granted)
      else ReadTurn(s, t, timed, expired)
    case AcquireWrite(t, timed, expired) =>
      if s.writer == Some(t) then (s.(writerCount := s.writerCount + 1), Granted)
      else if t in s.readers then
        if s.upgradeWriterCount > 0 then (s, DeadlockError)
        else
          WriteTurn(s.(upgradeWriterCount := s.readers[t], readers := s.readers - {t}), t, Upgrader, timed, expired)
      else
        WriteTurn(s.(pendingWriters := s.pendingWriters + [t]), t, Writer, timed, expired)
    case Resume(t, expired) =>
      assert Waits(s, t, s.waiting[t].kind);
      if s.waiting[t].kind == Reader then ReadTurn(s, t, s.waiting[t].timed, expired)
      else WriteTurn(s, t, s.waiting[t].kind, s.waiting[t].timed, expired)
    case Release(t) => ReleaseStep(s, t)
  }

  // ---------------------------------------------------------------- safety

  /** What every reachable state satisfies. */
  ghost predicate Inv(s: State) {
    && (s.writer.Some? <==> s.writerCount > 0)
    && (s.writer.Some? ==> s.readers == map[] && s.upgradeWriterCount == 0)
    && (forall t :: t in s.readers ==> s.readers[t] > 0)
    && (forall t :: t in s.waiting ==> t !in s.readers && s.writer != Some(t))
    && NoRepeats(s.pendingWriters)
    && (forall t :: t in s.pendingWriters <==> Waits(s, t, Writer))
    && (s.upgradeWriterCount > 0 <==> exists t :: Waits(s, t, Upgrader))
    && (forall t, u :: Waits(s, t, Upgrader) && Waits(s, u, Upgrader) ==> t == u)
  }

  lemma {:induction false} RemovesAll(q: seq<Thread>, t: Thread)
    requires NoRepeats(q)
    ensures NoRepeats(Remove(q, t))
    ensures forall u :: u in Remove(q, t) <==> u in q && u != t
    ensures forall i :: 0 <= i < |Remove(q, t)| ==> Remove(q, t)[i] in q
  {
    if q != [] {
      var rest := q[1..];
      assert q == [q[0]] + rest;
      assert forall i :: 0 <= i < |rest| ==> rest[i] == q[i + 1];
      RemovesAll(rest, t);
      assert q[0] !in rest;
    }
  }

  lemma ReadTurnKeepsInv(s: State, t: Thread, timed: bool, expired: bool)
    requires Inv(s) && s.writer != Some(t)
    requires t in s.waiting ==> Waits(s, t, Reader)
    ensures Inv(ReadTurn(s, t, timed, expired).0)
  {
    var s' := ReadTurn(s, t, timed, expired).0;
    assert forall u, k :: k != Reader ==> (Waits(s', u, k) <==> Waits(s, u, k));
  }

  lemma PendingTurnKeepsInv(s: State, t: Thread, timed: bool, expired: bool)
    requires Inv(s) && Waits(s, t, Writer)
    ensures Inv(WriteTurn(s, t, Writer, timed, expired).0)
  {
    var s' := WriteTurn(s, t, Writer, timed, expired).0;
    RemovesAll(s.pendingWriters, t);
    assert forall u :: Waits(s', u, Upgrader) <==> Waits(s, u, Upgrader);
    assert forall u :: u != t ==> (Waits(s', u, Writer) <==> Waits(s, u, Writer));
  }

  lemma UpgradeTurnKeepsInv(s: State, t: Thread, timed: bool, expired: bool)
    requires Inv(s) && Waits(s, t, Upgrader)
    ensures Inv(WriteTurn(s, t, Upgrader, timed, expired).0)
  {
    var s' := WriteTurn(s, t, Upgrader, timed, expired).0;
    assert forall u :: Waits(s', u, Writer) <==> Waits(s, u, Writer);
    forall u | u != t ensures !Waits(s', u, Upgrader) { assert Waits(s', u, Upgrader) ==> Waits(s, u, Upgrader); }
    assert Waits(s', t, Upgrader) <==> WriteTurn(s, t, Upgrader, timed, expired).1 == Blocked;
  }

  /** The state a caller of `acquire_write` leaves before its first turn, as if it already waited. */
  ghost function Queued(s: State, t: Thread, timed: bool): State
    requires t !in s.waiting
  {
    if t in s.readers then
      s.(upgradeWriterCount := s.readers[t], readers := s.readers - {t},
         waiting := s.waiting[t := Waiter(Upgrader, timed, true)])
    else
      s.(pendingWriters := s.pendingWriters + [t], waiting := s.waiting[t := Waiter(Writer, timed, true)])
  }

  lemma QueuedKeepsInv(s: State, t: Thread, timed: bool)
    requires Inv(s) && t !in s.waiting && s.writer != Some(t)
    requires t in s.readers ==> s.upgradeWriterCount == 0
    ensures Inv(Queued(s, t, timed))
  {
    var s' := Queued(s, t, timed);
    assert forall u, k :: u != t ==> (Waits(s', u, k) <==> Waits(s, u, k));
    if t in s.readers {
      assert Waits(s', t, Upgrader);
    } else {
      assert !Waits(s, t, Writer);
      assert forall u :: Waits(s', u, Upgrader) <==> Waits(s, u, Upgrader);
    }
  }

  /** A first turn is a resumed turn from the queued state: a write call has one kind of block only. */
  lemma FirstTurnIsResume(s: State, t: Thread, timed: bool, expired: bool)
    requires Inv(s) && Enabled(s, AcquireWrite(t, timed, expired)) && s.writer != Some(t)
    requires t in s.readers ==> s.upgradeWriterCount == 0
    ensures Inv(Queued(s, t, timed))
    ensures Enabled(Queued(s, t, timed), Resume(t, expired))
    ensures Next(s, AcquireWrite(t, timed, expired)) == Next(Queued(s, t, timed), Resume(t, expired))
  {
    QueuedKeepsInv(s, t, timed);
    var q := Queued(s, t, timed);
    assert q.waiting - {t} == s.waiting - {t};
    assert q.waiting[t := Waiter(Upgrader, timed, false)] == s.waiting[t := Waiter(Upgrader, timed, false)];
    assert q.waiting[t := Waiter(Writer, timed, false)] == s.waiting[t := Waiter(Writer, timed, false)];
  }

  lemma ReleaseKeepsInv(s: State, t: Thread)
    requires Inv(s) && t !in s.waiting
    ensures Inv(ReleaseStep(s, t).0)
  {
    var s' := ReleaseStep(s, t).0;
    assert forall u, k :: Waits(s', u, k) <==> Waits(s, u, k);
    assert s.upgradeWriterCount == s'.upgradeWriterCount;
  }

  lemma NextKeepsInv(s: State, e: Event)
    requires Inv(s) && Enabled(s, e)
    ensures Inv(Next(s, e).0)
  {
    var s' := Next(s, e).0;
    match e
    case AcquireRead(t, timed, expired) =>
      assert s.writer == Some(t) ==> forall u, k :: Waits(s', u, k) <==> Waits(s, u, k);
      if s.writer != Some(t) { ReadTurnKeepsInv(s, t, timed, expired); }
    case AcquireWrite(t, timed, expired) =>
      assert s.writer == Some(t) ==> forall u, k :: Waits(s', u, k) <==> Waits(s, u, k);
      if s.writer != Some(t) && (t in s.readers ==> s.upgradeWriterCount == 0) {
        FirstTurnIsResume(s, t, timed, expired);
        var q := Queued(s, t, timed);
        if t in s.readers { UpgradeTurnKeepsInv(q, t, timed, expired); }
        else { PendingTurnKeepsInv(q, t, timed, expired); }
      }
    case Resume(t, expired) =>
      match s.waiting[t].kind {
        case Reader => ReadTurnKeepsInv(s, t, s.waiting[t].timed, expired);
        case Writer => PendingTurnKeepsInv(s, t, s.waiting[t].timed, expired);
        case Upgrader => UpgradeTurnKeepsInv(s, t, s.waiting[t].timed, expired);
      }
    case Release(t) => ReleaseKeepsInv(s, t);
  }

  // ---------------------------------------------------------------- runs

  /** The state after a sequence of blocks; None when some block was not enabled. */
  ghost function Run(es: seq<Event>): (r: Option<State>)
    ensures r.Some? ==> Inv(r.value)
  {
    if es == [] then Some(INIT)
    else
      var r := Run(es[..|es| - 1]);
      if r.Some? && Enabled(r.value, es[|es| - 1]) then
        NextKeepsInv(r.value, es[|es| - 1]);
        Some(Next(r.value, es[|es| - 1]).0)
      else None
  }

  /** How the last block of a run ended. */
  ghost function LastOutcome(es: seq<Event>): Outcome
    requires es != [] && Run(es).Some?
  {
    Next(Run(es[..|es| - 1]).value, es[|es| - 1]).1
  }

  /** The nesting depth a thread holds: as writer, as reader, or parked while it waits to upgrade. */
  function Held(s: State, t: Thread): nat {
    if s.writer == Some(t) then s.writerCount
    else if t in s.readers then s.readers[t]
    else if Waits(s, t, Upgrader) then s.upgradeWriterCount
    else 0
  }

  /** Successful acquires of a thread minus its successful releases. */
  ghost function Net(es: seq<Event>, t: Thread): int
    requires Run(es).Some?
  {
    if es == [] then 0
    else
      Net(es[..|es| - 1], t) +
      if es[|es| - 1].t != t then 0
      else match LastOutcome(es)
           case Granted => 1
           case Released => -1
           case _ => 0
  }

  /** What a block adds to the depth of a thread. */
  function Gain(e: Event, o: Outcome, t: Thread): int {
    if e.t != t then 0 else if o == Granted then 1 else if o == Released then -1 else 0
  }

  lemma ResumeMovesDepth(s: State, e: Event, t: Thread)
    requires Inv(s) && Enabled(s, e) && e.Resume?
    ensures Held(Next(s, e).0, t) == Held(s, t) + Gain(e, Next(s, e).1, t)
  {
    var u := e.t;
    assert Waits(s, u, s.waiting[u].kind);
    assert Waits(s, t, Upgrader) && Waits(s, u, Upgrader) ==> t == u;
    assert t != u ==> (Waits(Next(s, e).0, t, Upgrader) <==> Waits(s, t, Upgrader));
  }

  lemma WriteCallMovesDepth(s: State, e: Event, t: Thread)
    requires Inv(s) && Enabled(s, e) && e.AcquireWrite?
    requires s.writer != Some(e.t) && (e.t in s.readers ==> s.upgradeWriterCount == 0)
    ensures Held(Next(s, e).0, t) == Held(s, t) + Gain(e, Next(s, e).1, t)
  {
    FirstTurnIsResume(s, e.t, e.timed, e.expired);
    var q, resume := Queued(s, e.t, e.timed), Resume(e.t, e.expired);
    assert Held(q, t) == Held(s, t);
    ResumeMovesDepth(q, resume, t);
    assert Gain(resume, Next(q, resume).1, t) == Gain(e, Next(s, e).1, t);
  }

  lemma StepMovesDepth(s: State, e: Event, t: Thread)
    requires Inv(s) && Enabled(s, e)
    ensures Held(Next(s, e).0, t) == Held(s, t) + Gain(e, Next(s, e).1, t)
  {
    if e.Resume? {
      ResumeMovesDepth(s, e, t);
    } else if e.AcquireWrite? && s.writer != Some(e.t) && (e.t in s.readers ==> s.upgradeWriterCount == 0) {
      WriteCallMovesDepth(s, e, t);
    }
  }

  /** In every run, timeouts included, the held depth is exactly what the calls earned. */
  lemma {:induction false} DepthIsConserved(es: seq<Event>, t: Thread)
    requires Run(es).Some?
    ensures Held(Run(es).value, t) == Net(es, t)
  {
    if es != [] {
      DepthIsConserved(es[..|es| - 1], t);
      StepMovesDepth(Run(es[..|es| - 1]).value, es[|es| - 1], t);
    }
  }

  /** Balanced calls leave the lock free. */
  lemma BalancedCallsFreeTheLock(es: seq<Event>)
    requires Run(es).Some?
    requires forall t :: Net(es, t) == 0
    ensures var s := Run(es).value;
            s.writer.None? && s.readers == map[] && s.upgradeWriterCount == 0
  {
    var s := Run(es).value;
    forall t ensures Held(s, t) == 0 { DepthIsConserved(es, t); }
    assert s.writer.Some? ==> Held(s, s.writer.value) > 0;
    assert forall t :: t in s.readers ==> Held(s, t) > 0;
    assert forall t :: Waits(s, t, Upgrader) ==> Held(s, t) == s.upgradeWriterCount;
  }

  /** In every run a writer excludes every other holder, and the bookkeeping is exact. */
  lemma {:induction false} Exclusion(es: seq<Event>)
    requires Run(es).Some?
    ensures var s := Run(es).value;
            && (forall w, t :: s.writer == Some(w) && t != w ==> Held(s, t) == 0)
            && (forall w, t :: s.writer == Some(w) && t != w ==> !Waits(s, t, Upgrader))
            && (s.upgradeWriterCount != 0 <==>
                exists u :: Waits(s, u, Upgrader) && forall v :: Waits(s, v, Upgrader) ==> v == u)
            && NoRepeats(s.pendingWriters)
            && (forall t :: t in s.pendingWriters <==> Waits(s, t, Writer))
            && (forall t :: Waits(s, t, Writer) && s.upgradeWriterCount == 0 ==> s.pendingWriters != [])
  {
  }

  // ---------------------------------------------------------------- what each call gets

  /** Nobody waits to write or to upgrade. */
  ghost predicate NoWriterWaits(s: State) {
    forall t :: !Waits(s, t, Writer) && !Waits(s, t, Upgrader)
  }

  /** A thread holds the lock, or waits with it to upgrade. */
  predicate Holds(s: State, t: Thread) {
    Held(s, t) > 0
  }

  lemma PendingIsNone(s: State)
    requires Inv(s)
    ensures NoWriterWaits(s) <==> s.pendingWriters == [] && s.upgradeWriterCount == 0
  {
    assert s.pendingWriters != [] ==> Waits(s, s.pendingWriters[0], Writer);
  }

  /** A release succeeds exactly for a holder, and takes one off its depth; anyone else gets an error. */
  lemma ReleaseSpec(s: State, t: Thread)
    requires Inv(s) && Enabled(s, Release(t))
    ensures var (s', o) := Next(s, Release(t));
            && (o == Released <==> Holds(s, t)) && (o == UnheldError <==> !Holds(s, t)) && (!Holds(s, t) ==> s' == s)
            && Held(s', t) == (if Holds(s, t) then Held(s, t) - 1 else 0)
            && forall u :: u != t ==> Held(s', u) == Held(s, u)
  {
    forall u { StepMovesDepth(s, Release(t), u); }
  }

  /** A release that leaves the lock free wakes every waiting thread; no other event wakes anyone, or moves another thread. */
  lemma OnlyReleaseWakes(s: State, e: Event, u: Thread)
    requires Inv(s) && Enabled(s, e) && u != e.t
    ensures var s' := Next(s, e).0;
            && (u in s'.waiting <==> u in s.waiting)
            && (u in s.waiting ==>
                  s'.waiting[u] == s.waiting[u].(woken := s.waiting[u].woken || (e.Release? && Held(s, e.t) == 1 && Free(s'))))
  {
  }

  /** When the last holder releases, the lock is free and every waiting thread is woken. */
  lemma LastReleaseFrees(s: State, t: Thread)
    requires Inv(s) && Enabled(s, Release(t)) && Held(s, t) == 1 && forall v :: v != t ==> Held(s, v) == 0
    ensures var s' := Next(s, Release(t)).0;
            Free(s') && forall u :: u in s.waiting ==> u in s'.waiting && s'.waiting[u].woken
  {
    assert forall v :: v in s.readers ==> Held(s, v) > 0;
    forall u | u in s.waiting ensures u in Next(s, Release(t)).0.waiting && Next(s, Release(t)).0.waiting[u].woken {
      OnlyReleaseWakes(s, Release(t), u);
    }
  }

  /** A read is granted exactly to a holder, or while nobody writes or waits to. */
  lemma ReadCallSpec(s: State, t: Thread, timed: bool, expired: bool)
    requires Inv(s) && Enabled(s, AcquireRead(t, timed, expired))
    ensures var (s', o) := Next(s, AcquireRead(t, timed, expired));
            && (o == Granted <==> Holds(s, t) || (s.writer.None? && NoWriterWaits(s)))
            && (o != Granted ==> o == if expired then TimedOut else Blocked)
            && (o == Granted ==> s'.writer == s.writer && (s.writer != Some(t) ==> t in s'.readers))
            && (o == Blocked ==> t in s'.waiting && s'.waiting[t] == Waiter(Reader, timed, false))
            && (o != Blocked ==> t !in s'.waiting)
  {
    PendingIsNone(s);
  }

  lemma OnlyKey(readers: map<Thread, nat>, t: Thread)
    ensures t in readers ==> (readers - {t} == map[] <==> readers.Keys == {t})
  {
    assert forall u :: u in readers && u != t ==> u in readers - {t};
  }

  /**
    A write is granted exactly to the writer, to the only reader while nobody upgrades, or to
    anyone while nobody holds the lock or waits to write; a second upgrade is an error.
  */
  lemma WriteCallSpec(s: State, t: Thread, timed: bool, expired: bool)
    requires Inv(s) && Enabled(s, AcquireWrite(t, timed, expired))
    ensures var (s', o) := Next(s, AcquireWrite(t, timed, expired));
            && (o == Granted <==>
                  || s.writer == Some(t)
                  || (s.readers.Keys == {t} && s.upgradeWriterCount == 0)
                  || (Free(s) && NoWriterWaits(s)))
            && (o == DeadlockError <==> t in s.readers && exists u :: Waits(s, u, Upgrader))
            && (o != Granted && o != DeadlockError ==> o == if expired then TimedOut else Blocked)
            && (o == Granted ==> s'.writer == Some(t))
            && (o == Blocked ==>
                  t in s'.waiting && s'.waiting[t] == Waiter(if t in s.readers then Upgrader else Writer, timed, false))
            && (o != Blocked ==> t !in s'.waiting)
  {
    PendingIsNone(s);
    OnlyKey(s.readers, t);
    var p := s.pendingWriters;
    assert p != [] ==> (p + [t])[0] == p[0] && p[0] in p && Waits(s, p[0], Writer);
  }

  /** A waiting thread that gets its turn and not the lock times out or goes on waiting; an upgrader that gives up reads as deep as before. */
  lemma ResumeSpec(s: State, t: Thread, expired: bool)
    requires Inv(s) && Enabled(s, Resume(t, expired))
    ensures var (s', o) := Next(s, Resume(t, expired));
            && (o != Granted ==> o == if expired then TimedOut else Blocked)
            && (o == Granted ==> if s.waiting[t].kind == Reader then t in s'.readers else s'.writer == Some(t))
            && (o == Blocked ==> s' == s.(waiting := s.waiting[t := s.waiting[t].(woken := false)]))
            && (o == TimedOut && s.waiting[t].kind == Upgrader ==> t in s'.readers && s'.readers[t] == Held(s, t))
            && (o != Blocked ==> t !in s'.waiting)
  {
    assert Waits(s, t, s.waiting[t].kind);
  }

  // ---------------------------------------------------------------- wake-ups

  /** Whether the next turn of a waiting thread would be granted. */
  predicate Grantable(s: State, t: Thread)
    requires t in s.waiting
  {
    && s.writer.None?
    && match s.waiting[t].kind
       case Reader => s.upgradeWriterCount == 0 && s.pendingWriters == []
       case Writer => s.readers == map[] && s.upgradeWriterCount == 0 && s.pendingWriters != [] && s.pendingWriters[0] == t
       case Upgrader => s.readers == map[]
  }

  lemma GrantableIsGranted(s: State, t: Thread, expired: bool)
    requires Inv(s) && Enabled(s, Resume(t, expired))
    ensures Next(s, Resume(t, expired)).1 == Granted <==> Grantable(s, t)
  {
    assert Waits(s, t, s.waiting[t].kind);
  }

  ghost predicate NoLostWakeUp(s: State) {
    forall t :: t in s.waiting && Grantable(s, t) ==> s.waiting[t].woken
  }

  predicate Free(s: State) {
    s.writer.None? && s.readers == map[]
  }

  /** The one way to lose a wake-up: the last writer in the way gives up, and nobody is told. */
  ghost predicate LosesWakeUp(s: State, e: Event) {
    && e.Resume? && e.expired && e.t in s.waiting && !Grantable(s, e.t)
    && s.writer.None?
    && (|| (Waits(s, e.t, Writer) && s.pendingWriters == [e.t] && s.upgradeWriterCount == 0)
        || (Waits(s, e.t, Upgrader) && s.pendingWriters == []))
    && exists r :: Waits(s, r, Reader) && !s.waiting[r].woken
  }

  lemma WriteTurnWakes(s: State, t: Thread, expired: bool)
    requires Inv(s) && Enabled(s, Resume(t, expired)) && s.waiting[t].kind != Reader
    requires NoLostWakeUp(s)
    ensures NoLostWakeUp(Next(s, Resume(t, expired)).0) <==> !LosesWakeUp(s, Resume(t, expired))
  {
    var e := Resume(t, expired);
    var (s', o) := Next(s, e);
    GrantableIsGranted(s, t, expired);
    RemovesAll(s.pendingWriters, t);
    assert forall u :: u != t ==> (u in s'.waiting <==> u in s.waiting) && (u in s.waiting ==> s'.waiting[u] == s.waiting[u]);
    if o == TimedOut {
      if LosesWakeUp(s, e) {
        var r :| Waits(s, r, Reader) && !s.waiting[r].woken;
        assert r in s'.waiting && Grantable(s', r) && !s'.waiting[r].woken;
      } else {
        forall u | u in s'.waiting && Grantable(s', u) ensures s'.waiting[u].woken {
          assert Waits(s, u, s.waiting[u].kind);
        }
      }
    }
  }

  /** From a state without lost wake-ups, a block loses one exactly when `LosesWakeUp` says so. */
  lemma WakeUpStep(s: State, e: Event)
    requires Inv(s) && Enabled(s, e) && NoLostWakeUp(s)
    ensures NoLostWakeUp(Next(s, e).0) <==> !LosesWakeUp(s, e)
  {
    match e
    case AcquireWrite(t, timed, expired) =>
      if s.writer != Some(t) && (t in s.readers ==> s.upgradeWriterCount == 0) {
        FirstTurnIsResume(s, t, timed, expired);
        var q := Queued(s, t, timed);
        forall u | u in q.waiting && Grantable(q, u) ensures q.waiting[u].woken {
          if u != t { assert Waits(s, u, s.waiting[u].kind); assert Grantable(s, u); }
        }
        WriteTurnWakes(q, t, expired);
        if LosesWakeUp(q, Resume(t, expired)) {
          var r :| Waits(q, r, Reader) && !q.waiting[r].woken;
          assert Grantable(s, r);
          assert false;
        }
      }
    case Resume(t, expired) =>
      if s.waiting[t].kind != Reader { WriteTurnWakes(s, t, expired); }
    case _ =>
  }

  /** No wake-up is lost at any moment of a run. */
  ghost predicate AlwaysWoken(es: seq<Event>)
    requires Run(es).Some?
  {
    NoLostWakeUp(Run(es).value) && (es != [] ==> AlwaysWoken(es[..|es| - 1]))
  }

  /** No block of a run is a silent departure of the last writer in the way. */
  ghost predicate NeverSilent(es: seq<Event>)
    requires Run(es).Some?
  {
    es != [] ==> NeverSilent(es[..|es| - 1]) && !LosesWakeUp(Run(es[..|es| - 1]).value, es[|es| - 1])
  }

  /** A run keeps all wake-ups exactly when none of its blocks is such a departure. */
  lemma {:induction false} WakeUpsOfARun(es: seq<Event>)
    requires Run(es).Some?
    ensures AlwaysWoken(es) <==> NeverSilent(es)
  {
    if es != [] {
      var init := es[..|es| - 1];
      WakeUpsOfARun(init);
      if NoLostWakeUp(Run(init).value) { WakeUpStep(Run(init).value, es[|es| - 1]); }
      assert AlwaysWoken(init) ==> NoLostWakeUp(Run(init).value);
    }
  }

  predicate GivesUp(e: Event) {
    !e.Release? && e.expired
  }

  /** Without timeouts, whoever could be granted has been told. */
  lemma {:induction false} NoLostWakeUpWithoutTimeOuts(es: seq<Event>)
    requires Run(es).Some?
    requires forall k :: 0 <= k < |es| ==> !GivesUp(es[k])
    ensures NoLostWakeUp(Run(es).value)
  {
    if es != [] {
      NoLostWakeUpWithoutTimeOuts(es[..|es| - 1]);
      WakeUpStep(Run(es[..|es| - 1]).value, es[|es| - 1]);
    }
  }

  lemma RunSnoc(es: seq<Event>, e: Event)
    requires Run(es).Some? && Enabled(Run(es).value, e)
    ensures Run(es + [e]) == Some(Next(Run(es).value, e).0)
  {
  }

  lemma WriterBehindReader(e0: Event, e1: Event)
    requires e0 == AcquireRead(1, false, false) && e1 == AcquireWrite(2, true, false)
    ensures Run([e0, e1]).Some?
    ensures var s := Run([e0, e1]).value;
            && s.writer.None? && s.upgradeWriterCount == 0 && s.readers == map[1 := 1]
            && s.pendingWriters == [2] && s.waiting == map[2 := Waiter(Writer, true, false)]
  {
    RunSnoc([], e0);
    assert [] + [e0] == [e0] && Run([e0]).value == INIT.(readers := map[1 := 1]);
    RunSnoc([e0], e1);
    assert [e0] + [e1] == [e0, e1];
  }

  /** With timeouts it fails: a waiting writer gives up, and the reader behind it is not told. */
  lemma TimeOutCanLoseAWakeUp()
    ensures var es := [AcquireRead(1, false, false), AcquireWrite(2, true, false), AcquireRead(3, false, false), Resume(2, true)];
            Run(es).Some? && !NoLostWakeUp(Run(es).value)
  {
    var e0, e1, e2, e3 := AcquireRead(1, false, false), AcquireWrite(2, true, false), AcquireRead(3, false, false), Resume(2, true);
    WriterBehindReader(e0, e1);
    RunSnoc([e0, e1], e2);
    assert [e0, e1] + [e2] == [e0, e1, e2];
    RunSnoc([e0, e1, e2], e3);
    assert [e0, e1, e2] + [e3] == [e0, e1, e2, e3];
    var s := Run([e0, e1, e2, e3]).value;
    assert 3 in s.waiting && Grantable(s, 3) && !s.waiting[3].woken;
  }

  lemma FreeStateStep(s: State, e: Event)
    requires Inv(s) && Enabled(s, e)
    requires Free(s) ==> NoLostWakeUp(s)
    ensures Free(Next(s, e).0) ==> NoLostWakeUp(Next(s, e).0)
  {
    if Free(s) {
      WakeUpStep(s, e);
    } else if e.AcquireWrite? && s.writer != Some(e.t) && (e.t in s.readers ==> s.upgradeWriterCount == 0) {
      FirstTurnIsResume(s, e.t, e.timed, e.expired);
    }
  }

  /** In every run, timeouts included: once nobody holds the lock, a waiting thread that can go on has been told. */
  lemma {:induction false} FreeLockIsPassedOn(es: seq<Event>)
    requires Run(es).Some?
    ensures var s := Run(es).value;
            Free(s) ==> NoLostWakeUp(s) && (s.waiting != map[] ==> exists t :: t in s.waiting && Grantable(s, t) && s.waiting[t].woken)
  {
    var s := Run(es).value;
    if es != [] {
      FreeLockIsPassedOn(es[..|es| - 1]);
      FreeStateStep(Run(es[..|es| - 1]).value, es[|es| - 1]);
    }
    if Free(s) && s.waiting != map[] {
      var t :| t in s.waiting;
      var front :=
        if s.upgradeWriterCount > 0 then var u :| Waits(s, u, Upgrader); u
        else if s.pendingWriters != [] then s.pendingWriters[0] else t;
      assert Waits(s, t, s.waiting[t].kind);
      assert s.pendingWriters != [] ==> s.pendingWriters[0] in s.pendingWriters;
      assert front in s.waiting && Grantable(s, front);
    }
  }

  // ---------------------------------------------------------------- order

  /** While a thread waits to upgrade, nobody writes, no reader joins, and the wait ends only in its own hands. */
  lemma {:induction false} UpgradeIsUninterrupted(es: seq<Event>, e: Event, u: Thread)
    requires Run(es).Some? && Run(es + [e]).Some?
    requires Waits(Run(es).value, u, Upgrader)
    ensures var s, s' := Run(es).value, Run(es + [e]).value;
            && s.writer.None?
            && s'.readers.Keys <= s.readers.Keys + {u}
            && (s'.writer.Some? ==> e.Resume? && e.t == u && s'.writer == Some(u) && s'.writerCount == s.upgradeWriterCount + 1)
            && (!Waits(s', u, Upgrader) ==> e.Resume? && e.t == u && (s'.writer == Some(u) || Depth(s'.readers, u) == s.upgradeWriterCount))
            && (Waits(s', u, Upgrader) ==> s'.upgradeWriterCount == s.upgradeWriterCount)
  {
    var s := Run(es).value;
    assert (es + [e])[..|es|] == es && (es + [e])[|es|] == e;
    assert Inv(Run(es + [e]).value);
    assert e.Resume? ==> Waits(s, e.t, s.waiting[e.t].kind);
    assert e.Resume? && Waits(s, e.t, Upgrader) ==> e.t == u;
  }

  /** A thread that holds nothing is never granted a read past a waiting writer or upgrader. */
  lemma {:induction false} WritersGoFirst(es: seq<Event>, e: Event)
    requires Run(es + [e]).Some? && Run(es).Some?
    requires Held(Run(es).value, e.t) == 0 && e.t in Run(es + [e]).value.readers
    ensures forall t :: !Waits(Run(es).value, t, Writer) && !Waits(Run(es).value, t, Upgrader)
  {
    var s := Run(es).value;
    assert (es + [e])[..|es|] == es && (es + [e])[|es|] == e;
    assert e.Resume? ==> Waits(s, e.t, s.waiting[e.t].kind);
    assert forall t :: Waits(s, t, Writer) ==> t in s.pendingWriters;
  }

  function Enqueues(s: State, e: Event): seq<Thread> {
    if e.AcquireWrite? && s.writer != Some(e.t) && e.t !in s.readers then [e.t] else []
  }

  function Grants(s: State, s': State, e: Event): seq<Thread> {
    if s.writer.None? && s'.writer == Some(e.t) && e.t !in s.readers && !Waits(s, e.t, Upgrader) then [e.t] else []
  }

  /** The non-upgrading writers of a run in the order in which they queued. */
  ghost function QueueOrder(es: seq<Event>): seq<Thread>
    requires Run(es).Some?
  {
    if es == [] then [] else QueueOrder(es[..|es| - 1]) + Enqueues(Run(es[..|es| - 1]).value, es[|es| - 1])
  }

  /** The non-upgrading writers of a run in the order in which they got the lock. */
  ghost function GrantOrder(es: seq<Event>): seq<Thread>
    requires Run(es).Some?
  {
    if es == [] then []
    else GrantOrder(es[..|es| - 1]) + Grants(Run(es[..|es| - 1]).value, Run(es).value, es[|es| - 1])
  }

  /** A writer's wait ends in a time-out. */
  predicate LeavesQueue(s: State, e: Event)
    requires Inv(s) && Enabled(s, e)
  {
    Next(s, e).1 == TimedOut && ((e.AcquireWrite? && e.t !in s.readers) || (e.Resume? && Waits(s, e.t, Writer)))
  }

  /** Drops the last occurrence. */
  function RemoveLast(q: seq<Thread>, t: Thread): seq<Thread> {
    if q == [] then []
    else if q[|q| - 1] == t then q[..|q| - 1]
    else RemoveLast(q[..|q| - 1], t) + [q[|q| - 1]]
  }

  /** The queueing writers of a run in their order, each dropped when it gives up. */
  ghost function KeptOrder(es: seq<Event>): seq<Thread>
    requires Run(es).Some?
  {
    if es == [] then []
    else
      var init, e := es[..|es| - 1], es[|es| - 1];
      var queue := KeptOrder(init) + Enqueues(Run(init).value, e);
      if LeavesQueue(Run(init).value, e) then RemoveLast(queue, e.t) else queue
  }

  lemma {:induction false} RemoveLastBehind(a: seq<Thread>, b: seq<Thread>, t: Thread)
    requires t in b
    ensures RemoveLast(a + b, t) == a + RemoveLast(b, t)
    decreases |b|
  {
    var n := |b| - 1;
    assert (a + b)[..|a + b| - 1] == a + b[..n] && (a + b)[|a + b| - 1] == b[n];
    if b[n] != t {
      assert t in b[..n];
      RemoveLastBehind(a, b[..n], t);
    }
  }

  lemma {:induction false} RemoveSnoc(q: seq<Thread>, x: Thread, t: Thread)
    ensures Remove(q + [x], t) == if t in q then Remove(q, t) + [x] else if x == t then q else q + [x]
  {
    if q != [] {
      assert (q + [x])[1..] == q[1..] + [x] && (q + [x])[0] == q[0];
      RemoveSnoc(q[1..], x, t);
      assert t in q <==> t == q[0] || t in q[1..];
    }
  }

  lemma {:induction false} OnlyOnce(q: seq<Thread>, t: Thread)
    requires NoRepeats(q)
    ensures RemoveLast(q, t) == Remove(q, t)
  {
    if q != [] {
      var init, x := q[..|q| - 1], q[|q| - 1];
      assert q == init + [x];
      OnlyOnce(init, t);
      RemoveSnoc(init, x, t);
      if t !in init { NotThere(init, t); }
    }
  }

  lemma {:induction false} NotThere(q: seq<Thread>, t: Thread)
    requires t !in q
    ensures RemoveLast(q, t) == q
  {
    if q != [] { NotThere(q[..|q| - 1], t); }
  }

  /** A writer's turn takes it from the head of the queue, leaves the queue, or drops it. */
  lemma WriterTurnQueue(s: State, t: Thread, timed: bool, expired: bool)
    requires t in s.pendingWriters
    ensures var (s', o) := WriteTurn(s, t, Writer, timed, expired);
            && (o == Granted ==> s.writer.None? && s'.writer == Some(t))
            && (o != Granted ==> s'.writer == s.writer)
            && (o == TimedOut ==> s'.pendingWriters == Remove(s.pendingWriters, t))
            && (o != TimedOut ==> s.pendingWriters == (if o == Granted then [t] else []) + s'.pendingWriters)
  {
    if WriteTurnGrants(s, t, Writer) { assert s.pendingWriters == [s.pendingWriters[0]] + s.pendingWriters[1..]; }
  }

  lemma UpgraderTurnQueue(s: State, t: Thread, timed: bool, expired: bool)
    requires s.upgradeWriterCount > 0
    ensures WriteTurn(s, t, Upgrader, timed, expired).0.pendingWriters == s.pendingWriters
  {
  }

  /** What an event does to the queue. */
  ghost predicate QueueMoves(s: State, e: Event)
    requires Inv(s) && Enabled(s, e)
  {
    var s' := Next(s, e).0;
    if LeavesQueue(s, e) then Grants(s, s', e) == [] && s'.pendingWriters == Remove(s.pendingWriters + Enqueues(s, e), e.t)
    else s.pendingWriters + Enqueues(s, e) == Grants(s, s', e) + s'.pendingWriters
  }

  lemma QueueOnCall(s: State, e: Event)
    requires Inv(s) && Enabled(s, e) && e.AcquireWrite?
    ensures QueueMoves(s, e)
  {
    var p := s.pendingWriters;
    if s.writer != Some(e.t) {
      if e.t in s.readers {
        if s.upgradeWriterCount == 0 {
          UpgraderTurnQueue(s.(upgradeWriterCount := s.readers[e.t], readers := s.readers - {e.t}), e.t, e.timed, e.expired);
        }
      } else {
        WriterTurnQueue(s.(pendingWriters := p + [e.t]), e.t, e.timed, e.expired);
      }
    }
  }

  lemma QueueOnResume(s: State, e: Event)
    requires Inv(s) && Enabled(s, e) && e.Resume?
    ensures QueueMoves(s, e)
  {
    var w := s.waiting[e.t];
    assert Waits(s, e.t, w.kind);
    assert s.pendingWriters + [] == s.pendingWriters;
    if w.kind == Writer { WriterTurnQueue(s, e.t, w.timed, e.expired); }
    if w.kind == Upgrader { UpgraderTurnQueue(s, e.t, w.timed, e.expired); }
  }

  lemma QueueStep(s: State, e: Event)
    requires Inv(s) && Enabled(s, e)
    ensures QueueMoves(s, e)
  {
    if e.AcquireWrite? { QueueOnCall(s, e); }
    if e.Resume? { QueueOnResume(s, e); }
  }

  lemma Requeue(g: seq<Thread>, p: seq<Thread>, a: seq<Thread>, b: seq<Thread>, p': seq<Thread>)
    requires p + a == b + p'
    ensures (g + p) + a == (g + b) + p'
  {
    assert (g + p) + a == g + (p + a);
  }

  /** Who leaves has its place in the queue, once. */
  lemma LeaverIsQueued(s: State, e: Event)
    requires Inv(s) && Enabled(s, e) && LeavesQueue(s, e)
    ensures var q := s.pendingWriters + Enqueues(s, e); e.t in q && NoRepeats(q)
  {
    if e.AcquireWrite? { assert !Waits(s, e.t, Writer); }
  }

  lemma StepKeepsOrder(g: seq<Thread>, s: State, e: Event)
    requires Inv(s) && Enabled(s, e)
    ensures var s', queue := Next(s, e).0, (g + s.pendingWriters) + Enqueues(s, e);
            (if LeavesQueue(s, e) then RemoveLast(queue, e.t) else queue) == (g + Grants(s, s', e)) + s'.pendingWriters
  {
    var s', q := Next(s, e).0, s.pendingWriters + Enqueues(s, e);
    QueueStep(s, e);
    assert (g + s.pendingWriters) + Enqueues(s, e) == g + q;
    if LeavesQueue(s, e) {
      LeaverIsQueued(s, e);
      RemoveLastBehind(g, q, e.t);
      OnlyOnce(q, e.t);
      assert g + [] == g;
    } else {
      Requeue(g, s.pendingWriters, Enqueues(s, e), Grants(s, s', e), s'.pendingWriters);
    }
  }

  /** First come, first served: the writers are granted the lock in the order in which they queued, without those who gave up. */
  lemma {:induction false} WritersAreServedInOrder(es: seq<Event>)
    requires Run(es).Some?
    ensures KeptOrder(es) == GrantOrder(es) + Run(es).value.pendingWriters
  {
    if es != [] {
      var init := es[..|es| - 1];
      WritersAreServedInOrder(init);
      StepKeepsOrder(GrantOrder(init), Run(init).value, es[|es| - 1]);
    }
  }

  /** Without timeouts nobody gives up. */
  lemma {:induction false} WithoutTimeOutsAllAreKept(es: seq<Event>)
    requires Run(es).Some? && forall k :: 0 <= k < |es| ==> !GivesUp(es[k])
    ensures KeptOrder(es) == QueueOrder(es)
  {
    if es != [] {
      var init, e := es[..|es| - 1], es[|es| - 1];
      assert forall k :: 0 <= k < |init| ==> init[k] == es[k];
      WithoutTimeOutsAllAreKept(init);
      OnlyExpiryLeaves(Run(init).value, e);
    }
  }

  lemma OnlyExpiryLeaves(s: State, e: Event)
    requires Inv(s) && Enabled(s, e) && !GivesUp(e)
    ensures !LeavesQueue(s, e)
  {
  }

  // ---------------------------------------------------------------- the class

  /** The object itself; `waiting` is the wait set of its condition variable. */
  class ReadWriteLock {
    var writer: Option<Thread>
    var writerCount: nat
    var readers: map<Thread, nat>
    var pendingWriters: seq<Thread>
    var upgradeWriterCount: nat
    var waiting: map<Thread, Waiter>

    function Abs(): State
      reads this
    {
      State(writer, writerCount, readers, pendingWriters, upgradeWriterCount, waiting)
    }

    constructor ()
      ensures Abs() == INIT && Inv(Abs())
    {
      writer, writerCount, readers, pendingWriters, upgradeWriterCount, waiting := None, 0, map[], [], 0, map[];
    }

    method NotifyWaiters()
      modifies this`waiting
      ensures Abs() == NotifyAll(old(Abs()))
    {
      waiting := map t | t in waiting :: waiting[t].(woken := true);
    }

    /** The loop body of `acquire_read`. */
    method TakeReadTurn(me: Thread, timed: bool, expired: bool) returns (o: Outcome)
      modifies this
      ensures (Abs(), o) == ReadTurn(old(Abs()), me, timed, expired)
    {
      if writer.None? {
        if upgradeWriterCount > 0 || pendingWriters != [] {
          if me in readers {
            readers := readers[me := readers[me] + 1];
            waiting := waiting - {me};
            return Granted;
          }
        } else {
          readers := readers[me := Depth(readers, me) + 1];
          waiting := waiting - {me};
          return Granted;
        }
      }
      if expired {
        waiting := waiting - {me};
        return TimedOut;
      }
      waiting := waiting[me := Waiter(Reader, timed, false)];
      return Blocked;
    }

    /** The loop body of `acquire_write`. */
    method TakeWriteTurn(me: Thread, upgradeWriter: bool, timed: bool, expired: bool) returns (o: Outcome)
      requires if upgradeWriter then upgradeWriterCount > 0 else me in pendingWriters
      modifies this
      ensures (Abs(), o) == WriteTurn(old(Abs()), me, if upgradeWriter then Upgrader else Writer, timed, expired)
    {
      if readers == map[] && writer.None? {
        if upgradeWriterCount > 0 {
          if upgradeWriter {
            writer := Some(me);
            writerCount := upgradeWriterCount + 1;
            upgradeWriterCount := 0;
            waiting := waiting - {me};
            return Granted;
          }
        } else if pendingWriters[0] == me {
          writer := Some(me);
          writerCount := 1;
          pendingWriters := pendingWriters[1..];
          waiting := waiting - {me};
          return Granted;
        }
      }
      if expired {
        if upgradeWriter {
          readers := readers[me := upgradeWriterCount];
          upgradeWriterCount := 0;
        } else {
          pendingWriters := Remove(pendingWriters, me);
        }
        waiting := waiting - {me};
        return TimedOut;
      }
      waiting := waiting[me := Waiter(if upgradeWriter then Upgrader else Writer, timed, false)];
      return Blocked;
    }

    method AcquireReadLock(me: Thread, timed: bool, expired: bool) returns (o: Outcome)
      requires Inv(Abs()) && Enabled(Abs(), AcquireRead(me, timed, expired))
      modifies this
      ensures (Abs(), o) == Next(old(Abs()), AcquireRead(me, timed, expired)) && Inv(Abs())
    {
      NextKeepsInv(Abs(), AcquireRead(me, timed, expired));
      if writer == Some(me) {
        writerCount := writerCount + 1;
        return Granted;
      }
      o := TakeReadTurn(me, timed, expired);
    }

    method AcquireWriteLock(me: Thread, timed: bool, expired: bool) returns (o: Outcome)
      requires Inv(Abs()) && Enabled(Abs(), AcquireWrite(me, timed, expired))
      modifies this
      ensures (Abs(), o) == Next(old(Abs()), AcquireWrite(me, timed, expired)) && Inv(Abs())
    {
      NextKeepsInv(Abs(), AcquireWrite(me, timed, expired));
      var upgradeWriter := false;
      if writer == Some(me) {
        writerCount := writerCount + 1;
        return Granted;
      } else if me in readers {
        if upgradeWriterCount > 0 {
          return DeadlockError;
        }
        upgradeWriter := true;
        upgradeWriterCount := readers[me];
        readers := readers - {me};
      } else {
        pendingWriters := pendingWriters + [me];
      }
      o := TakeWriteTurn(me, upgradeWriter, timed, expired);
    }

    /** What a thread does when its `wait()` ends. */
    method ResumeWaiter(me: Thread, expired: bool) returns (o: Outcome)
      requires Inv(Abs()) && Enabled(Abs(), Resume(me, expired))
      modifies this
      ensures (Abs(), o) == Next(old(Abs()), Resume(me, expired)) && Inv(Abs())
    {
      NextKeepsInv(Abs(), Resume(me, expired));
      assert Waits(Abs(), me, waiting[me].kind);
      if waiting[me].kind == Reader {
        o := TakeReadTurn(me, waiting[me].timed, expired);
      } else {
        o := TakeWriteTurn(me, waiting[me].kind == Upgrader, waiting[me].timed, expired);
      }
    }

    method ReleaseLock(me: Thread) returns (o: Outcome)
      requires Inv(Abs()) && Enabled(Abs(), Release(me))
      modifies this
      ensures (Abs(), o) == Next(old(Abs()), Release(me)) && Inv(Abs())
    {
      NextKeepsInv(Abs(), Release(me));
      if writer == Some(me) {
        writerCount := writerCount - 1;
        if writerCount == 0 {
          writer := None;
          NotifyWaiters();
        }
        return Released;
      } else if me in readers {
        readers := readers[me := readers[me] - 1];
        if readers[me] == 0 {
          readers := readers - {me};
          assert readers == old(readers) - {me};
          if readers == map[] {
            NotifyWaiters();
          }
        }
        return Released;
      }
      return UnheldError;
    }
  }
}
