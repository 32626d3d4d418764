/**
  `FileLikeQueue` of `wsgidav/stream_tools.py`: one reading thread and any number of writing
  threads over a bounded queue of chunks.
*/
module FileQueue {
  import opened Bytes
  import opened Wrappers

  type Thread = nat

  /** Where the reading thread stands: in the loop, or between `queue.Empty` and the look at `is_closed`. */
  datatype Reader = Idle | Looping(size: int, res: bytes) | TimedOut(size: int, res: bytes)

  /** The fields, the reader's locals, and the chunks of writers that have passed the check and not put them yet. */
  datatype State = State(isClosed: bool, queue: seq<bytes>, unread: bytes, reader: Reader, writers: map<Thread, bytes>)

  datatype Event =
    | StartRead(size: int)
    | Get
    | TimeOut
    | LookClosed
    | Deliver
    | StartWrite(thread: Thread, chunk: bytes)
    | Put(thread: Thread)
    | Close

  function Start(): State {
    State(false, [], [], Idle, map[])
  }

  /** The condition of the loop in `read`. */
  predicate Wants(size: int, res: bytes) {
    res == [] || size < 0 || (size > 0 && |res| < size)
  }

  /** What `read` returns, and what it keeps for the next call. */
  function Cut(size: int, res: bytes): (bytes, bytes) {
    if size > 0 && |res| > size then (res[..size], res[size..]) else (res, [])
  }

  predicate Enabled(s: State, e: Event, maxSize: nat) {
    match e
    case StartRead(_) => s.reader.Idle?
    case Get => s.reader.Looping? && Wants(s.reader.size, s.reader.res) && s.queue != []
    case TimeOut => s.reader.Looping? && Wants(s.reader.size, s.reader.res) && s.queue == []
    case LookClosed => s.reader.TimedOut?
    case Deliver => s.reader.Looping? && !Wants(s.reader.size, s.reader.res)
    case StartWrite(t, _) => t !in s.writers
    case Put(t) => t in s.writers && (maxSize == 0 || |s.queue| < maxSize)
    case Close => true
  }

  /**
    The state after a step and what a read returned in it. A write to a closed queue raises
    ValueError and changes nothing.
  */
  function Next(s: State, e: Event, maxSize: nat): (State, Option<bytes>)
    requires Enabled(s, e, maxSize)
  {
    match e
    case StartRead(size) => (s.(reader := Looping(size, s.unread), unread := []), None)
    case Get => (s.(reader := Looping(s.reader.size, s.reader.res + s.queue[0]), queue := s.queue[1..]), None)
    case TimeOut => (s.(reader := TimedOut(s.reader.size, s.reader.res)), None)
    case LookClosed =>
      if s.isClosed then (s.(reader := Idle, unread := Cut(s.reader.size, s.reader.res).1), Some(Cut(s.reader.size, s.reader.res).0))
      else (s.(reader := Looping(s.reader.size, s.reader.res)), None)
    case Deliver => (s.(reader := Idle, unread := Cut(s.reader.size, s.reader.res).1), Some(Cut(s.reader.size, s.reader.res).0))
    case StartWrite(t, chunk) => (if s.isClosed then s else s.(writers := s.writers[t := chunk]), None)
    case Put(t) => (s.(queue := s.queue + [s.writers[t]], writers := s.writers - {t}), None)
    case Close => (s.(isClosed := true), None)
  }

  // ---------------------------------------------------------------- every run

  /**
    A run with its history: the chunks given to `write` by calls that were not refused and have
    not put them yet; the bytes given by the calls that have put theirs, in that order, and those
    returned so far; the bytes put since the last time-out, and whether at that time-out the
    queue was closed and no write under way.
  */
  datatype Run = Run(state: State, given: map<Thread, bytes>, put: bytes, returned: bytes, since: bytes, over: bool)

  predicate Over(s: State) {
    s.isClosed && s.writers == map[]
  }

  function Step(r: Run, e: Event, maxSize: nat): Run
    requires Enabled(r.state, e, maxSize)
  {
    var n := Next(r.state, e, maxSize);
    var added := if e.Put? && e.thread in r.given then r.given[e.thread] else [];
    Run(n.0,
        if e.StartWrite? && !r.state.isClosed then r.given[e.thread := e.chunk] else if e.Put? then r.given - {e.thread} else r.given,
        r.put + added,
        r.returned + (match n.1 case None => [] case Some(b) => b),
        if e.TimeOut? then [] else r.since + added,
        if e.TimeOut? then Over(r.state) else r.over)
  }

  ghost predicate IsRun(events: seq<Event>, r: Run, maxSize: nat) {
    if events == [] then r == Run(Start(), map[], [], [], [], false)
    else exists q :: IsRun(events[..|events| - 1], q, maxSize) && Enabled(q.state, events[|events| - 1], maxSize)
                     && r == Step(q, events[|events| - 1], maxSize)
  }

  function Held(s: State): bytes {
    if s.reader.Idle? then [] else s.reader.res
  }

  /** What is under way is what was given. */
  predicate Whole(r: Run) {
    r.given == r.state.writers
  }

  /** Nothing lost, nothing twice, nothing out of order. */
  predicate Conserved(r: Run) {
    r.returned + Held(r.state) + r.state.unread + Flat(r.state.queue) == r.put
  }

  /** During a read nothing is left in `unread`; after its time-out the queue holds what was put since. */
  predicate Tidy(r: Run) {
    && (!r.state.reader.Idle? ==> r.state.unread == [])
    && (r.state.reader.TimedOut? ==> Wants(r.state.reader.size, r.state.reader.res) && Flat(r.state.queue) == r.since)
    && (r.state.reader.TimedOut? && r.over ==> Over(r.state) && r.since == [])
  }

  lemma StepConserves(r: Run, e: Event, maxSize: nat)
    requires Enabled(r.state, e, maxSize) && Conserved(r) && Tidy(r) && Whole(r)
    ensures Conserved(Step(r, e, maxSize))
  {
    var s, t := r.state, Step(r, e, maxSize);
    match e {
      case StartRead(_) =>
        assert t.returned + Held(t.state) + t.state.unread == r.returned + Held(s) + s.unread;
      case Get => Requeue(r.returned, s.reader.res, s.queue[0], Flat(s.queue[1..]));
      case Put(u) =>
        FlatSnoc(s.queue, s.writers[u]);
        assert r.returned + Held(s) + s.unread + (Flat(s.queue) + s.writers[u]) == r.put + s.writers[u];
      case LookClosed =>
        if s.isClosed { CutConserves(r.returned, s.reader.size, s.reader.res); }
      case Deliver => CutConserves(r.returned, s.reader.size, s.reader.res);
      case _ =>
    }
  }

  lemma Requeue(a: bytes, res: bytes, first: bytes, rest: bytes)
    ensures a + res + [] + (first + rest) == a + (res + first) + [] + rest
  {
  }

  lemma CutConserves(a: bytes, size: int, res: bytes)
    ensures (a + Cut(size, res).0) + [] + Cut(size, res).1 == a + res + []
  {
    CutRejoins(size, res);
    Rejoin(a, res, Cut(size, res).0, Cut(size, res).1);
  }

  lemma CutRejoins(size: int, res: bytes)
    ensures Cut(size, res).0 + Cut(size, res).1 == res
  {
  }

  lemma Rejoin(a: bytes, res: bytes, b: bytes, c: bytes)
    requires b + c == res
    ensures (a + b) + [] + c == a + res + []
  {
  }

  lemma StepTidy(r: Run, e: Event, maxSize: nat)
    requires Enabled(r.state, e, maxSize) && Tidy(r) && Whole(r)
    ensures Tidy(Step(r, e, maxSize))
  {
    if e.Put? { FlatSnoc(r.state.queue, r.state.writers[e.thread]); }
  }

  lemma StepKeepsWhole(r: Run, e: Event, maxSize: nat)
    requires Enabled(r.state, e, maxSize) && Whole(r)
    ensures Whole(Step(r, e, maxSize))
  {
  }

  /** In every run the bytes returned, in hand, unread and queued are the bytes given to `write` by the calls that have put theirs, in order. */
  lemma {:induction false} EveryRunConserves(events: seq<Event>, r: Run, maxSize: nat)
    requires IsRun(events, r, maxSize)
    ensures Conserved(r) && Tidy(r) && Whole(r)
    ensures r.returned <= r.put
  {
    if events != [] {
      var q :| IsRun(events[..|events| - 1], q, maxSize) && Enabled(q.state, events[|events| - 1], maxSize)
               && r == Step(q, events[|events| - 1], maxSize);
      EveryRunConserves(events[..|events| - 1], q, maxSize);
      StepKeepsWhole(q, events[|events| - 1], maxSize);
      StepConserves(q, events[|events| - 1], maxSize);
      StepTidy(q, events[|events| - 1], maxSize);
    }
    PrefixOfPut(r);
  }

  /** In every run a bounded queue keeps its bound. */
  lemma {:induction false} EveryRunIsBounded(events: seq<Event>, r: Run, maxSize: nat)
    requires IsRun(events, r, maxSize) && maxSize > 0
    ensures |r.state.queue| <= maxSize
  {
    if events != [] {
      var q :| IsRun(events[..|events| - 1], q, maxSize) && Enabled(q.state, events[|events| - 1], maxSize)
               && r == Step(q, events[|events| - 1], maxSize);
      EveryRunIsBounded(events[..|events| - 1], q, maxSize);
    }
  }

  /** In every run a chunk under way can be put at once, unless a bounded queue is full, and then as soon as the reader has taken one. */
  lemma {:induction false} PutWaitsForRoom(events: seq<Event>, r: Run, t: Thread, maxSize: nat)
    requires IsRun(events, r, maxSize) && t in r.state.writers
    ensures Enabled(r.state, Put(t), maxSize) <==> maxSize == 0 || |r.state.queue| != maxSize
    ensures Enabled(r.state, Get, maxSize) ==> Enabled(Next(r.state, Get, maxSize).0, Put(t), maxSize)
  {
    if maxSize > 0 { EveryRunIsBounded(events, r, maxSize); }
  }

  lemma PrefixOfPut(r: Run)
    requires Conserved(r)
    ensures r.returned <= r.put
  {
  }

  /**
    A read goes on exactly as long as it lacks what it waits for: anything, if no size is given;
    the size, if one is; the end of the stream, if the size is negative.
  */
  lemma {:induction false} ReadGoesOn(s: State, maxSize: nat)
    requires s.reader.Looping?
    ensures var n, size := |s.reader.res|, s.reader.size;
            && (Enabled(s, Deliver, maxSize) <==> if size == 0 then n > 0 else 0 < size <= n)
            && (Enabled(s, Get, maxSize) <==> !Enabled(s, Deliver, maxSize) && s.queue != [])
            && (Enabled(s, TimeOut, maxSize) <==> !Enabled(s, Deliver, maxSize) && s.queue == [])
  {
  }

  /** What a read of each kind returns. */
  lemma {:induction false} ReturnedSize(s: State, e: Event, maxSize: nat)
    requires Enabled(s, e, maxSize) && Next(s, e, maxSize).1.Some?
    ensures var b, size := Next(s, e, maxSize).1.value, s.reader.size;
            && (size > 0 ==> |b| <= size && (|b| < size ==> s.isClosed))
            && (size == 0 && b == [] ==> s.isClosed)
            && (size < 0 ==> s.isClosed)
  {
  }

  /**
    A read that ended at the look at `is_closed` has returned all there was, except the bytes
    put between its time-out and that look.
  */
  lemma EndOfStream(events: seq<Event>, r: Run, maxSize: nat)
    requires IsRun(events, r, maxSize) && r.state.reader.TimedOut? && r.state.isClosed
    ensures var t := Step(r, LookClosed, maxSize);
            && t.returned + r.since == t.put && t.state.unread == []
            && (t.returned == t.put <==> r.since == [])
  {
    EveryRunConserves(events, r, maxSize);
    var s, t := r.state, Step(r, LookClosed, maxSize);
    assert Cut(s.reader.size, s.reader.res) == (s.reader.res, []);
    assert r.returned + s.reader.res + [] + r.since == t.returned + r.since;
    if t.returned == t.put { assert |r.since| == 0; }
    if r.since == [] { assert t.returned + [] == t.returned; }
  }

  /** With the queue closed and no write under way at the time-out, that is everything. */
  lemma EndOfStreamAfterClose(events: seq<Event>, r: Run, maxSize: nat)
    requires IsRun(events, r, maxSize) && r.state.reader.TimedOut? && r.over
    ensures r.state.isClosed && Step(r, LookClosed, maxSize).returned == r.put
  {
    EveryRunConserves(events, r, maxSize);
    EndOfStream(events, r, maxSize);
  }

  /** A run: a writer is past its check, a reader waits and times out. */
  lemma UpToTimeOut() returns (events: seq<Event>, r: Run)
    ensures IsRun(events, r, 1) && r == Run(State(false, [], [], TimedOut(0, []), map[0 := [7]]), map[0 := [7]], [], [], [], false)
  {
    var r0 := Run(Start(), map[], [], [], [], false);
    var r1 := r0.(state := State(false, [], [], Idle, map[0 := [7]]), given := map[0 := [7]]);
    var r2 := r1.(state := r1.state.(reader := Looping(0, [])));
    r := r2.(state := r1.state.(reader := TimedOut(0, [])));
    RunSnoc([], r0, StartWrite(0, [7]), r1, 1);
    events := [] + [StartWrite(0, [7])];
    RunSnoc(events, r1, StartRead(0), r2, 1);
    events := events + [StartRead(0)];
    RunSnoc(events, r2, TimeOut, r, 1);
    events := events + [TimeOut];
  }

  /** If the writer now puts its last chunk and closes, `read` returns nothing too early. */
  lemma {:induction false} EndOfStreamTooEarly() returns (events: seq<Event>, r: Run)
    ensures IsRun(events, r, 1) && r.state.reader.TimedOut? && r.state.isClosed
    ensures Next(r.state, LookClosed, 1).1 == Some([])
    ensures r.put == [7] && Step(r, LookClosed, 1).returned == []
  {
    var q;
    events, q := UpToTimeOut();
    assert q.state.writers - {0} == map[];
    var p := Run(State(false, [[7]], [], TimedOut(0, []), map[]), map[], [7], [], [7], false);
    r := p.(state := p.state.(isClosed := true));
    RunSnoc(events, q, Put(0), p, 1);
    events := events + [Put(0)];
    RunSnoc(events, p, Close, r, 1);
    events := events + [Close];
  }

  lemma RunSnoc(events: seq<Event>, q: Run, e: Event, r: Run, maxSize: nat)
    requires IsRun(events, q, maxSize) && Enabled(q.state, e, maxSize) && r == Step(q, e, maxSize)
    ensures IsRun(events + [e], r, maxSize)
  {
  }

  // ---------------------------------------------------------------- the class

  /** The fields, with a method for every stretch of `read`, `write` and `close` that no other thread can interrupt. */
  class FileLikeQueue {
    var isClosed: bool
    var queue: seq<bytes>
    var unread: bytes
    const maxSize: nat

    constructor (maxSize: nat)
      ensures this.maxSize == maxSize && With(Idle, map[]) == Start()
    {
      this.isClosed, this.queue, this.unread, this.maxSize := false, [], [], maxSize;
    }

    /** The state, given the locals of the threads. */
    function With(reader: Reader, writers: map<Thread, bytes>): State
      reads this
    {
      State(isClosed, queue, unread, reader, writers)
    }

    /** `read`, up to its loop. */
    method BeginRead(size: int, ghost writers: map<Thread, bytes>) returns (res: bytes)
      modifies this
      ensures (With(Looping(size, res), writers), None) == old(Next(With(Idle, writers), StartRead(size), maxSize))
    {
      res := unread;
      unread := [];
    }

    /** `self.queue.get`, with a chunk or with `queue.Empty`. */
    method GetOrTimeOut(size: int, res: bytes, ghost writers: map<Thread, bytes>) returns (reader: Reader)
      requires Wants(size, res)
      modifies this
      ensures var e := if old(queue) != [] then Get else TimeOut;
              (With(reader, writers), None) == old(Next(With(Looping(size, res), writers), e, maxSize))
    {
      if queue != [] {
        reader := Looping(size, res + queue[0]);
        queue := queue[1..];
      } else {
        reader := TimedOut(size, res);
      }
    }

    /** What follows the loop. */
    method EndRead(size: int, res: bytes) returns (result: bytes)
      modifies this
      ensures (result, unread) == if size > 0 && |res| > size then (res[..size], res[size..]) else (res, old(unread))
      ensures isClosed == old(isClosed) && queue == old(queue)
    {
      result := res;
      if size > 0 && |res| > size {
        unread := res[size..];
        result := res[..size];
      }
    }

    /** The look at `is_closed` after `queue.Empty`. */
    method CheckClosed(size: int, res: bytes, ghost writers: map<Thread, bytes>) returns (reader: Reader,
            result: Option<bytes>)
      requires unread == []
      modifies this
      ensures (With(reader, writers), result) == old(Next(With(TimedOut(size, res), writers), LookClosed, maxSize))
    {
      if isClosed {
        var b := EndRead(size, res);
        return Idle, Some(b);
      }
      return Looping(size, res), None;
    }

    /** The end of a read that has what it wants. */
    method DeliverRead(size: int, res: bytes, ghost writers: map<Thread, bytes>) returns (result: bytes)
      requires unread == [] && !Wants(size, res)
      modifies this
      ensures (With(Idle, writers), Some(result)) == old(Next(With(Looping(size, res), writers), Deliver, maxSize))
    {
      result := EndRead(size, res);
    }

    /** `write`, up to `queue.put`; false is the ValueError. */
    method BeginWrite(thread: Thread, chunk: bytes, writers: map<Thread, bytes>, ghost reader: Reader)
      returns (ok: bool, writers': map<Thread, bytes>)
      requires thread !in writers
      ensures ok == !isClosed
      ensures (With(reader, writers'), None) == Next(With(reader, writers), StartWrite(thread, chunk), maxSize)
    {
      if isClosed { return false, writers; }
      return true, writers[thread := chunk];
    }

    /** `queue.put`, once there is room. */
    method PutChunk(thread: Thread, writers: map<Thread, bytes>,
            ghost reader: Reader) returns (writers': map<Thread, bytes>)
      requires Enabled(With(reader, writers), Put(thread), maxSize)
      modifies this
      ensures (With(reader, writers'), None) == old(Next(With(reader, writers), Put(thread), maxSize))
    {
      queue := queue + [writers[thread]];
      writers' := writers - {thread};
    }

    method CloseQueue(ghost reader: Reader, ghost writers: map<Thread, bytes>)
      modifies this
      ensures (With(reader, writers), None) == old(Next(With(reader, writers), Close, maxSize))
    {
      isClosed := true;
    }

    /** What is still to be read. */
    function Contents(): bytes
      reads this
    {
      unread + Flat(queue)
    }

    /** A read after everything is written and the queue closed: what was asked for, or all that is left. */
    method ReadClosed(size: int) returns (result: bytes)
      requires isClosed
      modifies this
      ensures result + Contents() == old(Contents()) && isClosed
      ensures size > 0 ==> |result| == if size <= |old(Contents())| then size else |old(Contents())|
      ensures size < 0 ==> result == old(Contents())
      ensures size == 0 && result == [] ==> old(Contents()) == []
    {
      ghost var all := Contents();
      var res := BeginRead(size, map[]);
      assert res + Flat(queue) == all;
      var done := false;
      while !done && Wants(size, res)
        invariant unread == [] && isClosed && res + Flat(queue) == all
        invariant done ==> queue == [] && Wants(size, res)
        decreases !done, |queue|
      {
        ghost var rest := queue;
        var reader := GetOrTimeOut(size, res, map[]);
        if reader.TimedOut? {
          done := isClosed;
        } else {
          assert (res + rest[0]) + Flat(rest[1..]) == res + (rest[0] + Flat(rest[1..]));
          res := reader.res;
        }
      }
      assert done ==> res == all;
      ghost var was := res;
      result := EndRead(size, res);
      assert result + (unread + Flat(queue)) == was + Flat(queue);
    }
  }
}
