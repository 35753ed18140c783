/** The decisions of wialond/wialond.py that sit between the queues and the
    connection: the position filter built by `make_position_sender`, the
    consumer loop `make_consumer`, and `connection_loop`. Threads, sleeps
    and logging are left out; what a call into the connection returned or
    raised is a parameter. */
module Wialond {
  import opened Base
  import opened Binary
  import opened Concurrency
  import opened Connection

  // ---------------------------------------------------------------------
  // The position filter

  /** Latitude and longitude, the first two fields of a fix. */
  type Location = (real, real)

  /** `EarthDistance`, taken as given. */
  type Distance = (Location, Location) -> real

  /** What the wrapper remembers: nothing yet (`ptimestamp` is -inf), or
      the time and location of the last fix whose send was acknowledged. */
  datatype Filter = NoFix | Last(time: real, location: Location)

  /** The `deadline` and `distance` settings of the position consumer. */
  datatype FilterConfig = FilterConfig(deadline: real, distance: real)

  function LocationOf(f: Fix): Location {
    (f.lat, f.lon)
  }

  /** The condition of line 73. With nothing remembered the elapsed time is
      infinite, so the `or` never reaches the distance. */
  predicate Due(filter: Filter, cfg: FilterConfig, dist: Distance, ts: real, loc: Location) {
    match filter
    case NoFix => true
    case Last(t, l) => ts - t >= cfg.deadline || dist(loc, l) >= cfg.distance
  }

  /** One call of the wrapper: the filter afterwards, the `send_position`
      request made, if any, and the exception that escaped, if any. */
  datatype Forwarded = Forwarded(filter: Filter, request: Option<(int, Fix)>, raised: Option<Error>)

  /** The wrapper of `make_position_sender` given one fix. `ack` is what
      `send_position(int(timestamp), position).get(ack_timeout)` returned
      or raised; it is only looked at when the fix is sent. */
  function PositionStep(filter: Filter, cfg: FilterConfig, dist: Distance, ts: real, fix: Fix, ack: Result<bool>): (r: Forwarded)
    ensures filter.NoFix? ==> r.request.Some?
    ensures r.request.Some? <==> Due(filter, cfg, dist, ts, LocationOf(fix))
    ensures r.request.Some? ==> r.request.value == (Trunc(ts), fix)
    ensures r.raised.Some? <==> r.request.Some? && ack.Err?
    ensures r.raised.Some? ==> r.raised.value == ack.error
    ensures r.request.Some? && ack.Ok? ==> r.filter == Last(ts, LocationOf(fix))
    ensures r.request.None? || ack.Err? ==> r.filter == filter
  {
    if !Due(filter, cfg, dist, ts, LocationOf(fix)) then Forwarded(filter, None, None)
    else match ack
      case Ok(_) => Forwarded(Last(ts, LocationOf(fix)), Some((Trunc(ts), fix)), None)
      case Err(e) => Forwarded(filter, Some((Trunc(ts), fix)), Some(e))
  }

  /** A fix offered to the wrapper, with the outcome its send would have. */
  datatype Offer = Offer(ts: real, fix: Fix, ack: Result<bool>)

  /** The wrapper applied to a run of fixes: the final filter, and for each
      fix whether it was sent. */
  function RunFilter(cfg: FilterConfig, dist: Distance, offers: seq<Offer>): (r: (Filter, seq<bool>))
    ensures |r.1| == |offers|
  {
    if |offers| == 0 then (NoFix, [])
    else
      var before := RunFilter(cfg, dist, offers[..|offers| - 1]);
      var o := offers[|offers| - 1];
      var step := PositionStep(before.0, cfg, dist, o.ts, o.fix, o.ack);
      (step.filter, before.1 + [step.request.Some?])
  }

  /** The latest offer that was sent and whose send was acknowledged. */
  function LastAcked(offers: seq<Offer>, sent: seq<bool>): (r: Option<nat>)
    requires |sent| == |offers|
    ensures r.Some? ==> r.value < |offers| && sent[r.value] && offers[r.value].ack.Ok?
    ensures r.Some? ==> forall i :: r.value < i < |offers| ==> !(sent[i] && offers[i].ack.Ok?)
    ensures r.None? ==> forall i :: 0 <= i < |offers| ==> !(sent[i] && offers[i].ack.Ok?)
  {
    if |offers| == 0 then None
    else if sent[|offers| - 1] && offers[|offers| - 1].ack.Ok? then Some(|offers| - 1)
    else LastAcked(offers[..|offers| - 1], sent[..|sent| - 1])
  }

  /** The filter always remembers the latest fix that was sent and
      acknowledged, and nothing while there is none: a fix whose send
      timed out or failed does not count as forwarded. */
  lemma {:induction false} FilterRemembersLastAcked(cfg: FilterConfig, dist: Distance, offers: seq<Offer>)
    ensures var run := RunFilter(cfg, dist, offers);
            match LastAcked(offers, run.1)
            case None => run.0 == NoFix
            case Some(i) => run.0 == Last(offers[i].ts, LocationOf(offers[i].fix))
    decreases |offers|
  {
    if |offers| > 0 {
      var init := offers[..|offers| - 1];
      var before := RunFilter(cfg, dist, init);
      FilterRemembersLastAcked(cfg, dist, init);
      var run := RunFilter(cfg, dist, offers);
      assert run.1[..|offers| - 1] == before.1;
      var o := offers[|offers| - 1];
      if !(run.1[|offers| - 1] && o.ack.Ok?) {
        assert LastAcked(offers, run.1) == LastAcked(init, before.1);
        match LastAcked(init, before.1)
        case None =>
        case Some(i) =>
          assert offers[i] == init[i];
      }
    }
  }

  /** Until some send is acknowledged, every fix is sent. */
  lemma {:induction false} NothingAckedEverythingSent(cfg: FilterConfig, dist: Distance, offers: seq<Offer>)
    requires forall i :: 0 <= i < |offers| ==> offers[i].ack.Err?
    ensures RunFilter(cfg, dist, offers).1 == seq(|offers|, i => true)
  {
    var run := RunFilter(cfg, dist, offers);
    FilterRemembersLastAcked(cfg, dist, offers);
    NothingAckedPrefix(cfg, dist, offers);
  }

  lemma {:induction false} NothingAckedPrefix(cfg: FilterConfig, dist: Distance, offers: seq<Offer>)
    requires forall i :: 0 <= i < |offers| ==> offers[i].ack.Err?
    ensures RunFilter(cfg, dist, offers).0 == NoFix
    ensures forall i :: 0 <= i < |offers| ==> RunFilter(cfg, dist, offers).1[i]
    decreases |offers|
  {
    if |offers| > 0 {
      var init := offers[..|offers| - 1];
      NothingAckedPrefix(cfg, dist, init);
      var run := RunFilter(cfg, dist, offers);
      assert run.1[..|offers| - 1] == RunFilter(cfg, dist, init).1;
    }
  }

  /** One more fix extends the run by one wrapper call. */
  lemma {:induction false} RunFilterStep(cfg: FilterConfig, dist: Distance, offers: seq<Offer>, o: Offer)
    ensures var before := RunFilter(cfg, dist, offers);
            var step := PositionStep(before.0, cfg, dist, o.ts, o.fix, o.ack);
            RunFilter(cfg, dist, offers + [o]) == (step.filter, before.1 + [step.request.Some?])
  {
    assert (offers + [o])[..|offers|] == offers;
  }

  /** With a positive deadline and threshold, fixes at t0, t0 + D/2 and
      t0 + D at one location, each acknowledged when sent: the first and
      the third are sent, the second is not. */
  lemma {:induction false} DeadlineScenario(cfg: FilterConfig, dist: Distance, t0: real, fixes: seq<Fix>)
    requires cfg.deadline > 0.0 && cfg.distance > 0.0
    requires |fixes| == 3
    requires LocationOf(fixes[1]) == LocationOf(fixes[0]) && LocationOf(fixes[2]) == LocationOf(fixes[0])
    requires dist(LocationOf(fixes[0]), LocationOf(fixes[0])) == 0.0
    ensures var offers := [Offer(t0, fixes[0], Ok(true)),
                           Offer(t0 + cfg.deadline / 2.0, fixes[1], Ok(true)),
                           Offer(t0 + cfg.deadline, fixes[2], Ok(true))];
            RunFilter(cfg, dist, offers).1 == [true, false, true]
  {
    var o0 := Offer(t0, fixes[0], Ok(true));
    var o1 := Offer(t0 + cfg.deadline / 2.0, fixes[1], Ok(true));
    var o2 := Offer(t0 + cfg.deadline, fixes[2], Ok(true));
    var remembered := Last(t0, LocationOf(fixes[0]));
    assert RunFilter(cfg, dist, []) == (NoFix, []);
    RunFilterStep(cfg, dist, [], o0);
    assert [] + [o0] == [o0];
    assert PositionStep(NoFix, cfg, dist, t0, fixes[0], Ok(true)).filter == remembered;
    assert PositionStep(NoFix, cfg, dist, t0, fixes[0], Ok(true)).request.Some?;
    assert RunFilter(cfg, dist, [o0]).0 == remembered;
    assert RunFilter(cfg, dist, [o0]).1 == [true];
    assert RunFilter(cfg, dist, [o0]) == (remembered, [true]);
    RunFilterStep(cfg, dist, [o0], o1);
    assert [o0] + [o1] == [o0, o1];
    assert !Due(remembered, cfg, dist, o1.ts, LocationOf(fixes[1]));
    assert PositionStep(remembered, cfg, dist, o1.ts, fixes[1], Ok(true)).request.None?;
    assert RunFilter(cfg, dist, [o0, o1]).0 == remembered;
    assert RunFilter(cfg, dist, [o0, o1]).1 == [true, false];
    assert RunFilter(cfg, dist, [o0, o1]) == (remembered, [true, false]);
    RunFilterStep(cfg, dist, [o0, o1], o2);
    assert [o0, o1] + [o2] == [o0, o1, o2];
  }

  /** Right after an acknowledged fix, a fix displaced by at least the
      threshold is sent however little time has passed. */
  lemma {:induction false} DisplacementScenario(cfg: FilterConfig, dist: Distance, t0: real, eps: real, fix0: Fix, fix1: Fix, ack: Result<bool>)
    requires dist(LocationOf(fix1), LocationOf(fix0)) >= cfg.distance
    ensures RunFilter(cfg, dist, [Offer(t0, fix0, Ok(true)), Offer(t0 + eps, fix1, ack)]).1 == [true, true]
  {
    var o0 := Offer(t0, fix0, Ok(true));
    var o1 := Offer(t0 + eps, fix1, ack);
    RunFilterStep(cfg, dist, [], o0);
    assert [] + [o0] == [o0];
    RunFilterStep(cfg, dist, [o0], o1);
  }

  /** A fix whose send timed out is not remembered: a second fix at the
      same place half a deadline later is sent again. */
  lemma {:induction false} TimedOutFixIsNotRemembered(cfg: FilterConfig, dist: Distance, t0: real, fix0: Fix, fix1: Fix, ack: Result<bool>)
    ensures RunFilter(cfg, dist, [Offer(t0, fix0, Err(TimeoutError)), Offer(t0 + cfg.deadline / 2.0, fix1, ack)]).1 == [true, true]
  {
    var o0 := Offer(t0, fix0, Err(TimeoutError));
    var o1 := Offer(t0 + cfg.deadline / 2.0, fix1, ack);
    RunFilterStep(cfg, dist, [], o0);
    assert [] + [o0] == [o0];
    RunFilterStep(cfg, dist, [o0], o1);
  }

  // ---------------------------------------------------------------------
  // make_consumer

  /** How a consumer loop ended: the iterator stopped on the interrupt
      sentinel, the queue was empty so the get blocks, a BaseException
      escaped the handler and ended the thread, or the observation ran out. */
  datatype ConsumerEnd = Stopped | Idle | Crashed | Observed

  /** The values handed to the handler, in order, the queue afterwards, and
      how the loop ended. */
  datatype Consumed<T, Q> = Consumed(handled: seq<T>, queue: Q, end: ConsumerEnd)

  /** `make_consumer(queue, func)` over a BlockingQueue. `exits` says how
      each successive handler call ends; an Exception is logged and the
      loop goes on, anything else escapes. */
  function ConsumeQueue<T>(q: BlockingQueue<T>, exits: seq<HandlerExit>): (r: Consumed<T, BlockingQueue<T>>)
    ensures |r.handled| <= |q.items| && r.handled == q.items[..|r.handled|]
    ensures r.queue.items == q.items[|r.handled|..]
    ensures r.end.Stopped? <==> q.interrupted && |exits| > 0
    ensures q.interrupted && |exits| > 0 ==> r.handled == [] && !r.queue.interrupted
    ensures r.end.Crashed? ==> RaisedBaseException in exits
    decreases |exits|
  {
    if |exits| == 0 then Consumed([], q, Observed)
    else match QueueGet(q)
      case Blocks => Consumed([], q, Idle)
      case Proceeds((Stop, after)) => Consumed([], after, Stopped)
      case Proceeds((Value(x), after)) =>
        if exits[0].RaisedBaseException? then Consumed([x], after, Crashed)
        else
          var r := ConsumeQueue(after, exits[1..]);
          assert q.items[1..][..|r.handled|] == q.items[1..|r.handled| + 1];
          Consumed([x] + r.handled, r.queue, r.end)
  }

  /** Handler exceptions are swallowed: as long as no BaseException
      escapes, the consumer handles every queued value in FIFO order. */
  lemma {:induction false} ConsumerSwallowsExceptions<T>(q: BlockingQueue<T>, exits: seq<HandlerExit>)
    requires !q.interrupted && |exits| <= |q.items|
    requires forall i :: 0 <= i < |exits| ==> !exits[i].RaisedBaseException?
    ensures ConsumeQueue(q, exits).handled == q.items[..|exits|]
    ensures ConsumeQueue(q, exits).end == Observed
    decreases |exits|
  {
    if |exits| > 0 {
      var after := q.(items := q.items[1..]);
      ConsumerSwallowsExceptions(after, exits[1..]);
    }
  }

  /** Which cleanup the scope around a taken deque entry runs. */
  datatype Scope = AsWritten | AlwaysRelease

  function ExitScope<T>(scope: Scope, d: BlockingDeque<T>, key: nat, exit: HandlerExit): BlockingDeque<T> {
    match scope
    case AsWritten => ManagedExitAsWritten(d, key, exit)
    case AlwaysRelease => ManagedExit(d, key, exit)
  }

  /** `make_consumer(deque, managed_handler(func))`: each get hands out the
      oldest entry, the handler runs inside the entry's scope, and the
      scope's cleanup decides whether the entry is released. */
  function ConsumeDeque<T>(d: BlockingDeque<T>, exits: seq<HandlerExit>, scope: Scope): (r: Consumed<T, BlockingDeque<T>>)
    ensures |r.handled| <= |exits|
    ensures r.end.Stopped? <==> d.interrupted && |exits| > 0
    ensures r.end.Crashed? ==> RaisedBaseException in exits
    decreases |exits|
  {
    if |exits| == 0 then Consumed([], d, Observed)
    else match DequeGet(d)
      case Blocks => Consumed([], d, Idle)
      case Proceeds((Stop, after)) => Consumed([], after, Stopped)
      case Proceeds((Value(e), after)) =>
        var released := ExitScope(scope, after, e.key, exits[0]);
        if exits[0].RaisedBaseException? then Consumed([e.value], released, Crashed)
        else
          var r := ConsumeDeque(released, exits[1..], scope);
          Consumed([e.value] + r.handled, r.queue, r.end)
  }

  function Values<T>(st: seq<Entry<T>>): (r: seq<T>)
    ensures |r| == |st| && forall i :: 0 <= i < |st| ==> r[i] == st[i].value
  {
    seq(|st|, i requires 0 <= i < |st| => st[i].value)
  }

  /** With keys strictly ascending, releasing the first key drops exactly
      the first entry. */
  lemma {:induction false} ReleaseOldest<T>(d: BlockingDeque<T>)
    requires Ordered(d) && |d.storage| > 0
    ensures Release(d, d.storage[0].key).storage == d.storage[1..]
    ensures Ordered(Release(d, d.storage[0].key))
  {
    assert d.storage[0].key !in Keys(d.storage[1..]);
  }

  /** With the cleanup run on every exit, a consumer whose handler never
      raises a BaseException works through an ordered deque oldest first,
      each entry once, and leaves it empty. */
  lemma {:induction false} AlwaysReleaseDrainsInOrder<T>(d: BlockingDeque<T>, exits: seq<HandlerExit>)
    requires Ordered(d) && !d.interrupted && |exits| == |d.storage|
    requires forall i :: 0 <= i < |exits| ==> !exits[i].RaisedBaseException?
    ensures ConsumeDeque(d, exits, AlwaysRelease).handled == Values(d.storage)
    ensures ConsumeDeque(d, exits, AlwaysRelease).queue.storage == []
    decreases |exits|
  {
    if |exits| > 0 {
      ReleaseOldest(d);
      assert DequeGet(d) == Proceeds((Value(d.storage[0]), d));
      var released := Release(d, d.storage[0].key);
      AlwaysReleaseDrainsInOrder(released, exits[1..]);
      assert Values(d.storage) == [d.storage[0].value] + Values(d.storage[1..]);
    }
  }

  /** As written, a handler that keeps raising an Exception is handed the
      same oldest value again on every turn: the failed item is retried
      instead of dropped. */
  lemma {:induction false} AsWrittenRetriesFailedEntry<T>(d: BlockingDeque<T>, k: nat)
    requires !d.interrupted && |d.storage| > 0
    ensures ConsumeDeque(d, seq(k, i => RaisedException), AsWritten).handled == seq(k, i => d.storage[0].value)
    decreases k
  {
    if k > 0 {
      AsWrittenRetriesFailedEntry(d, k - 1);
      assert seq(k, i => RaisedException)[1..] == seq(k - 1, i => RaisedException);
      assert seq(k, i => d.storage[0].value) == [d.storage[0].value] + seq(k - 1, i => d.storage[0].value);
    }
  }

  // ---------------------------------------------------------------------
  // connection_loop

  /** What `connection_loop` did: whether the workers were started and
      stopped, and the exception it let escape, if any. */
  datatype LoopEnd = LoopEnd(workersStarted: bool, workersStopped: bool, raised: Option<Error>)

  /** `connection_loop(conn, make_workers)`. `login` is what
      `send_login(...).get(timeout=60)` returned or raised; `interrupted` is
      an exception raised while waiting for the connection to close. A
      TimeoutError or ConnectionError ends the loop quietly before any
      worker starts; any other login failure escapes. Once started, the
      workers are stopped however the wait ends. */
  function ConnectionLoop(login: Result<bool>, interrupted: Option<Error>): (r: LoopEnd)
    ensures r.workersStarted <==> login.Ok?
    ensures r.workersStopped <==> r.workersStarted
    ensures login.Ok? ==> r.raised == interrupted
    ensures login.Err? && (login.error == TimeoutError || IsConnectionError(login.error)) ==> r.raised == None
    ensures login.Err? && !(login.error == TimeoutError || IsConnectionError(login.error)) ==> r.raised == Some(login.error)
  {
    match login
    case Err(e) =>
      if e == TimeoutError || IsConnectionError(e) then LoopEnd(false, false, None)
      else LoopEnd(false, false, Some(e))
    case Ok(_) => LoopEnd(true, true, interrupted)
  }

  /** A position send that does not reset the connection registers its
      result exactly as any other send does. */
  lemma {:induction false} PositionRegisters(c: Conn, ts: int, f: Fix, crc: Crc16)
    requires Valid(c) && FieldsFit(FieldsOf(f)) && 0 <= ts < Pow256(4)
    ensures SendPosition(c, ts, f, crc, Delivered).value.conn == Register(c)
  {
    var inner := PositionData(f).value;
    PositionRecordFits();
    SendRegisters(c, 1, DataPayload(ts, inner).value, crc, Delivered);
  }

  /** The start of a session: the server acknowledges the login with
      code 0, so the login's `get` returns True and the workers start. */
  lemma {:induction false} LoginStartsWorkers(id: seq<Byte>, crc: Crc16) returns (login: Conn, acked: Conn)
    requires |id| + 3 < LongFlag(2)
    ensures SendLogin(Open(), id, crc, Delivered).Ok? && SendLogin(Open(), id, crc, Delivered).value.conn == login
    ensures HandleMessage(login, AckFrame(0, 0), crc) == Ok(Step(acked, []))
    ensures !acked.closed && acked.acks == map[] && |acked.futures| == 1
    ensures Get(acked.futures[0]) == Ok(true) && ConnectionLoop(Get(acked.futures[0]), None).workersStarted
  {
    var c0 := Open();
    login := SendLogin(c0, id, crc, Delivered).value.conn;
    SendRegisters(c0, 0, LoginPayload(id).value, crc, Delivered);
    RegisterBeforeWrap(c0);
    acked := AckStep(login, 0, 0, [], crc);
    assert AckFrame(0, 0) + [] == AckFrame(0, 0);
  }

  /** A position and then a keep-alive sent on a connection with nothing
      pending leave exactly those two entries in the table. */
  lemma {:induction false} PositionThenKeepAlive(c: Conn, ts: int, f: Fix, crc: Crc16)
    requires Valid(c) && !c.closed && c.acks == map[]
    requires FieldsFit(FieldsOf(f)) && 0 <= ts < Pow256(4)
    ensures var n := |c.futures|;
            var pos := SendPosition(c, ts, f, crc, Delivered).value.conn;
            var alive := SendKeepAlive(pos, crc, Delivered).conn;
            && !alive.closed && |alive.futures| == n + 2
            && n % SequenceSpace != (n + 1) % SequenceSpace
            && alive.acks == map[n % SequenceSpace := n, (n + 1) % SequenceSpace := n + 1]
  {
    var n := |c.futures|;
    PositionRegisters(c, ts, f, crc);
    var pos := SendPosition(c, ts, f, crc, Delivered).value.conn;
    SendRegisters(pos, KeepAlive, [], crc, Delivered);
  }

  /** With two results pending, an ack with code 2 for the first fails it
      with that code and leaves the connection open; when the stream then
      ends, the second fails with ConnectionClosedError and the first keeps
      its error. */
  lemma {:induction false} RejectThenClose(c: Conn, first: U16, i: nat, second: U16, j: nat, crc: Crc16)
    requires Valid(c) && !c.closed && first != second
    requires c.acks == map[first := i, second := j] && i < |c.futures| && j < |c.futures|
    ensures var h := HandleMessage(c, AckFrame(2, first), crc);
            && h.Ok? && !h.value.conn.closed
            && Get(h.value.conn.futures[i]) == Err(AckRejected(2))
            && var end := Listen(h.value.conn, [], crc);
               && end.closed
               && Get(end.futures[j]) == Err(ConnectionClosedError)
               && Get(end.futures[i]) == Err(AckRejected(2))
  {
    assert first in c.acks && c.acks[first] == i;
    assert second in c.acks && c.acks[second] == j;
    var next, end := AckThenEnd(c, 2, first, crc);
  }

  /** The rest of the session: the server rejects a position with code 2,
      which fails only that send and keeps the connection open; then the
      stream ends, and the keep-alive still waiting fails with
      ConnectionClosedError while the rejected position keeps its error. */
  lemma {:induction false} RejectedPositionThenClose(c: Conn, ts: int, f: Fix, crc: Crc16)
    requires Valid(c) && !c.closed && c.acks == map[]
    requires FieldsFit(FieldsOf(f)) && 0 <= ts < Pow256(4)
    ensures var n := |c.futures|;
            var pos := SendPosition(c, ts, f, crc, Delivered).value.conn;
            var alive := SendKeepAlive(pos, crc, Delivered).conn;
            var h := HandleMessage(alive, AckFrame(2, n % SequenceSpace), crc);
            && h.Ok? && !h.value.conn.closed
            && Get(h.value.conn.futures[n]) == Err(AckRejected(2))
            && var end := Listen(h.value.conn, [], crc);
               && end.closed
               && Get(end.futures[n + 1]) == Err(ConnectionClosedError)
               && Get(end.futures[n]) == Err(AckRejected(2))
  {
    var n := |c.futures|;
    PositionThenKeepAlive(c, ts, f, crc);
    var alive := SendKeepAlive(SendPosition(c, ts, f, crc, Delivered).value.conn, crc, Delivered).conn;
    RejectThenClose(alive, n % SequenceSpace, n, (n + 1) % SequenceSpace, n + 1, crc);
  }
}
