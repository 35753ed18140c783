/** The state machines of wialond/util/concurrency.py, without the blocking:
    the single-slot AsyncResult, the FIFO BlockingQueue with its interrupt
    sentinel, and the bounded drop-oldest BlockingDeque with take-without-
    remove and release by ordinal. Where an operation would block, the model
    returns `Blocks` and leaves the state unchanged. */
module Concurrency {
  import opened Base

  /** The outcome of an operation that may block its caller. */
  datatype Blocking<+X> = Blocks | Proceeds(value: X)

  // ---------------------------------------------------------------------
  // AsyncResult

  /** An AsyncResult: the Event flag and the two optional slots. */
  datatype AsyncResult<T> = AsyncResult(isSet: bool, result: Option<T>, error: Option<Error>)

  function Unresolved<T>(): AsyncResult<T> {
    AsyncResult(false, None, None)
  }

  /** Every AsyncResult built by the operations below has its flag set
      exactly when one of its slots is filled. */
  predicate Consistent<T>(a: AsyncResult<T>) {
    a.isSet <==> (a.result.Some? || a.error.Some?)
  }

  /** What `set_error` is given: an exception (instance or class), or some
      other value. */
  datatype ErrorArg = Exception(kind: Error) | NotAnException

  /** `wait(timeout)`: returns once the flag is set, otherwise raises
      TimeoutError. The model observes the state at the moment the timeout
      elapses. */
  function Wait<T>(a: AsyncResult<T>): (r: Result<()>)
    ensures r.Ok? <==> a.isSet
    ensures r.Err? ==> r.error == TimeoutError
  {
    if a.isSet then Ok(()) else Err(TimeoutError)
  }

  /** `get(timeout)`: wait, then raise the stored error in preference to
      returning the stored result. */
  function Get<T>(a: AsyncResult<T>): (r: Result<T>)
    ensures !a.isSet ==> r == Err(TimeoutError)
    ensures a.isSet && a.error.Some? ==> r == Err(a.error.value)
    ensures a.isSet && a.error.None? && a.result.Some? ==> r == Ok(a.result.value)
    ensures Consistent(a) ==> r != Err(AssertionError) || a.error == Some(AssertionError)
  {
    var _ :- Wait(a);
    if a.error.Some? then Err(a.error.value)
    else if a.result.Some? then Ok(a.result.value)
    else Err(AssertionError)
  }

  /** `set_result(v)`: store the value and set the flag. An earlier error
      still wins on `get`. */
  function SetResult<T>(a: AsyncResult<T>, v: T): (r: AsyncResult<T>)
    ensures Consistent(r)
    ensures Get(r) == if a.error.Some? then Err(a.error.value) else Ok(v)
  {
    a.(isSet := true, result := Some(v))
  }

  /** `set_error(e)`: a value that is not an exception raises TypeError and
      stores nothing; an exception is stored and the flag set. */
  function SetError<T>(a: AsyncResult<T>, e: ErrorArg): (r: Result<AsyncResult<T>>)
    ensures e.NotAnException? <==> r.Err?
    ensures r.Err? ==> r.error == TypeError
    ensures r.Ok? ==> Consistent(r.value) && Get(r.value) == Err(e.kind)
    ensures r.Ok? ==> r.value.result == a.result
  {
    match e
    case NotAnException => Err(TypeError)
    case Exception(kind) => Ok(a.(isSet := true, error := Some(kind)))
  }

  /** A result that is never resolved times out; resolving it with a value
      makes `get` return that value; and an error, once stored, is what
      `get` raises even if a value is stored afterwards. */
  lemma {:induction false} AsyncResultLifecycle<T>(v: T, e: Error)
    ensures Get(Unresolved<T>()) == Err(TimeoutError)
    ensures Get(SetResult(Unresolved(), v)) == Ok(v)
    ensures var failed := SetError(Unresolved<T>(), Exception(e));
            failed.Ok? && Get(SetResult(failed.value, v)) == Err(e)
  {
  }

  // ---------------------------------------------------------------------
  // BlockingQueue

  /** A `queue.Queue` with the interrupt flag. `maxsize <= 0` is unbounded. */
  datatype BlockingQueue<T> = BlockingQueue(maxsize: int, items: seq<T>, interrupted: bool)

  /** What a get hands out: a stored value, or the StopIteration sentinel. */
  datatype Got<+T> = Value(value: T) | Stop

  function NewQueue<T>(maxsize: int): BlockingQueue<T> {
    BlockingQueue(maxsize, [], false)
  }

  /** `_qsize`: the stored count, plus one while interrupted. */
  function QueueSize<T>(q: BlockingQueue<T>): (r: nat)
    ensures r == 0 <==> q.items == [] && !q.interrupted
    ensures q.interrupted ==> r == |q.items| + 1
    ensures !q.interrupted ==> r == |q.items|
  {
    |q.items| + if q.interrupted then 1 else 0
  }

  /** `interrupt()`: raise the flag; a flag already raised stays a single
      pending sentinel. */
  function InterruptQueue<T>(q: BlockingQueue<T>): (r: BlockingQueue<T>)
    ensures r.items == q.items && r.interrupted
    ensures r.maxsize == q.maxsize
  {
    q.(interrupted := true)
  }

  /** `put(x)`: blocks while a positive maxsize is reached (the pending
      sentinel counts), otherwise appends. */
  function QueuePut<T>(q: BlockingQueue<T>, x: T): (r: Blocking<BlockingQueue<T>>)
    ensures r.Blocks? <==> q.maxsize > 0 && QueueSize(q) >= q.maxsize
    ensures r.Proceeds? ==> r.value.items == q.items + [x] && r.value.interrupted == q.interrupted
    ensures r.Proceeds? ==> r.value.maxsize == q.maxsize
  {
    if q.maxsize > 0 && QueueSize(q) >= q.maxsize then Blocks
    else Proceeds(q.(items := q.items + [x]))
  }

  /** `get()`: blocks on an empty, uninterrupted queue; a pending interrupt
      is served first, as the sentinel, and clears the flag; otherwise the
      oldest item is removed and returned. */
  function QueueGet<T>(q: BlockingQueue<T>): (r: Blocking<(Got<T>, BlockingQueue<T>)>)
    ensures r.Blocks? <==> QueueSize(q) == 0
    ensures q.interrupted ==> r == Proceeds((Stop, q.(interrupted := false)))
    ensures !q.interrupted && |q.items| > 0 ==> r == Proceeds((Value(q.items[0]), q.(items := q.items[1..])))
    ensures r.Proceeds? ==> r.value.1.maxsize == q.maxsize && !r.value.1.interrupted
  {
    if QueueSize(q) == 0 then Blocks
    else if q.interrupted then Proceeds((Stop, q.(interrupted := false)))
    else Proceeds((Value(q.items[0]), q.(items := q.items[1..])))
  }

  /** An interrupt yields the sentinel exactly once and leaves the stored
      items alone; the get after it sees the items again, or blocks. */
  lemma {:induction false} InterruptYieldsStopOnce<T>(q: BlockingQueue<T>)
    ensures var g := QueueGet(InterruptQueue(q));
            && g.Proceeds? && g.value.0 == Stop
            && g.value.1.items == q.items
            && QueueGet(g.value.1) != Proceeds((Stop, g.value.1))
  {
  }

  // ---------------------------------------------------------------------
  // BlockingDeque

  /** A stored item under its ordinal key. */
  datatype Entry<+T> = Entry(key: nat, value: T)

  /** A BlockingDeque: capacity, the next ordinal, the OrderedDict storage as
      a sequence in insertion order, and the inherited interrupt flag. */
  datatype BlockingDeque<T> = BlockingDeque(capacity: nat, counter: nat, storage: seq<Entry<T>>, interrupted: bool)

  /** `BlockingDeque(maxsize)`: the capacity is `abs(maxsize)`. */
  function NewDeque<T>(maxsize: int): (r: BlockingDeque<T>)
    ensures r.capacity == if maxsize < 0 then -maxsize else maxsize
    ensures r.storage == [] && r.counter == 0 && !r.interrupted
  {
    BlockingDeque(if maxsize < 0 then -maxsize else maxsize, 0, [], false)
  }

  ghost predicate KeysAscending<T>(st: seq<Entry<T>>) {
    forall i, j :: 0 <= i < j < |st| ==> st[i].key < st[j].key
  }

  ghost predicate KeysBelow<T>(st: seq<Entry<T>>, counter: nat) {
    forall i :: 0 <= i < |st| ==> st[i].key < counter
  }

  /** Keys increase in insertion order and are all below the counter. */
  ghost predicate Ordered<T>(d: BlockingDeque<T>) {
    KeysAscending(d.storage) && KeysBelow(d.storage, d.counter)
  }

  function Keys<T>(st: seq<Entry<T>>): set<nat> {
    set i | 0 <= i < |st| :: st[i].key
  }

  /** `_qsize`: the stored count, plus one while interrupted. */
  function DequeSize<T>(d: BlockingDeque<T>): (r: nat)
    ensures r == 0 <==> d.storage == [] && !d.interrupted
    ensures d.interrupted ==> r == |d.storage| + 1
    ensures !d.interrupted ==> r == |d.storage|
  {
    |d.storage| + if d.interrupted then 1 else 0
  }

  function InterruptDeque<T>(d: BlockingDeque<T>): (r: BlockingDeque<T>)
    ensures r.storage == d.storage && r.interrupted
    ensures r.capacity == d.capacity && r.counter == d.counter
  {
    d.(interrupted := true)
  }

  /** The eviction loop of `_put`: pop the oldest entry while the store holds
      at least `capacity` entries. With capacity 0 the first pop finds the
      store empty and raises KeyError. */
  function Evict<T>(st: seq<Entry<T>>, capacity: nat): (r: Result<seq<Entry<T>>>)
    ensures capacity == 0 <==> r.Err?
    ensures r.Err? ==> r.error == KeyError
    ensures r.Ok? ==> |r.value| == if |st| < capacity then |st| else capacity - 1
    ensures r.Ok? ==> r.value == st[|st| - |r.value|..]
  {
    if |st| >= capacity then
      if |st| == 0 then Err(KeyError) else Evict(st[1..], capacity)
    else Ok(st)
  }

  /** `put(x)`: the deque's Queue has a non-positive maxsize, so put never
      blocks; evict, then store x under the next ordinal. */
  function DequePut<T>(d: BlockingDeque<T>, x: T): (r: Result<BlockingDeque<T>>)
    ensures d.capacity == 0 <==> r.Err?
    ensures r.Err? ==> r.error == KeyError
    ensures r.Ok? ==> |r.value.storage| == (if |d.storage| < d.capacity then |d.storage| else d.capacity - 1) + 1
    ensures r.Ok? ==> |r.value.storage| <= d.capacity
    ensures r.Ok? ==> r.value.storage == (d.storage + [Entry(d.counter, x)])[|d.storage| + 1 - |r.value.storage|..]
    ensures r.Ok? ==> r.value.counter == d.counter + 1 && r.value.capacity == d.capacity && r.value.interrupted == d.interrupted
  {
    match Evict(d.storage, d.capacity)
    case Err(error) => Err(error)
    case Ok(kept) =>
      var e := Entry(d.counter, x);
      SuffixOfAppend(d.storage, |d.storage| - |kept|, e);
      Ok(BlockingDeque(d.capacity, d.counter + 1, kept + [e], d.interrupted))
  }

  lemma {:induction false} SuffixOfAppend<T>(st: seq<T>, k: nat, e: T)
    requires k <= |st|
    ensures (st + [e])[k..] == st[k..] + [e]
  {
    assert forall i | 0 <= i < |st| - k :: (st + [e])[k..][i] == st[k + i];
  }

  /** The entry a put stores is the newest one. */
  lemma {:induction false} DequePutStoresLast<T>(d: BlockingDeque<T>, x: T)
    requires d.capacity >= 1
    ensures var st := DequePut(d, x).value.storage;
            |st| >= 1 && st[|st| - 1] == Entry(d.counter, x)
  {
  }

  lemma {:induction false} SuffixAppendAscending<T>(st: seq<Entry<T>>, k: nat, e: Entry<T>, counter: nat)
    requires KeysAscending(st) && KeysBelow(st, counter) && k <= |st| && e.key == counter
    ensures KeysAscending(st[k..] + [e]) && KeysBelow(st[k..] + [e], counter + 1)
  {
    var r := st[k..] + [e];
    forall i, j | 0 <= i < j < |r|
      ensures r[i].key < r[j].key
    {
      assert r[i] == st[k + i];
      if j < |r| - 1 {
        assert r[j] == st[k + j];
      }
    }
    forall i | 0 <= i < |r|
      ensures r[i].key < counter + 1
    {
      if i < |r| - 1 {
        assert r[i] == st[k + i];
      }
    }
  }

  /** A put keeps the ordinals ascending in insertion order. */
  lemma {:induction false} DequePutOrdered<T>(d: BlockingDeque<T>, x: T)
    requires Ordered(d) && d.capacity >= 1
    ensures Ordered(DequePut(d, x).value)
  {
    var r := DequePut(d, x).value;
    var e := Entry(d.counter, x);
    var k := |d.storage| + 1 - |r.storage|;
    SuffixAppendAscending(d.storage, k, e, d.counter);
    assert (d.storage + [e])[k..] == d.storage[k..] + [e];
  }

  /** `get()`: blocks on an empty, uninterrupted deque; a pending interrupt
      is served first as the sentinel; otherwise the oldest entry is handed
      out and stays in storage until released. */
  function DequeGet<T>(d: BlockingDeque<T>): (r: Blocking<(Got<Entry<T>>, BlockingDeque<T>)>)
    ensures r.Blocks? <==> DequeSize(d) == 0
    ensures d.interrupted ==> r == Proceeds((Stop, d.(interrupted := false)))
    ensures !d.interrupted && r.Proceeds? ==> r.value.1 == d && r.value.0.Value? && r.value.0.value in d.storage
    ensures Ordered(d) && !d.interrupted && r.Proceeds? ==>
              forall i :: 0 <= i < |d.storage| ==> r.value.0.value.key <= d.storage[i].key
  {
    if DequeSize(d) == 0 then Blocks
    else if d.interrupted then Proceeds((Stop, d.(interrupted := false)))
    else Proceeds((Value(d.storage[0]), d))
  }

  /** The storage without the entry under `key`. */
  function RemoveKey<T>(st: seq<Entry<T>>, key: nat): (r: seq<Entry<T>>)
    ensures forall i :: 0 <= i < |r| ==> r[i] in st && r[i].key != key
    ensures forall i :: 0 <= i < |st| && st[i].key != key ==> st[i] in r
    ensures |r| <= |st|
    ensures key !in Keys(st) ==> r == st
    ensures KeysAscending(st) ==> KeysAscending(r)
  {
    if |st| == 0 then []
    else if st[0].key == key then
      AscendingTail(st);
      RemoveKey(st[1..], key)
    else
      assert Keys(st) == {st[0].key} + Keys(st[1..]);
      var tail := RemoveKey(st[1..], key);
      AscendingTail(st);
      AscendingPrepend(st, tail);
      [st[0]] + tail
  }

  /** Dropping the first entry keeps the keys ascending. */
  lemma {:induction false} AscendingTail<T>(st: seq<Entry<T>>)
    requires |st| > 0
    ensures KeysAscending(st) ==> KeysAscending(st[1..])
  {
    if KeysAscending(st) {
      var sup := st[1..];
      forall i, j | 0 <= i < j < |sup|
        ensures sup[i].key < sup[j].key
      {
        assert sup[i] == st[i + 1] && sup[j] == st[j + 1];
      }
    }
  }

  /** The first entry of an ascending store stays ahead of any part of the
      rest, and an ascending part stays ascending behind it. */
  lemma {:induction false} AscendingPrepend<T>(st: seq<Entry<T>>, sub: seq<Entry<T>>)
    requires |st| > 0
    requires forall i :: 0 <= i < |sub| ==> sub[i] in st[1..]
    requires KeysAscending(st[1..]) ==> KeysAscending(sub)
    ensures KeysAscending(st) ==> KeysAscending([st[0]] + sub)
  {
    if KeysAscending(st) {
      var sup := st[1..];
      AscendingTail(st);
      var r := [st[0]] + sub;
      forall i, j | 0 <= i < j < |r|
        ensures r[i].key < r[j].key
      {
        assert r[j] == sub[j - 1];
        if i == 0 {
          var m :| 0 <= m < |sup| && sup[m] == sub[j - 1];
          assert r[i] == st[0] && st[m + 1] == sup[m];
        } else {
          assert r[i] == sub[i - 1];
        }
      }
    }
  }

  /** The cleanup of `_managed_result`: `storage.pop(key, None)`. */
  function Release<T>(d: BlockingDeque<T>, key: nat): (r: BlockingDeque<T>)
    ensures key !in Keys(r.storage)
    ensures forall i :: 0 <= i < |d.storage| && d.storage[i].key != key ==> d.storage[i] in r.storage
    ensures forall i :: 0 <= i < |r.storage| ==> r.storage[i] in d.storage
    ensures key !in Keys(d.storage) ==> r == d
    ensures r.capacity == d.capacity && r.counter == d.counter && r.interrupted == d.interrupted
    ensures Ordered(d) ==> Ordered(r)
  {
    d.(storage := RemoveKey(d.storage, key))
  }

  /** Releasing twice is releasing once: the second pop finds nothing. */
  lemma {:induction false} ReleaseIdempotent<T>(d: BlockingDeque<T>, key: nat)
    ensures Release(Release(d, key), key) == Release(d, key)
  {
  }

  function Min(a: nat, b: nat): nat {
    if a < b then a else b
  }

  /** `st` holds the last |st| items of `xs`, each under its position in
      `xs` as ordinal. */
  ghost predicate HoldsNewest<T>(st: seq<Entry<T>>, xs: seq<T>) {
    && |st| <= |xs|
    && forall j :: 0 <= j < |st| ==> st[j] == Entry(|xs| - |st| + j, xs[|xs| - |st| + j])
  }

  /** Filling a fresh deque of capacity C with puts and no takes keeps
      exactly the last min(n, C) items, under ordinals equal to their
      positions in the input: the lowest ordinals are the ones evicted. */
  lemma {:induction false} PutAllKeepsNewest<T>(capacity: nat, xs: seq<T>)
    requires capacity >= 1
    ensures PutAll(BlockingDeque(capacity, 0, [], false), xs).Ok?
    ensures |PutAll(BlockingDeque(capacity, 0, [], false), xs).value.storage| == Min(|xs|, capacity)
    ensures HoldsNewest(PutAll(BlockingDeque(capacity, 0, [], false), xs).value.storage, xs)
  {
    var d0 := BlockingDeque(capacity, 0, [], false);
    if |xs| > 0 {
      var init := xs[..|xs| - 1];
      PutAllKeepsNewest(capacity, init);
      PutAllCounter(d0, init);
      var d := PutAll(d0, init).value;
      assert PutAll(d0, xs) == DequePut(d, xs[|xs| - 1]);
      PutStep(d, xs);
    }
  }

  /** One step of the induction above. */
  lemma {:induction false} PutStep<T>(d: BlockingDeque<T>, xs: seq<T>)
    requires |xs| > 0 && d.capacity >= 1 && d.counter == |xs| - 1
    requires |d.storage| == Min(|xs| - 1, d.capacity)
    requires HoldsNewest(d.storage, xs[..|xs| - 1])
    ensures |DequePut(d, xs[|xs| - 1]).value.storage| == Min(|xs|, d.capacity)
    ensures HoldsNewest(DequePut(d, xs[|xs| - 1]).value.storage, xs)
  {
    var init, x := xs[..|xs| - 1], xs[|xs| - 1];
    var e := Entry(d.counter, x);
    var full := d.storage + [e];
    var st := DequePut(d, x).value.storage;
    var m := |d.storage|;
    assert |st| == Min(|xs|, d.capacity);
    var drop := m + 1 - |st|;
    assert st == full[drop..];
    WindowShift(d.storage, init, x, drop);
  }

  lemma {:induction false} WindowShift<T>(st: seq<Entry<T>>, init: seq<T>, x: T, drop: nat)
    requires HoldsNewest(st, init) && drop <= |st| + 1
    ensures HoldsNewest((st + [Entry(|init|, x)])[drop..], init + [x])
  {
    var xs := init + [x];
    var full := st + [Entry(|init|, x)];
    var w := full[drop..];
    var m := |st|;
    forall j | 0 <= j < |w|
      ensures w[j] == Entry(|xs| - |w| + j, xs[|xs| - |w| + j])
    {
      assert w[j] == full[drop + j];
      if drop + j < m {
        assert full[drop + j] == st[drop + j];
        assert xs[|init| - m + drop + j] == init[|init| - m + drop + j];
      }
    }
  }

  /** Successive puts; the first failing put fails the whole run. */
  function PutAll<T>(d: BlockingDeque<T>, xs: seq<T>): (r: Result<BlockingDeque<T>>)
    decreases |xs|
  {
    if |xs| == 0 then Ok(d)
    else
      var d' :- PutAll(d, xs[..|xs| - 1]);
      DequePut(d', xs[|xs| - 1])
  }

  lemma {:induction false} PutAllCounter<T>(d: BlockingDeque<T>, xs: seq<T>)
    requires d.capacity >= 1
    ensures PutAll(d, xs).Ok?
    ensures PutAll(d, xs).value.counter == d.counter + |xs|
    ensures PutAll(d, xs).value.capacity == d.capacity
    ensures PutAll(d, xs).value.interrupted == d.interrupted
  {
    if |xs| > 0 {
      PutAllCounter(d, xs[..|xs| - 1]);
    }
  }

  // ---------------------------------------------------------------------
  // The consumer's scope around a taken entry

  /** How the handler run inside the scope ended. */
  datatype HandlerExit = Returned | RaisedException | RaisedBaseException

  /** `_managed_result` as written: the code after `yield` runs only when the
      body returns normally, because there is no try/finally around the
      yield. An exception leaves the entry in storage. */
  function ManagedExitAsWritten<T>(d: BlockingDeque<T>, key: nat, exit: HandlerExit): (r: BlockingDeque<T>)
    ensures exit.Returned? ==> key !in Keys(r.storage)
    ensures !exit.Returned? ==> r == d
  {
    if exit.Returned? then Release(d, key) else d
  }

  /** As written, a handler that raises makes the next get hand out the very
      same entry again: the failed item is retried. */
  lemma {:induction false} FailedEntryIsTakenAgain<T>(d: BlockingDeque<T>)
    requires !d.interrupted && |d.storage| > 0
    ensures var g := DequeGet(d);
            && g.Proceeds? && g.value.0.Value?
            && var e := g.value.0.value;
               var after := ManagedExitAsWritten(g.value.1, e.key, RaisedException);
               DequeGet(after) == Proceeds((Value(e), after))
  {
  }

  /** `_managed_result` with the cleanup run on every exit: the entry is
      released however the handler ends. */
  function ManagedExit<T>(d: BlockingDeque<T>, key: nat, exit: HandlerExit): (r: BlockingDeque<T>)
    ensures key !in Keys(r.storage)
    ensures forall i :: 0 <= i < |d.storage| && d.storage[i].key != key ==> d.storage[i] in r.storage
  {
    Release(d, key)
  }

  /** With the cleanup always run, the entry just handled is never handed
      out again, whatever the handler did. */
  lemma {:induction false} HandledEntryNotTakenAgain<T>(d: BlockingDeque<T>, exit: HandlerExit)
    requires !d.interrupted && |d.storage| > 0
    ensures var g := DequeGet(d);
            && g.Proceeds? && g.value.0.Value?
            && var e := g.value.0.value;
               var after := ManagedExit(g.value.1, e.key, exit);
               var next := DequeGet(after);
               next.Proceeds? && next.value.0.Value? ==> next.value.0.value.key != e.key
  {
    var e := d.storage[0];
    var after := ManagedExit(d, e.key, exit);
    if |after.storage| > 0 {
      assert after.storage[0].key in Keys(after.storage);
    }
  }
}
