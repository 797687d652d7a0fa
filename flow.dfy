/**
  A model of the job manager of package `flow`: a `Flow` object that holds a
  concurrency level, the `Serial` combinator, and a sequential abstraction of
  the `Parallel` combinator (its dispatch queue, its worker loop and its
  coordinator loop).

  A `Func` of the package is modelled as a `Step`: a total function from the
  caller's state to the new state and an `Outcome` (Go's nil or non-nil
  error). A nil entry of a `[]Func` is `None`.
 */
module Flow {

  datatype Option<+T> = None | Some(value: T)

  /** The `error` a Func returns: nil (`Ok`) or a non-nil value passed on verbatim. */
  datatype Outcome<+E> = Ok | Err(error: E)

  /** One invocation of a Func on the caller's state. */
  type Step<!S, E> = S -> (S, Outcome<E>)

  /** A list of optional Funcs, as passed to `Serial(fs...)` and `Parallel(fs...)`. */
  type Funcs<!S, E> = seq<Option<Step<S, E>>>

  // ---------------------------------------------------------------------------
  // Entries that are present, and the reference semantics they give
  // ---------------------------------------------------------------------------

  /** The indices k >= i of the non-nil entries of fs, in ascending order. */
  function Present<S, E>(fs: Funcs<S, E>, i: nat): seq<nat>
    requires i <= |fs|
    decreases |fs| - i
  {
    if i == |fs| then []
    else (if fs[i].Some? then [i] else []) + Present(fs, i + 1)
  }

  /** The non-nil entries of fs, in order. */
  function Steps<S, E>(fs: Funcs<S, E>): seq<Step<S, E>>
  {
    if fs == [] then []
    else (if fs[0].Some? then [fs[0].value] else []) + Steps(fs[1..])
  }

  /** The state after running every step in order, whatever each returns. */
  function Compose<S, E>(st: seq<Step<S, E>>, s: S): S
  {
    if st == [] then s else Compose(st[1..], st[0](s).0)
  }

  /** What step k returns when it runs on the state its predecessors left. */
  function OutcomeAt<S, E>(st: seq<Step<S, E>>, k: nat, s: S): Outcome<E>
    requires k < |st|
  {
    if k == 0 then st[0](s).1 else OutcomeAt(st[1..], k - 1, st[0](s).0)
  }

  lemma {:induction false} PresentMembers<S, E>(fs: Funcs<S, E>, i: nat, k: nat)
    requires i <= |fs|
    ensures k in Present(fs, i) <==> i <= k < |fs| && fs[k].Some?
    decreases |fs| - i
  {
    if i < |fs| {
      PresentMembers(fs, i + 1, k);
    }
  }

  lemma {:induction false} PresentIncreasing<S, E>(fs: Funcs<S, E>, i: nat)
    requires i <= |fs|
    ensures forall a :: 0 <= a < |Present(fs, i)| ==> i <= Present(fs, i)[a]
    ensures forall a, b :: 0 <= a < b < |Present(fs, i)| ==> Present(fs, i)[a] < Present(fs, i)[b]
    decreases |fs| - i
  {
    if i < |fs| {
      PresentIncreasing(fs, i + 1);
      var p := Present(fs, i + 1);
      if fs[i].Some? {
        assert Present(fs, i) == [i] + p;
      } else {
        assert Present(fs, i) == p;
      }
    }
  }

  lemma {:induction false} PresentCountsSteps<S, E>(fs: Funcs<S, E>, i: nat)
    requires i <= |fs|
    ensures |Present(fs, i)| == |Steps(fs[i..])|
    decreases |fs| - i
  {
    if i < |fs| {
      assert fs[i..][1..] == fs[i + 1..];
      PresentCountsSteps(fs, i + 1);
    }
  }

  lemma {:induction false} StepsAppend<S, E>(a: Funcs<S, E>, b: Funcs<S, E>)
    ensures Steps(a + b) == Steps(a) + Steps(b)
  {
    if a != [] {
      assert (a + b)[0] == a[0] && (a + b)[1..] == a[1..] + b;
      StepsAppend(a[1..], b);
    } else {
      assert a + b == b;
    }
  }

  // ---------------------------------------------------------------------------
  // Serial
  // ---------------------------------------------------------------------------

  /**
    What invoking `Serial(fs...)` does: the final state, the returned error and
    the indices of the entries that were invoked, in invocation order.
   */
  datatype Run<S, E> = Run(state: S, result: Outcome<E>, ran: seq<nat>)

  /** Serial over the entries fs[i..]. */
  function SerialFrom<S, E>(fs: Funcs<S, E>, i: nat, s: S): (r: Run<S, E>)
    requires i <= |fs|
    ensures r.ran <= Present(fs, i)
    ensures r.result.Ok? ==> r.ran == Present(fs, i)
    ensures r.result.Err? ==> r.ran != []
    decreases |fs| - i
  {
    if i == |fs| then Run(s, Ok, [])
    else match fs[i]
      case None => SerialFrom(fs, i + 1, s)
      case Some(f) =>
        var (s', o) := f(s);
        if o.Err? then Run(s', o, [i])
        else
          var r := SerialFrom(fs, i + 1, s');
          Run(r.state, r.result, [i] + r.ran)
  }

  /** A run that follows the invocations `ran` already made. */
  function Then<S, E>(ran: seq<nat>, r: Run<S, E>): Run<S, E>
  {
    Run(r.state, r.result, ran + r.ran)
  }

  lemma ThenThen<S, E>(a: seq<nat>, b: seq<nat>, r: Run<S, E>)
    ensures Then(a, Then(b, r)) == Then(a + b, r)
  {
    assert a + (b + r.ran) == (a + b) + r.ran;
  }

  /**
    What invoking `Serial(fs...)` does: the invoked entries are the first few
    non-nil ones, all of them on success, and at least one on an error.
   */
  function RunSerial<S, E>(fs: Funcs<S, E>, s: S): (r: Run<S, E>)
    ensures r.ran <= Present(fs, 0)
    ensures r.result.Ok? ==> r.ran == Present(fs, 0)
    ensures r.result.Err? ==> r.ran != []
  {
    SerialFrom(fs, 0, s)
  }

  lemma SerialEmpty<S, E>(s: S)
    ensures RunSerial<S, E>([], s) == Run(s, Ok, [])
  {
  }

  /**
    Only non-nil entries are invoked, each at most once and in list order; on
    success every non-nil entry has been invoked; on an error the invoked
    entries are the first few non-nil ones and none after the failing one.
   */
  lemma SerialRanEntries<S, E>(fs: Funcs<S, E>, s: S)
    ensures var r := RunSerial(fs, s);
      && (forall k :: k in r.ran ==> k < |fs| && fs[k].Some?)
      && (forall a, b :: 0 <= a < b < |r.ran| ==> r.ran[a] < r.ran[b])
      && r.ran == Present(fs, 0)[..|r.ran|]
      && (r.result.Ok? ==> forall k :: 0 <= k < |fs| && fs[k].Some? ==> k in r.ran)
  {
    var r := RunSerial(fs, s);
    PresentIncreasing(fs, 0);
    forall x | 0 <= x < |r.ran| ensures r.ran[x] in Present(fs, 0) {
      assert r.ran[x] == Present(fs, 0)[x];
    }
    forall k: nat ensures k in Present(fs, 0) <==> k < |fs| && fs[k].Some? {
      PresentMembers(fs, 0, k);
    }
  }

  /**
    Serial against the reference semantics: `Compose` runs every non-nil
    entry ignoring errors. Serial has invoked m of them; all but the last
    succeeded, the state is what the first m leave, and the result is Ok
    exactly when all of them succeed, else the error of the m-th, verbatim.
   */
  lemma SerialAgainstCompose<S, E>(fs: Funcs<S, E>, s: S)
    ensures var r := RunSerial(fs, s); var st := Steps(fs); var m := |r.ran|;
      && m <= |st|
      && r.state == Compose(st[..m], s)
      && (forall j :: 0 <= j < m - 1 ==> OutcomeAt(st, j, s).Ok?)
      && (r.result.Ok? <==> forall j :: 0 <= j < |st| ==> OutcomeAt(st, j, s).Ok?)
      && (r.result.Ok? ==> m == |st|)
      && (r.result.Err? ==> 0 < m && OutcomeAt(st, m - 1, s) == r.result)
  {
    assert fs[0..] == fs;
    SerialFromAgainstCompose(fs, 0, s);
  }

  /** Running [f] + tail is running f and then tail on the state f leaves. */
  lemma OutcomeAtCons<S, E>(f: Step<S, E>, tail: seq<Step<S, E>>, m: nat, s: S)
    requires m <= |tail|
    ensures Compose(([f] + tail)[..m + 1], s) == Compose(tail[..m], f(s).0)
    ensures forall j :: 0 <= j < |tail| ==> OutcomeAt([f] + tail, j + 1, s) == OutcomeAt(tail, j, f(s).0)
  {
    var st := [f] + tail;
    assert st[..m + 1][0] == f && st[..m + 1][1..] == tail[..m];
    assert st[1..] == tail;
  }

  lemma {:induction false} SerialFromAgainstCompose<S, E>(fs: Funcs<S, E>, i: nat, s: S)
    requires i <= |fs|
    ensures var r := SerialFrom(fs, i, s); var st := Steps(fs[i..]); var m := |r.ran|;
      && m <= |st|
      && r.state == Compose(st[..m], s)
      && (forall j :: 0 <= j < m - 1 ==> OutcomeAt(st, j, s).Ok?)
      && (0 < m ==> OutcomeAt(st, m - 1, s) == r.result)
      && (r.result.Ok? ==> m == |st|)
    decreases |fs| - i
  {
    PresentCountsSteps(fs, i);
    if i < |fs| {
      assert fs[i..][1..] == fs[i + 1..];
      var st := Steps(fs[i..]);
      var tail := Steps(fs[i + 1..]);
      match fs[i]
      case None =>
        assert st == tail;
        SerialFromAgainstCompose(fs, i + 1, s);
      case Some(f) =>
        var (s', o) := f(s);
        assert st == [f] + tail;
        if o.Err? {
          assert SerialFrom(fs, i, s) == Run(s', o, [i]);
          OutcomeAtCons(f, tail, 0, s);
        } else {
          SerialFromAgainstCompose(fs, i + 1, s');
          var r' := SerialFrom(fs, i + 1, s');
          assert SerialFrom(fs, i, s) == Run(r'.state, r'.result, [i] + r'.ran);
          OutcomeAtCons(f, tail, |r'.ran|, s);
        }
    }
  }

  /** The state and result of Serial depend only on the non-nil entries, in order. */
  lemma SerialDependsOnlyOnSteps<S, E>(fs: Funcs<S, E>, gs: Funcs<S, E>, s: S)
    requires Steps(fs) == Steps(gs)
    ensures RunSerial(fs, s).state == RunSerial(gs, s).state
    ensures RunSerial(fs, s).result == RunSerial(gs, s).result
    ensures |RunSerial(fs, s).ran| == |RunSerial(gs, s).ran|
  {
    var st := Steps(fs);
    var r1, r2 := RunSerial(fs, s), RunSerial(gs, s);
    SerialAgainstCompose(fs, s);
    SerialAgainstCompose(gs, s);
    var m1, m2 := |r1.ran|, |r2.ran|;
    if r1.result.Err? && r2.result.Err? {
      if m1 < m2 {
        assert false;
      } else if m2 < m1 {
        assert false;
      }
    }
  }

  /** A nil entry is never invoked, and removing it changes neither the state nor the result. */
  lemma SerialSkipsNil<S, E>(fs: Funcs<S, E>, k: nat, s: S)
    requires k < |fs| && fs[k].None?
    ensures k !in RunSerial(fs, s).ran
    ensures RunSerial(fs[..k] + fs[k + 1..], s).state == RunSerial(fs, s).state
    ensures RunSerial(fs[..k] + fs[k + 1..], s).result == RunSerial(fs, s).result
  {
    SerialRanEntries(fs, s);
    assert fs == fs[..k] + ([fs[k]] + fs[k + 1..]);
    StepsAppend(fs[..k], [fs[k]] + fs[k + 1..]);
    StepsAppend([fs[k]], fs[k + 1..]);
    StepsAppend(fs[..k], fs[k + 1..]);
    assert Steps([fs[k]]) == [] by {
      assert [fs[k]][1..] == fs[k + 1..][..0];
    }
    SerialDependsOnlyOnSteps(fs[..k] + fs[k + 1..], fs, s);
  }

  // ---------------------------------------------------------------------------
  // Go's buffered channel, as far as Parallel's work queue uses it
  // ---------------------------------------------------------------------------

  /** What a receive on a channel yields. */
  datatype Recv<+T> = Received(value: T) | Drained | Blocked

  /**
    A buffered channel: `make(chan T, capacity)`. Sending on a full channel
    would block and sending on a closed one panics; the callers in this model
    never do either, which is what the preconditions of Send and Close state.
   */
  class Channel<T> {
    const capacity: nat
    var buffer: seq<T>
    var closed: bool

    ghost predicate Valid()
      reads this
    {
      |buffer| <= capacity
    }

    constructor (capacity: nat)
      ensures Valid() && this.capacity == capacity && buffer == [] && !closed
    {
      this.capacity := capacity;
      buffer := [];
      closed := false;
    }

    method Send(x: T)
      requires Valid() && !closed && |buffer| < capacity
      modifies this
      ensures Valid() && buffer == old(buffer) + [x] && !closed
    {
      buffer := buffer + [x];
    }

    method Close()
      requires !closed
      modifies this
      ensures closed && buffer == old(buffer)
    {
      closed := true;
    }

    /** A receive, as in `for x := range ch`: Drained once the channel is closed and empty. */
    method Receive() returns (r: Recv<T>)
      requires Valid()
      modifies this
      ensures Valid() && closed == old(closed)
      ensures old(buffer) != [] ==> r == Received(old(buffer)[0]) && buffer == old(buffer)[1..]
      ensures old(buffer) == [] ==> buffer == [] && r == (if closed then Drained else Blocked)
    {
      if buffer != [] {
        r := Received(buffer[0]);
        buffer := buffer[1..];
      } else if closed {
        r := Drained;
      } else {
        r := Blocked;
      }
    }
  }

  /**
    Parallel's dispatch: every entry is sent, in order, into a fresh channel
    of capacity |fs|, which is then closed. The preconditions of Send hold at
    every send, so the queue never overflows.
   */
  method Dispatch<T>(fs: seq<T>) returns (ch: Channel<T>)
    ensures fresh(ch) && ch.Valid() && ch.closed
    ensures ch.capacity == |fs| && ch.buffer == fs
  {
    ch := new Channel(|fs|);
    for i := 0 to |fs|
      invariant ch.Valid() && !ch.closed && ch.capacity == |fs|
      invariant ch.buffer == fs[..i]
    {
      ch.Send(fs[i]);
    }
    assert fs[..|fs|] == fs;
    ch.Close();
  }

  // ---------------------------------------------------------------------------
  // Parallel's workers
  // ---------------------------------------------------------------------------

  /** A signal the coordinator of Parallel can receive. */
  datatype Signal<+E> = Done | Error(error: E) | Cancelled(error: E)

  /** What one worker does with one entry it takes from the queue. */
  function Handle<S, E>(entry: Option<Step<S, E>>, s: S): (r: (S, Signal<E>))
    ensures entry.None? ==> r == (s, Done)
    ensures entry.Some? ==> r.0 == entry.value(s).0
    ensures entry.Some? ==> (r.1.Done? <==> entry.value(s).1.Ok?)
    ensures entry.Some? && entry.value(s).1.Err? ==> r.1 == Error(entry.value(s).1.error)
    ensures !r.1.Cancelled?
  {
    match entry
    case None => (s, Done)
    case Some(f) =>
      var (s', o) := f(s);
      (s', if o.Ok? then Done else Error(o.error))
  }

  function ErrorCount<E>(signals: seq<Signal<E>>): nat
  {
    if signals == [] then 0
    else (if signals[0].Error? then 1 else 0) + ErrorCount(signals[1..])
  }

  /** What a pool of workers did to the queue: final state, signals sent, entries taken. */
  datatype Drain<S, E> = Drain(state: S, signals: seq<Signal<E>>, taken: nat)

  /** A drain that follows `signals` already sent and `taken` entries already taken. */
  function After<S, E>(signals: seq<Signal<E>>, taken: nat, d: Drain<S, E>): Drain<S, E>
  {
    Drain(d.state, signals + d.signals, taken + d.taken)
  }

  lemma AfterAfter<S, E>(a: seq<Signal<E>>, m: nat, b: seq<Signal<E>>, n: nat, d: Drain<S, E>)
    ensures After(a, m, After(b, n, d)) == After(a + b, m + n, d)
  {
    assert a + (b + d.signals) == (a + b) + d.signals;
  }

  /**
    The queue drained by `live` workers that take its entries one at a time
    in queue order; a worker whose entry fails sends one Error and stops.
    With no worker left nothing more is taken.
   */
  function Pool<S, E>(queue: Funcs<S, E>, live: nat, s: S): (d: Drain<S, E>)
    ensures d.taken <= |queue| && |d.signals| == d.taken
    decreases |queue|
  {
    if live == 0 || queue == [] then Drain(s, [], 0)
    else
      var h := Handle(queue[0], s);
      After([h.1], 1, Pool(queue[1..], if h.1.Error? then live - 1 else live, h.0))
  }

  /**
    Workers send only Done and Error signals, at most one Error each, and
    take the whole queue unless every one of them has stopped on an error.
   */
  lemma {:induction false} PoolSignals<S, E>(queue: Funcs<S, E>, live: nat, s: S)
    ensures var d := Pool(queue, live, s);
      && (live == 0 ==> d == Drain(s, [], 0))
      && (forall j :: 0 <= j < |d.signals| ==> !d.signals[j].Cancelled?)
      && ErrorCount(d.signals) <= live
      && (ErrorCount(d.signals) < live ==> d.taken == |queue|)
    decreases |queue|
  {
    if live > 0 && queue != [] {
      var h := Handle(queue[0], s);
      var live' := if h.1.Error? then live - 1 else live;
      PoolSignals(queue[1..], live', h.0);
      var d' := Pool(queue[1..], live', h.0);
      var sg := [h.1] + d'.signals;
      assert sg[0] == h.1 && sg[1..] == d'.signals;
    }
  }

  /** Taking the next entry of the queue: one more signal, and the rest of the queue for the rest. */
  lemma PoolTakeOne<S, E>(q: Funcs<S, E>, taken: nat, live: nat, state: S)
    requires taken < |q| && live >= 1
    ensures var h := Handle(q[taken], state);
      Pool(q[taken..], live, state) ==
        After([h.1], 1, Pool(q[taken + 1..], if h.1.Error? then live - 1 else live, h.0))
  {
    assert q[taken..][0] == q[taken] && q[taken..][1..] == q[taken + 1..];
  }

  /** `live` workers drain the queue as the first one does and then the other live - 1. */
  lemma {:induction false} PoolSplit<S, E>(queue: Funcs<S, E>, live: nat, s: S)
    requires live >= 1
    ensures var first := Pool(queue, 1, s);
      Pool(queue, live, s) == After(first.signals, first.taken, Pool(queue[first.taken..], live - 1, first.state))
  {
    if queue != [] {
      var h := Handle(queue[0], s);
      if !h.1.Error? {
        PoolSplit(queue[1..], live, h.0);
        var first' := Pool(queue[1..], 1, h.0);
        var rest := Pool(queue[1..][first'.taken..], live - 1, first'.state);
        assert queue[1 + first'.taken..] == queue[1..][first'.taken..];
        AfterAfter([h.1], 1, first'.signals, first'.taken, rest);
      }
    }
  }

  /**
    One worker goroutine: `for _f := range funcCh`, skipping a nil entry with
    a done signal, sending an error signal and returning on the first failure.
   */
  method Worker<S, E>(ch: Channel<Option<Step<S, E>>>, s: S) returns (state: S, signals: seq<Signal<E>>)
    requires ch.Valid() && ch.closed
    modifies ch
    ensures ch.Valid() && ch.closed
    ensures var d := Pool(old(ch.buffer), 1, s);
      state == d.state && signals == d.signals && ch.buffer == old(ch.buffer)[d.taken..]
  {
    ghost var q := ch.buffer;
    assert q[0..] == q;
    state, signals := s, [];
    while true
      invariant ch.Valid() && ch.closed
      invariant |signals| <= |q| && ch.buffer == q[|signals|..]
      invariant Pool(q, 1, s) == After(signals, |signals|, Pool(q[|signals|..], 1, state))
      decreases |ch.buffer|
    {
      var m := ch.Receive();
      if !m.Received? {
        assert signals + [] == signals;
        return;
      }
      ghost var h := Handle(m.value, state);
      PoolTakeOne(q, |signals|, 1, state);
      AfterAfter(signals, |signals|, [h.1], 1, Pool(q[|signals| + 1..], if h.1.Error? then 0 else 1, h.0));
      match m.value
      case None =>
        signals := signals + [Done];
      case Some(f) =>
        var (s', o) := f(state);
        state := s';
        if o.Err? {
          signals := signals + [Error(o.error)];
          assert signals + [] == signals;
          return;
        }
        signals := signals + [Done];
    }
  }

  /** One more worker of `left` drains the rest of the queue as its first worker. */
  lemma PoolResume<S, E>(q: Funcs<S, E>, workers: nat, s: S, signals: seq<Signal<E>>, taken: nat, left: nat, state: S)
    requires 1 <= left && taken <= |q|
    requires Pool(q, workers, s) == After(signals, taken, Pool(q[taken..], left, state))
    ensures var first := Pool(q[taken..], 1, state);
      && taken + first.taken <= |q|
      && Pool(q, workers, s) == After(signals + first.signals, taken + first.taken,
                                      Pool(q[taken + first.taken..], left - 1, first.state))
  {
    var first := Pool(q[taken..], 1, state);
    PoolSplit(q[taken..], left, state);
    assert q[taken..][first.taken..] == q[taken + first.taken..];
    AfterAfter(signals, taken, first.signals, first.taken, Pool(q[taken + first.taken..], left - 1, first.state));
  }

  /**
    The `for i := 0; i < concurrencyLevel; i++` loop that starts the workers,
    run with one worker after another; no worker exists when level <= 0.
   */
  method RunPool<S, E>(ch: Channel<Option<Step<S, E>>>, level: int, s: S) returns (state: S, signals: seq<Signal<E>>)
    requires ch.Valid() && ch.closed
    modifies ch
    ensures var d := Pool(old(ch.buffer), if level > 0 then level else 0, s);
      state == d.state && signals == d.signals
    ensures ch.Valid() && ch.closed
    ensures ch.buffer == old(ch.buffer)[Pool(old(ch.buffer), if level > 0 then level else 0, s).taken..]
  {
    ghost var q := ch.buffer;
    var workers: nat := if level > 0 then level else 0;
    state, signals := s, [];
    ghost var taken: nat := 0;
    assert q[0..] == q;
    var i: nat := 0;
    while i < level
      invariant i <= workers && ch.Valid() && ch.closed
      invariant taken <= |q| && ch.buffer == q[taken..]
      invariant Pool(q, workers, s) == After(signals, taken, Pool(q[taken..], workers - i, state))
    {
      PoolResume(q, workers, s, signals, taken, workers - i, state);
      ghost var first := Pool(q[taken..], 1, state);
      var st, sg := Worker(ch, state);
      taken := taken + first.taken;
      state, signals := st, signals + sg;
      i := i + 1;
    }
    assert signals + [] == signals;
  }

  // ---------------------------------------------------------------------------
  // Parallel's coordinator
  // ---------------------------------------------------------------------------

  /**
    The coordinator loop over the signals in their arrival order: Some(Ok)
    after n Done signals, Some(Err(e)) on the first Error(e) or Cancelled(e),
    and None when the arrivals end first (the wait goes on).
   */
  function Await<E>(n: nat, arrivals: seq<Signal<E>>): (r: Option<Outcome<E>>)
    ensures r == Some(Ok) ==> n <= |arrivals| && forall j :: 0 <= j < n ==> arrivals[j].Done?
    ensures r == None ==> |arrivals| < n && forall j :: 0 <= j < |arrivals| ==> arrivals[j].Done?
    ensures r.Some? && r.value.Err? ==>
      exists j :: 0 <= j < n && j < |arrivals| && !arrivals[j].Done? && arrivals[j].error == r.value.error
  {
    if n == 0 then Some(Ok)
    else if arrivals == [] then None
    else match arrivals[0]
      case Done => Await(n - 1, arrivals[1..])
      case Error(e) => Some(Err(e))
      case Cancelled(e) => Some(Err(e))
  }

  /**
    If the first k arrivals are Done and the next (if any) is not, the wait
    ends with nil when n <= k, goes on when the arrivals ran out, and
    otherwise returns the payload of arrival k unchanged.
   */
  lemma {:induction false} AwaitDecided<E>(n: nat, arrivals: seq<Signal<E>>, k: nat)
    requires k <= |arrivals|
    requires forall j :: 0 <= j < k ==> arrivals[j].Done?
    requires k < |arrivals| ==> !arrivals[k].Done?
    ensures Await(n, arrivals) ==
      if n <= k then Some(Ok)
      else if k == |arrivals| then None
      else Some(Err(arrivals[k].error))
  {
    if n > 0 && arrivals != [] && k > 0 {
      AwaitDecided(n - 1, arrivals[1..], k - 1);
    }
  }

  /** The wait returns nil exactly when its first n arrivals are all Done. */
  lemma {:induction false} AwaitOkIff<E>(n: nat, arrivals: seq<Signal<E>>)
    ensures Await(n, arrivals) == Some(Ok) <==> n <= |arrivals| && forall j :: 0 <= j < n ==> arrivals[j].Done?
  {
    if n > 0 && arrivals != [] && arrivals[0].Done? {
      AwaitOkIff(n - 1, arrivals[1..]);
    }
  }

  /** `for i := 0; i < len(fs); i++ { select { ... } }` over the given arrival order. */
  method Coordinate<E>(n: nat, arrivals: seq<Signal<E>>) returns (r: Option<Outcome<E>>)
    ensures r == Await(n, arrivals)
  {
    var pending := arrivals;
    var i := 0;
    while i < n
      invariant i <= n
      invariant Await(n - i, pending) == Await(n, arrivals)
      decreases n - i
    {
      if pending == [] {
        return None;
      }
      match pending[0] {
        case Done =>
        case Error(e) => return Some(Err(e));
        case Cancelled(e) => return Some(Err(e));
      }
      pending := pending[1..];
      i := i + 1;
    }
    r := Some(Ok);
  }

  // ---------------------------------------------------------------------------
  // Parallel
  // ---------------------------------------------------------------------------

  /**
    The outer context: never cancelled, or cancelled (with error err) once
    `count` worker signals have arrived. Which of a worker's error and a
    cancellation the coordinator sees first is this choice.
   */
  datatype Cancellation<+E> = NotCancelled | CancelledAfter(count: nat, err: E)

  /** The worker signals with the cancellation, if any, put at its arrival position. */
  function Arrivals<E>(signals: seq<Signal<E>>, cancel: Cancellation<E>): (a: seq<Signal<E>>)
    ensures cancel.NotCancelled? ==> a == signals
    ensures cancel.CancelledAfter? ==>
      var p := if cancel.count < |signals| then cancel.count else |signals|;
      |a| == |signals| + 1 && a[p] == Cancelled(cancel.err) && a[..p] + a[p + 1..] == signals
  {
    match cancel
    case NotCancelled => signals
    case CancelledAfter(count, err) =>
      var p := if count < |signals| then count else |signals|;
      var a := signals[..p] + [Cancelled(err)] + signals[p..];
      assert a[..p] == signals[..p] && a[p + 1..] == signals[p..];
      a
  }

  /**
    What invoking `Parallel(fs...)` with the given concurrency level does:
    the state once the workers are through, and the coordinator's result
    (None: it is still waiting).
   */
  function RunParallel<S, E>(level: int, fs: Funcs<S, E>, s: S, cancel: Cancellation<E>): (r: (S, Option<Outcome<E>>))
    ensures level <= 0 ==> r.0 == s
    ensures r.1 == Some(Ok) ==> cancel.NotCancelled? || |fs| <= cancel.count
    ensures cancel.NotCancelled? && r.1.Some? && r.1.value.Err? ==>
      Error(r.1.value.error) in Pool(fs, if level > 0 then level else 0, s).signals
  {
    var d := Pool(fs, if level > 0 then level else 0, s);
    PoolSignals(fs, if level > 0 then level else 0, s);
    AwaitErrorSent(|fs|, d.signals);
    (d.state, Await(|fs|, Arrivals(d.signals, cancel)))
  }

  /** The error a wait over worker signals alone ends with is one a worker sent. */
  lemma AwaitErrorSent<E>(n: nat, signals: seq<Signal<E>>)
    requires forall j :: 0 <= j < |signals| ==> !signals[j].Cancelled?
    ensures var r := Await(n, signals); r.Some? && r.value.Err? ==> Error(r.value.error) in signals
  {
    var r := Await(n, signals);
    if r.Some? && r.value.Err? {
      var j :| 0 <= j < n && j < |signals| && !signals[j].Done? && signals[j].error == r.value.error;
      assert signals[j] == Error(r.value.error);
    }
  }

  /** With no entries Parallel returns nil at once and nothing is invoked, cancelled or not. */
  lemma ParallelEmpty<S, E>(level: int, s: S, cancel: Cancellation<E>)
    ensures RunParallel<S, E>(level, [], s, cancel) == (s, Some(Ok))
  {
  }

  /**
    With concurrency level 0 or below no worker exists: nothing is invoked,
    the wait never ends by itself, and only a cancellation ends it.
   */
  lemma ParallelStarves<S, E>(level: int, fs: Funcs<S, E>, s: S, cancel: Cancellation<E>)
    requires level <= 0 && fs != []
    ensures RunParallel(level, fs, s, cancel).0 == s
    ensures cancel.NotCancelled? ==> RunParallel(level, fs, s, cancel).1 == None
    ensures cancel.CancelledAfter? ==> RunParallel(level, fs, s, cancel).1 == Some(Err(cancel.err))
  {
    var d := Pool(fs, 0, s);
    AwaitDecided(|fs|, Arrivals(d.signals, cancel), 0);
  }

  /**
    With at least one worker, the model's pool drains fs[i..] as Serial runs
    it, up to Serial's stop. This is a fact about the model's one schedule, in
    which workers take entries strictly in queue order and one after another.
   */
  lemma {:induction false} PoolAgainstSerial<S, E>(fs: Funcs<S, E>, i: nat, live: nat, s: S) returns (k: nat)
    requires i <= |fs| && live >= 1
    ensures var r := SerialFrom(fs, i, s); var d := Pool(fs[i..], live, s);
      && k <= |d.signals|
      && (forall j :: 0 <= j < k ==> d.signals[j].Done?)
      && (r.result.Ok? ==> k == |d.signals| == |fs| - i && d.state == r.state)
      && (r.result.Err? ==> k < |d.signals| && d.signals[k] == Error(r.result.error))
      && (live == 1 ==> d.state == r.state)
    decreases |fs| - i
  {
    if i == |fs| {
      k := 0;
    } else {
      var h := Handle(fs[i], s);
      PoolTakeOne(fs, i, live, s);
      if h.1.Error? {
        var (s', o) := fs[i].value(s);
        assert SerialFrom(fs, i, s) == Run(s', o, [i]);
        k := 0;
      } else {
        var k' := PoolAgainstSerial(fs, i + 1, live, h.0);
        k := k' + 1;
        var r' := SerialFrom(fs, i + 1, h.0);
        var d' := Pool(fs[i + 1..], live, h.0);
        assert Pool(fs[i..], live, s) == Drain(d'.state, [Done] + d'.signals, d'.taken + 1);
        if fs[i].Some? {
          assert SerialFrom(fs, i, s) == Run(r'.state, r'.result, [i] + r'.ran);
        } else {
          assert SerialFrom(fs, i, s) == r';
        }
      }
    }
  }

  /**
    Never cancelled and with at least one worker, the model's Parallel returns
    what Serial returns; when that is nil the final state is Serial's too, and
    with a single worker Parallel is Serial exactly. With two or more workers
    this holds for the model's schedule only: there the first failing entry in
    list order is always the error returned.
   */
  lemma ParallelAgreesWithSerial<S, E>(level: int, fs: Funcs<S, E>, s: S)
    requires level >= 1
    ensures RunParallel(level, fs, s, NotCancelled).1 == Some(RunSerial(fs, s).result)
    ensures RunSerial(fs, s).result.Ok? ==> RunParallel(level, fs, s, NotCancelled).0 == RunSerial(fs, s).state
    ensures level == 1 ==> RunParallel(level, fs, s, NotCancelled).0 == RunSerial(fs, s).state
  {
    assert fs[0..] == fs;
    var k := PoolAgainstSerial(fs, 0, level, s);
    var d := Pool(fs, level, s);
    AwaitDecided(|fs|, d.signals, k);
  }

  /** No signal counts as an error exactly when none of them is an Error. */
  lemma {:induction false} ErrorCountZero<E>(signals: seq<Signal<E>>)
    ensures ErrorCount(signals) == 0 <==> forall j :: 0 <= j < |signals| ==> !signals[j].Error?
  {
    if signals != [] {
      ErrorCountZero(signals[1..]);
      assert forall j :: 1 <= j < |signals| ==> signals[j] == signals[1..][j - 1];
    }
  }

  /**
    Never cancelled and with at least one worker, Parallel returns nil exactly
    when no worker sends an error. This does not depend on which failing
    entry a worker reaches first.
   */
  lemma ParallelOkIffNoError<S, E>(level: int, fs: Funcs<S, E>, s: S)
    requires level >= 1
    ensures RunParallel(level, fs, s, NotCancelled).1 == Some(Ok) <==>
      forall j :: 0 <= j < |Pool(fs, level, s).signals| ==> !Pool(fs, level, s).signals[j].Error?
  {
    var d := Pool(fs, level, s);
    PoolSignals(fs, level, s);
    ErrorCountZero(d.signals);
    AwaitOkIff(|fs|, d.signals);
  }

  /** A cancellation that arrives before any worker signal ends a non-empty Parallel with its error. */
  lemma ParallelCancelledFirst<S, E>(level: int, fs: Funcs<S, E>, s: S, err: E)
    requires fs != []
    ensures RunParallel(level, fs, s, CancelledAfter(0, err)).1 == Some(Err(err))
  {
    var d := Pool(fs, if level > 0 then level else 0, s);
    AwaitDecided(|fs|, Arrivals(d.signals, CancelledAfter(0, err)), 0);
  }

  // ---------------------------------------------------------------------------
  // The Flow object
  // ---------------------------------------------------------------------------

  /** The job manager; its one field is read each time Parallel runs. */
  class Flow {
    var concurrencyLevel: int

    /** `New()`, with the host's CPU count passed in. */
    constructor New(numCPU: int)
      ensures concurrencyLevel == numCPU
    {
      concurrencyLevel := numCPU;
    }

    /** Sets the level to l, without validation. */
    method SetConcurrencyLevel(l: int)
      modifies this
      ensures concurrencyLevel == l
    {
      concurrencyLevel := l;
    }

    /** Invokes `Serial(fs...)` on state s: returns the new state, the error and the invoked indices. */
    method Serial<S, E>(fs: Funcs<S, E>, s: S) returns (state: S, result: Outcome<E>, ran: seq<nat>)
      ensures Run(state, result, ran) == RunSerial(fs, s)
    {
      state, ran := s, [];
      var i := 0;
      while i < |fs|
        invariant i <= |fs|
        invariant RunSerial(fs, s) == Then(ran, SerialFrom(fs, i, state))
      {
        if fs[i].Some? {
          ghost var before := state;
          var (s', o) := fs[i].value(state);
          state := s';
          if o.Err? {
            assert SerialFrom(fs, i, before) == Run(state, o, [i]);
            return state, o, ran + [i];
          }
          ThenThen(ran, [i], SerialFrom(fs, i + 1, state));
          ran := ran + [i];
        }
        i := i + 1;
      }
      assert ran + [] == ran;
      result := Ok;
    }

    /**
      Invokes `Parallel(fs...)` on state s under the given cancellation:
      dispatch, the workers, then the coordinator over the arrivals.
     */
    method Parallel<S, E>(fs: Funcs<S, E>, s: S, cancel: Cancellation<E>) returns (state: S, result: Option<Outcome<E>>)
      ensures (state, result) == RunParallel(concurrencyLevel, fs, s, cancel)
    {
      var funcCh := Dispatch(fs);
      var signals;
      state, signals := RunPool(funcCh, concurrencyLevel, s);
      result := Coordinate(|fs|, Arrivals(signals, cancel));
    }
  }
}
