/**
  The scenarios of the package's tests, stated over the model: the counter
  process `TestProcess.CountUp` as a step over its count, and the lists
  `[nil, CountUp, ..., CountUp]` the tests pass to Serial and Parallel.
 */
module FlowTest {
  import opened Flow

  /** The fixture's error text, and the text of Go's context.DeadlineExceeded. */
  const Overflow: string := "Overflow"
  const DeadlineExceeded: string := "context deadline exceeded"

  /** `TestProcess.CountUp`: counts up; the third call resets the count to -1 and fails. */
  function CountUp(count: int): (r: (int, Outcome<string>))
    ensures r.1.Ok? <==> count < 2
    ensures r.1.Ok? ==> r.0 == count + 1
    ensures r.1.Err? ==> r.0 == -1 && r.1.error == Overflow
  {
    if count + 1 > 2 then (-1, Err(Overflow)) else (count + 1, Ok)
  }

  /** A leading nil entry followed by two and by three CountUp entries. */
  const TwoCalls: Funcs<int, string> := [None, Some(CountUp), Some(CountUp)]
  const ThreeCalls: Funcs<int, string> := [None, Some(CountUp), Some(CountUp), Some(CountUp)]

  /** "All Funcs End Well": the nil entry is skipped, both calls run, count 2, nil. */
  lemma SerialAllFuncsEndWell()
    ensures RunSerial(TwoCalls, 0) == Run(2, Ok, [1, 2])
  {
    assert SerialFrom(TwoCalls, 3, 2) == Run(2, Ok, []);
    assert SerialFrom(TwoCalls, 2, 1) == Run(2, Ok, [2]);
    assert SerialFrom(TwoCalls, 1, 0) == Run(2, Ok, [1, 2]);
  }

  /** "A Func Issues Error": the third call reports "Overflow" and leaves count -1. */
  lemma SerialFuncIssuesError()
    ensures RunSerial(ThreeCalls, 0) == Run(-1, Err(Overflow), [1, 2, 3])
  {
    assert SerialFrom(ThreeCalls, 3, 2) == Run(-1, Err(Overflow), [3]);
    assert SerialFrom(ThreeCalls, 2, 1) == Run(-1, Err(Overflow), [2, 3]);
    assert SerialFrom(ThreeCalls, 1, 0) == Run(-1, Err(Overflow), [1, 2, 3]);
  }

  /** Parallel "All Funcs End Well" with concurrency level 3: count 2, nil. */
  lemma ParallelAllFuncsEndWell()
    ensures RunParallel(3, TwoCalls, 0, NotCancelled) == (2, Some(Ok))
  {
    SerialAllFuncsEndWell();
    ParallelAgreesWithSerial(3, TwoCalls, 0);
  }

  /** Parallel "A Func Issues Error" with concurrency level 3: count -1, "Overflow". */
  lemma ParallelFuncIssuesError()
    ensures RunParallel(3, ThreeCalls, 0, NotCancelled) == (-1, Some(Err(Overflow)))
  {
    SerialFuncIssuesError();
    ParallelAgreesWithSerial(3, ThreeCalls, 0);
    var q := ThreeCalls;
    assert Pool(q[4..], 2, -1) == Drain(-1, [], 0);
    assert Pool(q[3..], 3, 2) == Drain(-1, [Error(Overflow)], 1);
    assert Pool(q[2..], 3, 1) == Drain(-1, [Done, Error(Overflow)], 2);
    assert Pool(q[1..], 3, 0) == Drain(-1, [Done, Done, Error(Overflow)], 3);
  }

  /**
    "Call Ctx Done": the deadline passes while the calls are still running,
    so the cancellation arrives before the last of the three signals (one for
    the nil entry, one per call) and its error is returned.
   */
  lemma ParallelCallCtxDone(k: nat)
    requires k <= 2
    ensures RunParallel(3, TwoCalls, 0, CancelledAfter(k, DeadlineExceeded)).1 == Some(Err(DeadlineExceeded))
  {
    var d := Pool(TwoCalls, 3, 0);
    var a := Arrivals(d.signals, CancelledAfter(k, DeadlineExceeded));
    var k' := PoolAgainstSerial(TwoCalls, 0, 3, 0);
    assert TwoCalls[0..] == TwoCalls;
    SerialAllFuncsEndWell();
    AwaitDecided(|TwoCalls|, a, k);
  }

  /**
    "Create A New Flow" and "Set Concurrency Level": a new manager has the CPU
    count as its level, and setting the level to 2 makes it 2. The manager is
    then used: Serial as in "All Funcs End Well", and Parallel after the level
    is set to 0, which starts no worker and so waits for ever.
   */
  method ReconfigureThenRun(numCPU: int)
    returns (created: int, updated: int, count: int, err: Outcome<string>, waiting: Option<Outcome<string>>)
    ensures created == numCPU && updated == 2
    ensures count == 2 && err == Ok
    ensures waiting == None
  {
    var f := new Flow.New(numCPU);
    created := f.concurrencyLevel;
    f.SetConcurrencyLevel(2);
    updated := f.concurrencyLevel;

    var ran;
    count, err, ran := f.Serial(TwoCalls, 0);
    SerialAllFuncsEndWell();

    f.SetConcurrencyLevel(0);
    var after;
    after, waiting := f.Parallel(TwoCalls, 0, NotCancelled);
    ParallelStarves(0, TwoCalls, 0, NotCancelled);
  }
}
