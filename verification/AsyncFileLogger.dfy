/** The asynchronous logger (src/logging/AsyncFileLogger.cpp): a producer that logs records and then asks the
    worker to stop, and the worker that drains the ring, interleaved step by step. */
module AsyncLogger {
  import opened Words
  import opened Ring

  /** The worker's batch: at most this many records between two looks at the drop counter. */
  const BATCH := 1024

  datatype Worker =
    | TestStop
    | TestEmpty
    | Popping(processed: nat)
    | AwaitPop(processed: nat)
    | Exchange
    | FinalExchange
    | Exited

  /** `written` and `reports` are what the worker put into the file: records, and drop counts. */
  datatype Logger<T> = Logger(
    ring: State<T>, stop: bool, dropped: nat, worker: Worker,
    written: seq<T>, reports: seq<nat>, attempted: nat)

  datatype LogStep<T> = LogRecord(record: T) | ProducerMoves | RequestStop | WorkerMoves

  function Start<T>(storage: seq<T>): Logger<T> {
    Logger(Init(storage), false, 0, TestStop, [], [], 0)
  }

  predicate BetweenRecords<T>(p: Producer<T>) {
    p.PIdle? || p == PDone(true)
  }

  /** `enqueue_record`: push, and count the record as dropped if the push was refused. */
  function ProducerMove<T>(s: Logger<T>): Logger<T>
    requires 0 < |s.ring.storage| < TWO_64 && HasSingleBit(|s.ring.storage|)
  {
    if s.ring.producer == PDone(false) then
      s.(dropped := s.dropped + 1, ring := s.ring.(producer := PIdle))
    else
      s.(ring := Next(s.ring, ProducerStep))
  }

  function Report(reports: seq<nat>, dropped: nat): seq<nat> {
    if dropped != 0 then reports + [dropped] else reports
  }

  /** `run`. */
  function WorkerMove<T>(s: Logger<T>): Logger<T>
    requires 0 < |s.ring.storage| < TWO_64 && HasSingleBit(|s.ring.storage|)
  {
    match s.worker
    case TestStop =>
      if s.stop then s.(worker := TestEmpty, ring := Next(s.ring, StartEmpty)) else s.(worker := Popping(0))
    case TestEmpty =>
      if s.ring.consumer.EDone? then s.(worker := if s.ring.consumer.empty then FinalExchange else Popping(0))
      else s.(ring := Next(s.ring, ConsumerStep))
    case Popping(n) =>
      if n < BATCH then s.(worker := AwaitPop(n), ring := Next(s.ring, StartPop)) else s.(worker := Exchange)
    case AwaitPop(n) =>
      if s.ring.consumer.CPopped? then
        s.(worker := Popping(n + 1), written := s.written + [s.ring.consumer.value])
      else if s.ring.consumer.CFoundNone? then s.(worker := Exchange)
      else s.(ring := Next(s.ring, ConsumerStep))
    case Exchange => s.(worker := TestStop, reports := Report(s.reports, s.dropped), dropped := 0)
    case FinalExchange => s.(worker := Exited, reports := Report(s.reports, s.dropped), dropped := 0)
    case Exited => s
  }

  /** One step of one thread. The producer logs only before the stop request, which comes between records. */
  function LogNext<T>(s: Logger<T>, step: LogStep<T>): (s': Logger<T>)
    requires 0 < |s.ring.storage| < TWO_64 && HasSingleBit(|s.ring.storage|)
    ensures |s'.ring.storage| == |s.ring.storage|
  {
    match step
    case LogRecord(r) =>
      if !s.stop && BetweenRecords(s.ring.producer) then
        s.(ring := Next(s.ring, StartPush(r)), attempted := s.attempted + 1)
      else s
    case ProducerMoves => ProducerMove(s)
    case RequestStop => if BetweenRecords(s.ring.producer) then s.(stop := true) else s
    case WorkerMoves => WorkerMove(s)
  }

  function LogRun<T>(storage: seq<T>, steps: seq<LogStep<T>>): (s: Logger<T>)
    requires 0 < |storage| < TWO_64 && HasSingleBit(|storage|)
    ensures |s.ring.storage| == |storage|
  {
    if steps == [] then Start(storage)
    else LogNext(LogRun(storage, steps[..|steps| - 1]), steps[|steps| - 1])
  }

  function Sum(counts: seq<nat>): nat {
    if counts == [] then 0 else Sum(counts[..|counts| - 1]) + counts[|counts| - 1]
  }

  lemma ReportAdds(reports: seq<nat>, dropped: nat)
    ensures Sum(Report(reports, dropped)) == Sum(reports) + dropped
  {
    if dropped != 0 {
      assert (reports + [dropped])[..|reports|] == reports;
    }
  }

  // ---------------------------------------------------------------- the invariant

  predicate PushUnderWay<T>(p: Producer<T>) {
    !p.PIdle? && !p.PDone?
  }

  predicate PopUnderWay<T>(c: Consumer<T>) {
    c.CStarted? || c.CHasTail? || c.CHasHead? || c.CReading? || c.CRead? || c.CPopped? || c.CFoundNone?
  }

  ghost predicate WorkerOk<T>(s: Logger<T>) {
    var c := s.ring.consumer;
    match s.worker
    case TestEmpty =>
      && s.stop && (c.EStarted? || c.EHasTail? || c.EDone?)
      && (c.EDone? ==> (c.empty <==> |s.ring.pushed| == |s.ring.popped|))
    case AwaitPop(n) => PopUnderWay(c) && n < BATCH
    case Popping(n) => ConsumerFree(c) && n <= BATCH
    case FinalExchange => ConsumerFree(c) && s.stop && |s.ring.pushed| == |s.ring.popped|
    case Exited => ConsumerFree(c) && s.stop && |s.ring.pushed| == |s.ring.popped| && s.dropped == 0
    case _ => ConsumerFree(c)
  }

  ghost predicate LogInv<T>(s: Logger<T>) {
    && Inv(s.ring)
    && (s.stop ==> BetweenRecords(s.ring.producer))
    && s.ring.refused == s.dropped + Sum(s.reports) + (if s.ring.producer == PDone(false) then 1 else 0)
    && s.attempted == |s.ring.pushed| + s.ring.refused + (if PushUnderWay(s.ring.producer) then 1 else 0)
    && s.ring.popped == s.written + (if s.worker.AwaitPop? && s.ring.consumer.CPopped?
                                     then [s.ring.consumer.value] else [])
    && WorkerOk(s)
  }

  lemma ProducerMoveKeeps<T>(s: Logger<T>)
    requires LogInv(s)
    ensures LogInv(ProducerMove(s))
  {
    if s.ring.producer != PDone(false) {
      ProducerKeeps(s.ring);
    }
  }

  lemma TestKeeps<T>(s: Logger<T>)
    requires LogInv(s) && (s.worker.TestStop? || s.worker.TestEmpty?)
    ensures LogInv(WorkerMove(s))
  {
    if s.worker.TestStop? {
      NextKeeps(s.ring, StartEmpty);
    } else {
      ConsumerKeeps(s.ring);
      if s.ring.consumer.EHasTail? {
        EmptyIsExact(s.ring);
      }
    }
  }

  lemma PopBeginsKeeps<T>(s: Logger<T>)
    requires LogInv(s) && s.worker.Popping?
    ensures LogInv(WorkerMove(s))
  {
    NextKeeps(s.ring, StartPop);
  }

  lemma PopKeeps<T>(s: Logger<T>)
    requires LogInv(s) && s.worker.AwaitPop?
    ensures LogInv(WorkerMove(s))
  {
    ConsumerKeeps(s.ring);
  }

  lemma WorkerMoveKeeps<T>(s: Logger<T>)
    requires LogInv(s)
    ensures LogInv(WorkerMove(s))
  {
    match s.worker
    case TestStop | TestEmpty => TestKeeps(s);
    case Popping(_) => PopBeginsKeeps(s);
    case AwaitPop(_) => PopKeeps(s);
    case _ => ReportAdds(s.reports, s.dropped);
  }

  lemma LogNextKeeps<T>(s: Logger<T>, step: LogStep<T>)
    requires LogInv(s)
    ensures LogInv(LogNext(s, step))
  {
    match step
    case LogRecord(r) => NextKeeps(s.ring, StartPush(r));
    case ProducerMoves => ProducerMoveKeeps(s);
    case RequestStop =>
    case WorkerMoves => WorkerMoveKeeps(s);
  }

  lemma {:induction false} LogRunKeeps<T>(storage: seq<T>, steps: seq<LogStep<T>>)
    requires RingSize(|storage|)
    ensures LogInv(LogRun(storage, steps))
  {
    if steps != [] {
      LogRunKeeps(storage, steps[..|steps| - 1]);
      LogNextKeeps(LogRun(storage, steps[..|steps| - 1]), steps[|steps| - 1]);
    }
  }

  // ---------------------------------------------------------------- results

  /** MAIN RESULT. Under every interleaving: what is in the file is, in order, a prefix of what was accepted;
      and once the worker has exited, it is all of it, the reported drop counts add up to the refused
      records, and every attempt is accounted for. */
  lemma NothingIsLostSilently<T>(storage: seq<T>, steps: seq<LogStep<T>>)
    requires RingSize(|storage|)
    ensures var s := LogRun(storage, steps);
      && s.written <= s.ring.pushed
      && (s.worker.Exited? ==>
            && s.written == s.ring.pushed
            && Sum(s.reports) == s.ring.refused
            && |s.written| + Sum(s.reports) == s.attempted)
  {
    LogRunKeeps(storage, steps);
    var s := LogRun(storage, steps);
    assert s.written <= s.ring.popped;
  }

  /** How far the worker is from having written the first `target` accepted records, and from exiting if
      they are all and the stop was requested. */
  function Distance<T>(s: Logger<T>, target: nat): nat {
    var left := if |s.ring.popped| <= target then target - |s.ring.popped| else 0;
    var c := s.ring.consumer;
    40 * left + match s.worker
      case Popping(n) => if left > 0 && n < BATCH then 10 else 34
      case AwaitPop(_) =>
        if c.CPopped? then 38
        else if c.CFoundNone? then 29
        else if c.CHasHead? && (left == 0 || c.head == c.tail) then 31
        else if c.CHasHead? then 7
        else if c.CHasTail? then if left > 0 then 8 else 32
        else if c.CStarted? then if left > 0 then 9 else 33
        else if c.CReading? then 6
        else 5
      case Exchange => 25
      case TestStop => 20
      case TestEmpty => if c.EStarted? then 19 else if c.EHasTail? then 18 else 17
      case FinalExchange => 5
      case Exited => 0
  }

  lemma PopAdvances<T>(s: Logger<T>, target: nat)
    requires LogInv(s) && s.worker.AwaitPop? && target <= |s.ring.pushed|
    requires s.ring.consumer.CReading? || s.ring.consumer.CRead? ==> |s.ring.popped| < target
    ensures Distance(WorkerMove(s), target) < Distance(s, target)
  {
    if s.ring.consumer.CHasTail? && |s.ring.popped| < target {
      StoredIsSeen(s.ring);
    }
  }

  lemma LoopAdvances<T>(s: Logger<T>, target: nat)
    requires LogInv(s) && !s.worker.AwaitPop? && !s.worker.Exited?
    requires s.worker.TestEmpty? && s.ring.consumer.EDone? && !s.ring.consumer.empty ==> |s.ring.popped| < target
    requires s.worker.TestStop? && !s.stop ==> |s.ring.popped| < target
    ensures Distance(WorkerMove(s), target) < Distance(s, target)
  {
  }

  /** Every step of the worker brings it closer. */
  lemma WorkerAdvances<T>(s: Logger<T>, target: nat)
    requires LogInv(s) && !s.worker.Exited? && target <= |s.ring.pushed|
    requires |s.written| < target || (s.stop && target == |s.ring.pushed|)
    ensures LogInv(WorkerMove(s)) && WorkerMove(s).stop == s.stop
    ensures Distance(WorkerMove(s), target) < Distance(s, target)
  {
    WorkerMoveKeeps(s);
    if s.worker.AwaitPop? {
      PopAdvances(s, target);
    } else {
      LoopAdvances(s, target);
    }
  }

  function Continue<T>(s: Logger<T>, steps: seq<LogStep<T>>): (s': Logger<T>)
    requires 0 < |s.ring.storage| < TWO_64 && HasSingleBit(|s.ring.storage|)
    ensures |s'.ring.storage| == |s.ring.storage|
    decreases |steps|
  {
    if steps == [] then s else Continue(LogNext(s, steps[0]), steps[1..])
  }

  function WorkerMovesIn<T>(steps: seq<LogStep<T>>): nat {
    if steps == [] then 0 else (if steps[0].WorkerMoves? then 1 else 0) + WorkerMovesIn(steps[1..])
  }

  /** After the stop request only the worker moves, and not after it has exited. */
  lemma NobodyElseMoves<T>(s: Logger<T>, step: LogStep<T>)
    requires LogInv(s) && s.stop && (step.WorkerMoves? ==> s.worker.Exited?)
    ensures LogNext(s, step) == s
  {
  }

  lemma WorkerLeavesHistory<T>(s: Logger<T>)
    requires LogInv(s)
    ensures WorkerMove(s).ring.pushed == s.ring.pushed && WorkerMove(s).attempted == s.attempted
  {
  }

  /** MAIN RESULT. Once the stop was requested, every schedule that gives the worker `Distance` steps, with
      any number of attempts of the other thread between them, makes it drain the ring and exit. */
  lemma {:induction false} WorkerDrainsAndExits<T>(s: Logger<T>, steps: seq<LogStep<T>>)
    requires LogInv(s) && s.stop && WorkerMovesIn(steps) >= Distance(s, |s.ring.pushed|)
    ensures var s' := Continue(s, steps);
      && s'.worker.Exited?
      && s'.written == s.ring.pushed && s'.dropped == 0
      && |s'.written| + Sum(s'.reports) == s.attempted
    decreases |steps|
  {
    if steps == [] {
      assert s.worker.Exited?;
    } else if steps[0].WorkerMoves? && !s.worker.Exited? {
      WorkerAdvances(s, |s.ring.pushed|);
      WorkerLeavesHistory(s);
      WorkerDrainsAndExits(WorkerMove(s), steps[1..]);
    } else {
      NobodyElseMoves(s, steps[0]);
      WorkerDrainsAndExits(s, steps[1..]);
    }
  }

  // ---------------------------------------------------------------- the class

  /** The logger as an object: the threads' shared fields, the ring, and what is in the file. */
  class AsyncFileLogger<T> {
    const queue: SpscRing<T>
    var stop: bool
    var droppedRecords: nat
    var worker: Worker
    var written: seq<T>
    var reports: seq<nat>
    ghost var attempted: nat

    ghost function View(): Logger<T>
      reads this, queue, queue.storage
    {
      Logger(queue.View(), stop, droppedRecords, worker, written, reports, attempted)
    }

    constructor (queue: SpscRing<T>)
      requires RingSize(queue.storage.Length) && queue.View() == Init(queue.storage[..])
      ensures this.queue == queue && View() == Start(queue.storage[..]) && LogInv(View())
    {
      this.queue := queue;
      stop, droppedRecords, worker, written, reports, attempted := false, 0, TestStop, [], [], 0;
    }

    /** A call of `enqueue_record` begins. */
    method EnqueueRecord(record: T)
      requires LogInv(View()) && !stop && BetweenRecords(queue.producer)
      modifies this`attempted, queue`producer
      ensures View() == LogNext(old(View()), LogRecord(record)) && LogInv(View())
    {
      LogNextKeeps(View(), LogRecord(record));
      queue.BeginPush(record);
      attempted := attempted + 1;
    }

    method StepEnqueue()
      requires LogInv(View())
      modifies this`droppedRecords, queue`producer, queue`head, queue`pushed, queue`refused, queue.storage
      ensures View() == LogNext(old(View()), ProducerMoves) && LogInv(View())
    {
      LogNextKeeps(View(), ProducerMoves);
      if queue.producer.PDone? && !queue.producer.accepted {
        droppedRecords := droppedRecords + 1;
        queue.producer := PIdle;
      } else {
        queue.StepProducer();
      }
    }

    method Stop()
      requires LogInv(View()) && BetweenRecords(queue.producer)
      modifies this`stop
      ensures View() == LogNext(old(View()), RequestStop) && LogInv(View())
    {
      LogNextKeeps(View(), RequestStop);
      stop := true;
    }

    method ExchangeDropped()
      modifies this`droppedRecords, this`reports
      ensures droppedRecords == 0
      ensures reports == Report(old(reports), old(droppedRecords))
    {
      var dropped := droppedRecords;
      droppedRecords := 0;
      if dropped != 0 {
        reports := reports + [dropped];
      }
    }

    /** One step of the loop of `run`. */
    method StepWorker()
      requires LogInv(View())
      modifies this`droppedRecords, this`worker, this`written, this`reports
      modifies queue`consumer, queue`tail, queue`popped
      ensures View() == LogNext(old(View()), WorkerMoves) && LogInv(View())
    {
      LogNextKeeps(View(), WorkerMoves);
      match worker
      case TestStop =>
        if stop {
          queue.BeginEmpty();
          worker := TestEmpty;
        } else {
          worker := Popping(0);
        }
      case TestEmpty =>
        if queue.consumer.EDone? {
          worker := if queue.consumer.empty then FinalExchange else Popping(0);
        } else {
          queue.StepConsumer();
        }
      case Popping(n) =>
        if n < BATCH {
          queue.BeginPop();
          worker := AwaitPop(n);
        } else {
          worker := Exchange;
        }
      case AwaitPop(n) =>
        if queue.consumer.CPopped? {
          written := written + [queue.consumer.value];
          worker := Popping(n + 1);
        } else if queue.consumer.CFoundNone? {
          worker := Exchange;
        } else {
          queue.StepConsumer();
        }
      case Exchange =>
        ExchangeDropped();
        worker := TestStop;
      case FinalExchange =>
        ExchangeDropped();
        worker := Exited;
      case Exited =>
    }
  }
}
