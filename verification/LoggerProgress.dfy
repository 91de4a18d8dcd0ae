/** What becomes of a record while the logger runs: with room in the ring it is accepted, and whatever is
    accepted is written after a stated number of steps of the worker. */
module LoggerProgress {
  import opened Words
  import opened Ring
  import opened AsyncLogger
  import RingProgress

  // ---------------------------------------------------------------- history only grows

  lemma HistoryGrows<T>(s: Logger<T>, step: LogStep<T>)
    requires LogInv(s)
    ensures s.ring.pushed <= LogNext(s, step).ring.pushed
    ensures s.written <= LogNext(s, step).written
  {
  }

  // ---------------------------------------------------------------- acceptance

  /** The producer logs nothing else. */
  ghost predicate NoOtherRecord<T>(steps: seq<LogStep<T>>) {
    forall i :: 0 <= i < |steps| ==> !steps[i].LogRecord?
  }

  function ProducerMovesIn<T>(steps: seq<LogStep<T>>): nat {
    if steps == [] then 0 else (if steps[0].ProducerMoves? then 1 else 0) + ProducerMovesIn(steps[1..])
  }

  lemma PushingGoesOn<T>(s: Logger<T>, step: LogStep<T>, pushed0: seq<T>, popped0: nat, record: T)
    requires LogInv(s) && !step.LogRecord? && RingProgress.Pushing(s.ring, pushed0, popped0, record)
    ensures RingProgress.Pushing(LogNext(s, step).ring, pushed0, popped0, record)
    ensures var left, left' := RingProgress.PushLeft(s.ring.producer), RingProgress.PushLeft(LogNext(s, step).ring.producer);
      left' == if step.ProducerMoves? && left > 0 then left - 1 else left
  {
    match step
    case ProducerMoves => RingProgress.PushingAdvances(s.ring, pushed0, popped0, record);
    case WorkerMoves =>
      RingProgress.PushingUndisturbed(s.ring, StartEmpty, pushed0, popped0, record);
      RingProgress.PushingUndisturbed(s.ring, StartPop, pushed0, popped0, record);
      RingProgress.PushingUndisturbed(s.ring, ConsumerStep, pushed0, popped0, record);
    case RequestStop =>
  }

  lemma {:induction false} PushingIsAccepted<T>(s: Logger<T>, steps: seq<LogStep<T>>, pushed0: seq<T>, popped0: nat,
                                                record: T)
    requires LogInv(s) && NoOtherRecord(steps) && RingProgress.Pushing(s.ring, pushed0, popped0, record)
    requires ProducerMovesIn(steps) >= RingProgress.PushLeft(s.ring.producer)
    ensures Continue(s, steps).ring.producer == PDone(true)
    ensures Continue(s, steps).ring.pushed == pushed0 + [record]
    decreases |steps|
  {
    if steps != [] {
      assert !steps[0].LogRecord?;
      LogNextKeeps(s, steps[0]);
      PushingGoesOn(s, steps[0], pushed0, popped0, record);
      PushingIsAccepted(LogNext(s, steps[0]), steps[1..], pushed0, popped0, record);
    }
  }

  /** MAIN RESULT. A record that is logged when the ring has room, before the stop, is accepted within five steps
      of its thread, whatever the worker does in between: none is dropped without need. */
  lemma RoomMeansAccepted<T>(storage: seq<T>, before: seq<LogStep<T>>, record: T, after: seq<LogStep<T>>)
    requires RingSize(|storage|) && NoOtherRecord(after) && ProducerMovesIn(after) >= 5
    requires var s := LogRun(storage, before);
      !s.stop && BetweenRecords(s.ring.producer) && |s.ring.pushed| < |s.ring.popped| + |storage|
    ensures var s, s' := LogRun(storage, before), Continue(LogRun(storage, before), [LogRecord(record)] + after);
      s'.ring.pushed == s.ring.pushed + [record]
  {
    var s := LogRun(storage, before);
    LogRunKeeps(storage, before);
    var begun := LogNext(s, LogRecord(record));
    LogNextKeeps(s, LogRecord(record));
    assert ([LogRecord(record)] + after)[1..] == after;
    PushingIsAccepted(begun, after, s.ring.pushed, |s.ring.popped|, record);
  }

  // ---------------------------------------------------------------- writing

  /** Only the worker's own steps change how far it is from a target. */
  lemma OthersKeepDistance<T>(s: Logger<T>, step: LogStep<T>, target: nat)
    requires LogInv(s) && !step.WorkerMoves?
    ensures Distance(LogNext(s, step), target) == Distance(s, target)
  {
  }

  lemma {:induction false} TargetIsWritten<T>(s: Logger<T>, steps: seq<LogStep<T>>, target: nat)
    requires LogInv(s) && target <= |s.ring.pushed| && WorkerMovesIn(steps) >= Distance(s, target)
    ensures |Continue(s, steps).written| >= target && LogInv(Continue(s, steps))
    ensures s.ring.pushed <= Continue(s, steps).ring.pushed
    decreases |steps|
  {
    if steps == [] {
      DistanceIsZero(s, target);
    } else {
      var next := LogNext(s, steps[0]);
      LogNextKeeps(s, steps[0]);
      HistoryGrows(s, steps[0]);
      if |s.written| >= target {
        WrittenStays(next, steps[1..], target);
      } else {
        if steps[0].WorkerMoves? {
          NotExitedBefore(s, target);
          WorkerAdvances(s, target);
        } else {
          OthersKeepDistance(s, steps[0], target);
        }
        TargetIsWritten(next, steps[1..], target);
      }
    }
  }

  lemma NotExitedBefore<T>(s: Logger<T>, target: nat)
    requires LogInv(s) && |s.written| < target <= |s.ring.pushed|
    ensures !s.worker.Exited?
  {
  }

  lemma DistanceIsZero<T>(s: Logger<T>, target: nat)
    requires LogInv(s) && target <= |s.ring.pushed| && Distance(s, target) == 0
    ensures |s.written| >= target
  {
  }

  lemma {:induction false} WrittenStays<T>(s: Logger<T>, steps: seq<LogStep<T>>, target: nat)
    requires LogInv(s) && |s.written| >= target
    ensures |Continue(s, steps).written| >= target && LogInv(Continue(s, steps))
    ensures s.ring.pushed <= Continue(s, steps).ring.pushed
    decreases |steps|
  {
    if steps != [] {
      LogNextKeeps(s, steps[0]);
      HistoryGrows(s, steps[0]);
      WrittenStays(LogNext(s, steps[0]), steps[1..], target);
    }
  }

  /** MAIN RESULT. Stopped or not, whatever was accepted is in the file, in order, once the worker has made
      40 steps for every slot of the ring and 40 more, whatever the other thread does in between. */
  lemma AcceptedIsWritten<T>(storage: seq<T>, before: seq<LogStep<T>>, after: seq<LogStep<T>>)
    requires RingSize(|storage|) && WorkerMovesIn(after) >= 40 * |storage| + 40
    ensures LogRun(storage, before).ring.pushed <= Continue(LogRun(storage, before), after).written
  {
    var s := LogRun(storage, before);
    LogRunKeeps(storage, before);
    TargetIsWritten(s, after, |s.ring.pushed|);
    var s' := Continue(s, after);
    assert s'.written <= s'.ring.popped <= s'.ring.pushed;
  }

  // ---------------------------------------------------------------- reporting

  /** How many steps of the worker it takes until it next looks at the drop counter, at most. */
  function UntilExchange<T>(s: Logger<T>): nat
    requires LogInv(s)
  {
    var c := s.ring.consumer;
    match s.worker
    case Exited => 0
    case FinalExchange => 1
    case Exchange => 1
    case Popping(n) => 7 * (BATCH - n) + 2
    case AwaitPop(n) =>
      7 * (BATCH - n - 1) + 2
      + (match c
         case CStarted => 6
         case CHasTail(_) => 5
         case CHasHead(_, _) => 4
         case CReading(_) => 3
         case CRead(_, _) => 2
         case _ => 1)
    case TestEmpty => 7 * BATCH + 3 + (if c.EStarted? then 2 else if c.EHasTail? then 1 else 0)
    case TestStop => 7 * BATCH + 6
  }

  lemma ExchangeNears<T>(s: Logger<T>)
    requires LogInv(s) && !s.worker.Exchange? && !s.worker.FinalExchange? && !s.worker.Exited?
    ensures LogInv(WorkerMove(s)) && UntilExchange(WorkerMove(s)) < UntilExchange(s)
    ensures WorkerMove(s).reports == s.reports && WorkerMove(s).dropped == s.dropped
  {
    WorkerMoveKeeps(s);
  }

  lemma OthersKeepReports<T>(s: Logger<T>, step: LogStep<T>)
    requires LogInv(s) && !step.WorkerMoves?
    ensures LogNext(s, step).reports == s.reports && LogNext(s, step).worker == s.worker
    ensures LogNext(s, step).dropped >= s.dropped
  {
  }

  lemma WorkerKeepsReports<T>(s: Logger<T>)
    requires LogInv(s)
    ensures Sum(WorkerMove(s).reports) >= Sum(s.reports)
  {
    if s.worker.Exchange? || s.worker.FinalExchange? {
      ReportAdds(s.reports, s.dropped);
    } else {
      assert WorkerMove(s).reports == s.reports;
    }
  }

  lemma {:induction false} ReportsStay<T>(s: Logger<T>, steps: seq<LogStep<T>>)
    requires LogInv(s)
    ensures LogInv(Continue(s, steps)) && Sum(Continue(s, steps).reports) >= Sum(s.reports)
    decreases |steps|
  {
    if steps != [] {
      LogNextKeeps(s, steps[0]);
      if steps[0].WorkerMoves? {
        WorkerKeepsReports(s);
      } else {
        OthersKeepReports(s, steps[0]);
      }
      ReportsStay(LogNext(s, steps[0]), steps[1..]);
    }
  }

  lemma OthersKeepTheWait<T>(s: Logger<T>, step: LogStep<T>)
    requires LogInv(s) && !step.WorkerMoves?
    ensures LogInv(LogNext(s, step)) && UntilExchange(LogNext(s, step)) == UntilExchange(s)
  {
    LogNextKeeps(s, step);
  }

  lemma {:induction false} CountIsReported<T>(s: Logger<T>, steps: seq<LogStep<T>>)
    requires LogInv(s) && WorkerMovesIn(steps) >= UntilExchange(s)
    ensures Sum(Continue(s, steps).reports) >= Sum(s.reports) + s.dropped
    decreases |steps|
  {
    if s.worker.Exited? || steps == [] {
      ReportsStay(s, steps);
    } else if !steps[0].WorkerMoves? {
      OthersKeepReports(s, steps[0]);
      OthersKeepTheWait(s, steps[0]);
      CountIsReported(LogNext(s, steps[0]), steps[1..]);
    } else if s.worker.Exchange? || s.worker.FinalExchange? {
      LogNextKeeps(s, steps[0]);
      ReportAdds(s.reports, s.dropped);
      ReportsStay(LogNext(s, steps[0]), steps[1..]);
    } else {
      ExchangeNears(s);
      CountIsReported(WorkerMove(s), steps[1..]);
    }
  }

  /** MAIN RESULT. Stopped or not, every drop that was counted is reported once the worker has made 7174 steps:
      seven for each record of a batch, and a few around it. */
  lemma DropsAreReported<T>(storage: seq<T>, before: seq<LogStep<T>>, after: seq<LogStep<T>>)
    requires RingSize(|storage|) && WorkerMovesIn(after) >= 7174
    ensures var s := LogRun(storage, before);
      Sum(Continue(s, after).reports) >= Sum(s.reports) + s.dropped
  {
    LogRunKeeps(storage, before);
    CountIsReported(LogRun(storage, before), after);
  }

  // ---------------------------------------------------------------- stopping

  lemma DistanceIsBounded<T>(s: Logger<T>)
    requires LogInv(s)
    ensures Distance(s, |s.ring.pushed|) <= 40 * |s.ring.storage| + 40
  {
  }

  /** MAIN RESULT. A stop that is requested between records, in any reachable state, makes the worker exit within
      40 steps for every slot of the ring and 40 more, with everything written and every drop reported. */
  lemma StopMeansExit<T>(storage: seq<T>, before: seq<LogStep<T>>, after: seq<LogStep<T>>)
    requires RingSize(|storage|) && BetweenRecords(LogRun(storage, before).ring.producer)
    requires WorkerMovesIn(after) >= 40 * |storage| + 40
    ensures var s, s' := LogRun(storage, before), Continue(LogRun(storage, before), [RequestStop] + after);
      && s'.worker.Exited?
      && s'.written == s.ring.pushed
      && |s'.written| + Sum(s'.reports) == s.attempted
  {
    var s := LogRun(storage, before);
    LogRunKeeps(storage, before);
    var stopped := LogNext(s, RequestStop);
    LogNextKeeps(s, RequestStop);
    DistanceIsBounded(stopped);
    WorkerDrainsAndExits(stopped, after);
    assert ([RequestStop] + after)[1..] == after;
  }
}
