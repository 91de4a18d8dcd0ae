/** What a call on the ring comes to, from its first step to its last, whatever the other thread does meanwhile:
    a push with room and a pop with something to pop succeed, and a refusal means that the ring was full, or
    empty, at some moment of the call. */
module RingProgress {
  import opened Words
  import opened Ring

  // ---------------------------------------------------------------- schedules

  function After<T>(s: State<T>, steps: seq<Step<T>>): (s': State<T>)
    requires 0 < |s.storage| < TWO_64 && HasSingleBit(|s.storage|)
    ensures |s'.storage| == |s.storage|
    decreases |steps|
  {
    if steps == [] then s else After(Next(s, steps[0]), steps[1..])
  }

  lemma {:induction false} RunSplits<T>(storage: seq<T>, before: seq<Step<T>>, after: seq<Step<T>>)
    requires RingSize(|storage|)
    ensures Run(storage, before + after) == After(Run(storage, before), after)
    decreases |after|
  {
    if after == [] {
      assert before + after == before;
    } else {
      assert before + after == (before + [after[0]]) + after[1..];
      RunSplits(storage, before + [after[0]], after[1..]);
      assert (before + [after[0]])[..|before|] == before;
    }
  }

  /** The producer begins no other push. */
  ghost predicate NoOtherPush<T>(steps: seq<Step<T>>) {
    forall i :: 0 <= i < |steps| ==> !steps[i].StartPush?
  }

  /** The consumer begins no other call. */
  ghost predicate NoOtherPop<T>(steps: seq<Step<T>>) {
    forall i :: 0 <= i < |steps| ==> !steps[i].StartPop? && !steps[i].StartEmpty?
  }

  function ProducerSteps<T>(steps: seq<Step<T>>): nat {
    if steps == [] then 0 else (if steps[0].ProducerStep? then 1 else 0) + ProducerSteps(steps[1..])
  }

  function ConsumerSteps<T>(steps: seq<Step<T>>): nat {
    if steps == [] then 0 else (if steps[0].ConsumerStep? then 1 else 0) + ConsumerSteps(steps[1..])
  }

  ghost predicate IsFull<T>(s: State<T>) {
    |s.pushed| == |s.popped| + |s.storage|
  }

  ghost predicate IsEmpty<T>(s: State<T>) {
    |s.pushed| == |s.popped|
  }

  // ---------------------------------------------------------------- a push with room

  /** How many steps a push still takes. */
  function PushLeft<T>(p: Producer<T>): nat {
    match p
    case PStarted(_) => 5
    case PHasHead(_, _) => 4
    case PHasTail(_, _, _) => 3
    case PWriting(_, _) => 2
    case PWritten(_, _) => 1
    case _ => 0
  }

  /** A push of `v` is under way, or done: it began when `pushed0` was published and `popped0` values were
      given up, and there was room. */
  ghost predicate Pushing<T>(s: State<T>, pushed0: seq<T>, popped0: nat, v: T) {
    && Inv(s) && popped0 <= |s.popped| && |pushed0| < popped0 + |s.storage|
    && (if s.producer == PDone(true) then s.pushed == pushed0 + [v] else s.pushed == pushed0)
    && match s.producer
       case PStarted(w) => w == v
       case PHasHead(w, _) => w == v
       case PHasTail(w, _, t) => w == v && Copy(t, popped0, |s.popped|)
       case PWriting(w, _) => w == v
       case PWritten(w, _) => w == v
       case PDone(accepted) => accepted
       case PIdle => false
  }

  lemma PushingAdvances<T>(s: State<T>, pushed0: seq<T>, popped0: nat, v: T)
    requires Pushing(s, pushed0, popped0, v)
    ensures Pushing(ProducerNext(s), pushed0, popped0, v)
    ensures PushLeft(ProducerNext(s).producer) == if PushLeft(s.producer) == 0 then 0 else PushLeft(s.producer) - 1
  {
    ProducerKeeps(s);
    match s.producer
    case PHasHead(_, _) =>
      assert s.tail == Counter(|s.popped|);
    case PHasTail(_, h, t) =>
      var k: nat :| popped0 <= k <= |s.popped| && t == Counter(k);
      CounterDifference(|s.pushed|, k);
    case _ =>
  }

  lemma PushingUndisturbed<T>(s: State<T>, step: Step<T>, pushed0: seq<T>, popped0: nat, v: T)
    requires Pushing(s, pushed0, popped0, v) && !step.ProducerStep? && !step.StartPush?
    ensures Pushing(Next(s, step), pushed0, popped0, v)
    ensures Next(s, step).producer == s.producer
  {
    NextKeeps(s, step);
    if s.producer.PHasTail? {
      var k: nat :| popped0 <= k <= |s.popped| && s.producer.tail == Counter(k);
      assert popped0 <= k <= |Next(s, step).popped|;
    }
  }

  lemma {:induction false} PushingCompletes<T>(s: State<T>, steps: seq<Step<T>>, pushed0: seq<T>, popped0: nat, v: T)
    requires Pushing(s, pushed0, popped0, v) && NoOtherPush(steps)
    ensures Pushing(After(s, steps), pushed0, popped0, v)
    ensures ProducerSteps(steps) >= PushLeft(s.producer) ==> After(s, steps).producer == PDone(true)
    decreases |steps|
  {
    if steps != [] {
      assert !steps[0].StartPush?;
      if steps[0].ProducerStep? {
        PushingAdvances(s, pushed0, popped0, v);
      } else {
        PushingUndisturbed(s, steps[0], pushed0, popped0, v);
      }
      PushingCompletes(Next(s, steps[0]), steps[1..], pushed0, popped0, v);
    }
  }

  /** MAIN RESULT. In every reachable state, a push that begins with room succeeds within five steps of the
      producer, whatever the consumer does in between, and publishes exactly its value. */
  lemma PushSucceeds<T>(storage: seq<T>, before: seq<Step<T>>, v: T, after: seq<Step<T>>)
    requires RingSize(|storage|) && NoOtherPush(after) && ProducerSteps(after) >= 5
    requires var s := Run(storage, before);
      ProducerFree(s.producer) && |s.pushed| < |s.popped| + |storage|
    ensures var s' := Run(storage, before + [StartPush(v)] + after);
      s'.producer == PDone(true) && s'.pushed == Run(storage, before).pushed + [v]
  {
    var s := Run(storage, before);
    RunKeeps(storage, before);
    RunSplits(storage, before + [StartPush(v)], after);
    assert (before + [StartPush(v)])[..|before|] == before;
    PushingCompletes(Next(s, StartPush(v)), after, s.pushed, |s.popped|, v);
  }

  // ---------------------------------------------------------------- a push that is refused

  /** A push is under way that has not seen the ring full. */
  ghost predicate PushHopeful<T>(s: State<T>) {
    && Inv(s)
    && match s.producer
       case PHasTail(_, _, t) => Copy(t, if |s.pushed| < |s.storage| then 0 else |s.pushed| - |s.storage| + 1, |s.popped|)
       case PDone(accepted) => accepted
       case PIdle => false
       case _ => true
  }

  lemma HopefulUntilFull<T>(s: State<T>, step: Step<T>)
    requires PushHopeful(s) && !step.StartPush? && !IsFull(s)
    ensures PushHopeful(Next(s, step))
  {
    NextKeeps(s, step);
    match s.producer
    case PHasHead(_, _) =>
      assert s.tail == Counter(|s.popped|);
    case PHasTail(_, h, t) =>
      var k: nat :| (if |s.pushed| < |s.storage| then 0 else |s.pushed| - |s.storage| + 1) <= k <= |s.popped|
                    && t == Counter(k);
      CounterDifference(|s.pushed|, k);
      assert k <= |Next(s, step).popped|;
    case _ =>
  }

  lemma {:induction false} RefusedAfterFull<T>(s: State<T>, steps: seq<Step<T>>) returns (j: nat)
    requires PushHopeful(s) && NoOtherPush(steps)
    requires After(s, steps).producer == PDone(false)
    ensures j <= |steps| && IsFull(After(s, steps[..j]))
    decreases |steps|
  {
    if IsFull(s) {
      j := 0;
    } else {
      assert !steps[0].StartPush?;
      HopefulUntilFull(s, steps[0]);
      var i := RefusedAfterFull(Next(s, steps[0]), steps[1..]);
      j := i + 1;
      assert steps[..j][1..] == steps[1..][..i];
    }
  }

  /** MAIN RESULT. A push ends refused only if the ring was full at some moment since it began. */
  lemma RefusedOnlyIfFull<T>(storage: seq<T>, before: seq<Step<T>>, v: T, after: seq<Step<T>>) returns (j: nat)
    requires RingSize(|storage|) && NoOtherPush(after) && ProducerFree(Run(storage, before).producer)
    requires Run(storage, before + [StartPush(v)] + after).producer == PDone(false)
    ensures j <= |after| && IsFull(Run(storage, before + [StartPush(v)] + after[..j]))
  {
    var begun := before + [StartPush(v)];
    RunKeeps(storage, begun);
    RunSplits(storage, begun, after);
    assert begun[..|before|] == before;
    j := RefusedAfterFull(Run(storage, begun), after);
    RunSplits(storage, begun, after[..j]);
  }

  /** A push is under way that has seen nothing but a full ring, or was refused. */
  ghost predicate PushHopeless<T>(s: State<T>, pushed0: seq<T>) {
    && Inv(s) && s.pushed == pushed0
    && match s.producer
       case PStarted(_) => true
       case PHasHead(_, _) => true
       case PHasTail(_, _, t) => t == s.tail
       case PDone(accepted) => !accepted
       case _ => false
  }

  function RefusalLeft<T>(p: Producer<T>): nat {
    match p
    case PStarted(_) => 3
    case PHasHead(_, _) => 2
    case PHasTail(_, _, _) => 1
    case _ => 0
  }

  lemma HopelessWhileFull<T>(s: State<T>, step: Step<T>, pushed0: seq<T>)
    requires PushHopeless(s, pushed0) && !step.StartPush? && IsFull(s)
    requires IsFull(Next(s, step))
    ensures PushHopeless(Next(s, step), pushed0)
    ensures RefusalLeft(Next(s, step).producer)
      == if step.ProducerStep? && RefusalLeft(s.producer) > 0 then RefusalLeft(s.producer) - 1
         else RefusalLeft(s.producer)
  {
    NextKeeps(s, step);
    CounterDifference(|s.pushed|, |s.popped|);
  }

  lemma {:induction false} FullIsRefused<T>(s: State<T>, steps: seq<Step<T>>, pushed0: seq<T>)
    requires PushHopeless(s, pushed0) && NoOtherPush(steps) && ProducerSteps(steps) >= RefusalLeft(s.producer)
    requires forall j :: 0 <= j <= |steps| ==> IsFull(After(s, steps[..j]))
    ensures After(s, steps).producer == PDone(false) && After(s, steps).pushed == pushed0
    decreases |steps|
  {
    if steps != [] {
      assert IsFull(After(s, steps[..0])) && IsFull(After(s, steps[..1]));
      assert !steps[0].StartPush? && steps[..1][0] == steps[0] && steps[..1][1..] == [];
      assert After(s, steps[..1]) == Next(s, steps[0]);
      HopelessWhileFull(s, steps[0], pushed0);
      forall j | 0 <= j <= |steps[1..]|
        ensures IsFull(After(Next(s, steps[0]), steps[1..][..j]))
      {
        assert steps[..j + 1][1..] == steps[1..][..j];
        assert IsFull(After(s, steps[..j + 1]));
      }
      FullIsRefused(Next(s, steps[0]), steps[1..], pushed0);
    }
  }

  /** The ring is full from the run `begun` on, through the steps `after`. */
  ghost predicate StaysFull<T>(storage: seq<T>, begun: seq<Step<T>>, after: seq<Step<T>>)
    requires RingSize(|storage|)
  {
    forall j :: 0 <= j <= |after| ==> IsFull(Run(storage, begun + after[..j]))
  }

  lemma FullThroughout<T>(storage: seq<T>, begun: seq<Step<T>>, after: seq<Step<T>>)
    requires RingSize(|storage|) && StaysFull(storage, begun, after)
    ensures forall j :: 0 <= j <= |after| ==> IsFull(After(Run(storage, begun), after[..j]))
  {
    forall j | 0 <= j <= |after|
      ensures IsFull(After(Run(storage, begun), after[..j]))
    {
      RunSplits(storage, begun, after[..j]);
    }
  }

  lemma PushBegins<T>(storage: seq<T>, before: seq<Step<T>>, v: T)
    requires RingSize(|storage|) && ProducerFree(Run(storage, before).producer)
    ensures PushHopeless(Run(storage, before + [StartPush(v)]), Run(storage, before).pushed)
    ensures RefusalLeft(Run(storage, before + [StartPush(v)]).producer) == 3
  {
    RunKeeps(storage, before + [StartPush(v)]);
    assert (before + [StartPush(v)])[..|before|] == before;
  }

  /** MAIN RESULT. A push during which the ring stays full ends refused within three steps of the producer, and
      publishes nothing. */
  lemma PushIsRefused<T>(storage: seq<T>, before: seq<Step<T>>, v: T, after: seq<Step<T>>)
    requires RingSize(|storage|) && NoOtherPush(after) && ProducerSteps(after) >= 3
    requires ProducerFree(Run(storage, before).producer)
    requires StaysFull(storage, before + [StartPush(v)], after)
    ensures var s' := Run(storage, before + [StartPush(v)] + after);
      s'.producer == PDone(false) && s'.pushed == Run(storage, before).pushed
  {
    var begun := before + [StartPush(v)];
    PushBegins(storage, before, v);
    FullThroughout(storage, begun, after);
    RunSplits(storage, begun, after);
    FullIsRefused(Run(storage, begun), after, Run(storage, before).pushed);
  }

  // ---------------------------------------------------------------- a pop with something to pop

  function PopLeft<T>(c: Consumer<T>): nat {
    match c
    case CStarted => 5
    case CHasTail(_) => 4
    case CHasHead(_, _) => 3
    case CReading(_) => 2
    case CRead(_, _) => 1
    case _ => 0
  }

  /** A copy of `head` that was read when something was stored differs from `tail`. */
  lemma HeadIsAhead(h: Word, popped: nat, pushed: nat)
    requires Copy(h, popped + 1, pushed) && pushed < popped + TWO_64
    ensures h != Counter(popped)
  {
    var k: nat :| popped + 1 <= k <= pushed && h == Counter(k);
    CounterDifference(k, popped);
  }

  lemma HeadStaysAhead(h: Word, popped: nat, pushed: nat, pushed': nat)
    requires Copy(h, popped + 1, pushed) && pushed <= pushed'
    ensures Copy(h, popped + 1, pushed')
  {
    var k: nat :| popped + 1 <= k <= pushed && h == Counter(k);
    assert k <= pushed';
  }

  /** A pop of `v` is under way, or done: it began when `popped0` was given up and `v` was next. */
  ghost predicate Popping<T>(s: State<T>, popped0: seq<T>, v: T) {
    && Inv(s) && |popped0| < |s.pushed| && s.pushed[|popped0|] == v
    && (if s.consumer.CPopped? then s.popped == popped0 + [v] else s.popped == popped0)
    && match s.consumer
       case CStarted => true
       case CHasTail(_) => true
       case CHasHead(_, h) => Copy(h, |popped0| + 1, |s.pushed|)
       case CReading(_) => true
       case CRead(_, w) => w == v
       case CPopped(w) => w == v
       case _ => false
  }

  lemma PoppingAdvances<T>(s: State<T>, popped0: seq<T>, v: T)
    requires Popping(s, popped0, v)
    ensures Popping(ConsumerNext(s), popped0, v)
    ensures PopLeft(ConsumerNext(s).consumer) == if PopLeft(s.consumer) == 0 then 0 else PopLeft(s.consumer) - 1
  {
    ConsumerKeeps(s);
    match s.consumer
    case CHasTail(_) =>
      assert s.head == Counter(|s.pushed|);
    case CHasHead(t, h) =>
      HeadIsAhead(h, |s.popped|, |s.pushed|);
    case CReading(_) =>
      IndexOfCounter(|s.popped|, |s.storage|);
    case _ =>
  }

  lemma PoppingUndisturbed<T>(s: State<T>, step: Step<T>, popped0: seq<T>, v: T)
    requires Popping(s, popped0, v) && (step.ProducerStep? || step.StartPush?)
    ensures Popping(Next(s, step), popped0, v)
    ensures Next(s, step).consumer == s.consumer
  {
    NextKeeps(s, step);
    if s.consumer.CHasHead? {
      var k: nat :| |popped0| + 1 <= k <= |s.pushed| && s.consumer.head == Counter(k);
      assert k <= |Next(s, step).pushed|;
    }
  }

  lemma {:induction false} PoppingCompletes<T>(s: State<T>, steps: seq<Step<T>>, popped0: seq<T>, v: T)
    requires Popping(s, popped0, v) && NoOtherPop(steps)
    ensures Popping(After(s, steps), popped0, v)
    ensures ConsumerSteps(steps) >= PopLeft(s.consumer) ==> After(s, steps).consumer == CPopped(v)
    decreases |steps|
  {
    if steps != [] {
      assert !steps[0].StartPop? && !steps[0].StartEmpty?;
      if steps[0].ConsumerStep? {
        PoppingAdvances(s, popped0, v);
      } else {
        PoppingUndisturbed(s, steps[0], popped0, v);
      }
      PoppingCompletes(Next(s, steps[0]), steps[1..], popped0, v);
    }
  }

  /** MAIN RESULT. In every reachable state, a pop that begins with something stored succeeds within five steps of
      the consumer, whatever the producer does in between, and yields exactly the oldest stored value. */
  lemma PopSucceeds<T>(storage: seq<T>, before: seq<Step<T>>, after: seq<Step<T>>)
    requires RingSize(|storage|) && NoOtherPop(after) && ConsumerSteps(after) >= 5
    requires var s := Run(storage, before);
      ConsumerFree(s.consumer) && |s.popped| < |s.pushed|
    ensures var s, s' := Run(storage, before), Run(storage, before + [StartPop] + after);
      var v := s.pushed[|s.popped|];
      s'.consumer == CPopped(v) && s'.popped == s.popped + [v]
  {
    var s := Run(storage, before);
    RunKeeps(storage, before);
    RunSplits(storage, before + [StartPop], after);
    assert (before + [StartPop])[..|before|] == before;
    PoppingCompletes(Next(s, StartPop), after, s.popped, s.pushed[|s.popped|]);
  }

  // ---------------------------------------------------------------- a pop that finds nothing, and `empty`

  /** A pop is under way that has not seen the ring empty. */
  ghost predicate PopHopeful<T>(s: State<T>) {
    && Inv(s)
    && match s.consumer
       case CStarted => true
       case CHasTail(_) => true
       case CHasHead(_, h) => Copy(h, |s.popped| + 1, |s.pushed|)
       case CReading(_) => true
       case CRead(_, _) => true
       case CPopped(_) => true
       case _ => false
  }

  lemma HopefulUntilEmpty<T>(s: State<T>, step: Step<T>)
    requires PopHopeful(s) && !step.StartPop? && !step.StartEmpty? && !IsEmpty(s)
    ensures PopHopeful(Next(s, step))
  {
    NextKeeps(s, step);
    match s.consumer
    case CHasTail(_) =>
      assert s.head == Counter(|s.pushed|);
    case CHasHead(_, h) =>
      HeadIsAhead(h, |s.popped|, |s.pushed|);
      HeadStaysAhead(h, |s.popped|, |s.pushed|, |Next(s, step).pushed|);
    case _ =>
  }

  lemma {:induction false} FoundNoneAfterEmpty<T>(s: State<T>, steps: seq<Step<T>>) returns (j: nat)
    requires PopHopeful(s) && NoOtherPop(steps)
    requires After(s, steps).consumer == CFoundNone
    ensures j <= |steps| && IsEmpty(After(s, steps[..j]))
    decreases |steps|
  {
    if IsEmpty(s) {
      j := 0;
    } else {
      assert !steps[0].StartPop? && !steps[0].StartEmpty?;
      HopefulUntilEmpty(s, steps[0]);
      var i := FoundNoneAfterEmpty(Next(s, steps[0]), steps[1..]);
      j := i + 1;
      assert steps[..j][1..] == steps[1..][..i];
    }
  }

  /** MAIN RESULT. A pop finds nothing only if the ring was empty at some moment since it began. */
  lemma FoundNoneOnlyIfEmpty<T>(storage: seq<T>, before: seq<Step<T>>, after: seq<Step<T>>) returns (j: nat)
    requires RingSize(|storage|) && NoOtherPop(after) && ConsumerFree(Run(storage, before).consumer)
    requires Run(storage, before + [StartPop] + after).consumer == CFoundNone
    ensures j <= |after| && IsEmpty(Run(storage, before + [StartPop] + after[..j]))
  {
    var begun := before + [StartPop];
    RunKeeps(storage, begun);
    RunSplits(storage, begun, after);
    assert begun[..|before|] == before;
    j := FoundNoneAfterEmpty(Run(storage, begun), after);
    RunSplits(storage, begun, after[..j]);
  }

  function EmptyLeft<T>(c: Consumer<T>): nat {
    match c
    case EStarted => 2
    case EHasTail(_) => 1
    case _ => 0
  }

  lemma {:induction false} EmptyLooks<T>(s: State<T>, steps: seq<Step<T>>) returns (j: nat)
    requires Inv(s) && (s.consumer.EStarted? || s.consumer.EHasTail?)
    requires NoOtherPop(steps) && ConsumerSteps(steps) >= EmptyLeft(s.consumer)
    ensures j <= |steps| && After(s, steps).consumer == EDone(IsEmpty(After(s, steps[..j])))
    decreases |steps|
  {
    assert !steps[0].StartPop? && !steps[0].StartEmpty?;
    var next := Next(s, steps[0]);
    NextKeeps(s, steps[0]);
    if s.consumer.EHasTail? && steps[0].ConsumerStep? {
      EmptyIsExact(s);
      AnswerStays(next, steps[1..]);
      j := 0;
    } else {
      var i := EmptyLooks(next, steps[1..]);
      j := i + 1;
      assert steps[..j][1..] == steps[1..][..i];
    }
  }

  lemma {:induction false} AnswerStays<T>(s: State<T>, steps: seq<Step<T>>)
    requires RingSize(|s.storage|) && s.consumer.EDone? && NoOtherPop(steps)
    ensures After(s, steps).consumer == s.consumer
    decreases |steps|
  {
    if steps != [] {
      assert !steps[0].StartPop? && !steps[0].StartEmpty?;
      AnswerStays(Next(s, steps[0]), steps[1..]);
    }
  }

  /** MAIN RESULT. `empty` answers within two steps of the consumer, and answers what was true at some moment since
      it began. */
  lemma EmptyAnswers<T>(storage: seq<T>, before: seq<Step<T>>, after: seq<Step<T>>) returns (j: nat)
    requires RingSize(|storage|) && NoOtherPop(after) && ConsumerSteps(after) >= 2
    requires ConsumerFree(Run(storage, before).consumer)
    ensures j <= |after|
    ensures Run(storage, before + [StartEmpty] + after).consumer
      == EDone(IsEmpty(Run(storage, before + [StartEmpty] + after[..j])))
  {
    var begun := before + [StartEmpty];
    RunKeeps(storage, begun);
    RunSplits(storage, begun, after);
    assert begun[..|before|] == before;
    j := EmptyLooks(Run(storage, begun), after);
    RunSplits(storage, begun, after[..j]);
  }
}
