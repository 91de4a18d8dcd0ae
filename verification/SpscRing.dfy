/** The single-producer single-consumer ring (src/logging/SpscRing.h) as two threads of small steps: every
    atomic load, every atomic store and every slot access is one step, and the steps of the two threads
    interleave freely. Head and tail are 64-bit counters that wrap. */
module Ring {
  import opened Words

  /** Where the producer is in `try_push`, with its local copies. */
  datatype Producer<T> =
    | PIdle
    | PStarted(value: T)
    | PHasHead(value: T, head: Word)
    | PHasTail(value: T, head: Word, tail: Word)
    | PWriting(value: T, head: Word)
    | PWritten(value: T, head: Word)
    | PDone(accepted: bool)

  /** Where the consumer is in `try_pop` or `empty`, with its local copies. */
  datatype Consumer<T> =
    | CIdle
    | CStarted
    | CHasTail(tail: Word)
    | CHasHead(tail: Word, head: Word)
    | CReading(tail: Word)
    | CRead(tail: Word, value: T)
    | CPopped(value: T)
    | CFoundNone
    | EStarted
    | EHasTail(tail: Word)
    | EDone(empty: bool)

  /** Shared memory, both threads, and the history: values published by a store to `head`, values given up
      by a store to `tail`, and pushes that were refused. */
  datatype State<T> = State(
    storage: seq<T>, head: Word, tail: Word, producer: Producer<T>, consumer: Consumer<T>,
    pushed: seq<T>, popped: seq<T>, refused: nat)

  datatype Step<T> = StartPush(value: T) | ProducerStep | StartPop | StartEmpty | ConsumerStep

  function Init<T>(storage: seq<T>): State<T> {
    State(storage, 0, 0, PIdle, CIdle, [], [], 0)
  }

  /** `counter & mask_`. */
  function Index(counter: Word, capacity: int): (i: nat)
    requires 0 < capacity < TWO_64 && HasSingleBit(capacity)
    ensures i < capacity
  {
    MaskIsRemainder(counter, capacity);
    BitAnd(counter, capacity - 1)
  }

  ghost predicate RingSize(n: int) {
    0 < n < TWO_64 && HasSingleBit(n)
  }

  function ProducerNext<T>(s: State<T>): State<T>
    requires 0 < |s.storage| < TWO_64 && HasSingleBit(|s.storage|)
  {
    match s.producer
    case PStarted(v) => s.(producer := PHasHead(v, s.head))
    case PHasHead(v, h) => s.(producer := PHasTail(v, h, s.tail))
    case PHasTail(v, h, t) =>
      if WrapSub(h, t) >= |s.storage| then s.(producer := PDone(false), refused := s.refused + 1)
      else s.(producer := PWriting(v, h))
    case PWriting(v, h) =>
      s.(storage := s.storage[Index(h, |s.storage|) := v], producer := PWritten(v, h))
    case PWritten(v, h) =>
      s.(head := WrapAdd(h, 1), producer := PDone(true), pushed := s.pushed + [v])
    case _ => s
  }

  function ConsumerNext<T>(s: State<T>): State<T>
    requires 0 < |s.storage| < TWO_64 && HasSingleBit(|s.storage|)
  {
    match s.consumer
    case CStarted => s.(consumer := CHasTail(s.tail))
    case CHasTail(t) => s.(consumer := CHasHead(t, s.head))
    case CHasHead(t, h) => s.(consumer := if t == h then CFoundNone else CReading(t))
    case CReading(t) => s.(consumer := CRead(t, s.storage[Index(t, |s.storage|)]))
    case CRead(t, v) =>
      s.(tail := WrapAdd(t, 1), consumer := CPopped(v), popped := s.popped + [v])
    case EStarted => s.(consumer := EHasTail(s.tail))
    case EHasTail(t) => s.(consumer := EDone(t == s.head))
    case _ => s
  }

  predicate ProducerFree<T>(p: Producer<T>) {
    p.PIdle? || p.PDone?
  }

  predicate ConsumerFree<T>(c: Consumer<T>) {
    c.CIdle? || c.CPopped? || c.CFoundNone? || c.EDone?
  }

  /** One step of one thread; a step that its thread cannot take leaves the state alone. */
  function Next<T>(s: State<T>, step: Step<T>): State<T>
    requires 0 < |s.storage| < TWO_64 && HasSingleBit(|s.storage|)
  {
    match step
    case StartPush(v) => if ProducerFree(s.producer) then s.(producer := PStarted(v)) else s
    case ProducerStep => ProducerNext(s)
    case StartPop => if ConsumerFree(s.consumer) then s.(consumer := CStarted) else s
    case StartEmpty => if ConsumerFree(s.consumer) then s.(consumer := EStarted) else s
    case ConsumerStep => ConsumerNext(s)
  }

  function Run<T>(storage: seq<T>, steps: seq<Step<T>>): (s: State<T>)
    requires 0 < |storage| < TWO_64 && HasSingleBit(|storage|)
    ensures |s.storage| == |storage|
  {
    if steps == [] then Init(storage)
    else Next(Run(storage, steps[..|steps| - 1]), steps[|steps| - 1])
  }

  // ---------------------------------------------------------------- the invariant

  /** A 64-bit counter that has been incremented `n` times. */
  function Counter(n: nat): Word {
    n % TWO_64
  }

  /** `w` is a copy of a counter that stood between `lo` and `hi` increments when it was read. */
  ghost predicate Copy(w: Word, lo: nat, hi: nat) {
    exists k: nat {:trigger Counter(k)} :: lo <= k <= hi && w == Counter(k)
  }

  ghost predicate ProducerOk<T>(s: State<T>)
    requires |s.storage| > 0
  {
    var n, p, c := |s.storage|, |s.pushed|, |s.popped|;
    match s.producer
    case PHasHead(v, h) => h == s.head
    case PHasTail(v, h, t) => h == s.head && Copy(t, if p < n then 0 else p - n, c)
    case PWriting(v, h) => h == s.head && p < c + n
    case PWritten(v, h) => h == s.head && p < c + n && s.storage[p % n] == v
    case _ => true
  }

  ghost predicate ConsumerOk<T>(s: State<T>) {
    var p, c := |s.pushed|, |s.popped|;
    match s.consumer
    case CHasTail(t) => t == s.tail
    case CHasHead(t, h) => t == s.tail && Copy(h, c, p)
    case CReading(t) => t == s.tail && c < p
    case CRead(t, v) => t == s.tail && c < p && v == s.pushed[c]
    case EHasTail(t) => t == s.tail
    case _ => true
  }

  /** The slots between tail and head hold the published values that were not given up yet. */
  ghost predicate Stored<T>(s: State<T>)
    requires |s.storage| > 0
  {
    forall i {:trigger s.pushed[i]} :: |s.popped| <= i < |s.pushed| ==> s.storage[i % |s.storage|] == s.pushed[i]
  }

  ghost predicate Inv<T>(s: State<T>) {
    && RingSize(|s.storage|)
    && |s.popped| <= |s.pushed| <= |s.popped| + |s.storage|
    && s.head == Counter(|s.pushed|) && s.tail == Counter(|s.popped|)
    && s.popped == s.pushed[..|s.popped|]
    && Stored(s)
    && ProducerOk(s)
    && ConsumerOk(s)
  }

  // ---------------------------------------------------------------- arithmetic of wrapping counters

  /** Masking survives wrap-around: the index is the true position modulo the capacity. */
  lemma IndexOfCounter(n: nat, capacity: int)
    requires RingSize(capacity)
    ensures Index(Counter(n), capacity) == n % capacity
  {
    MaskedWrap(capacity, n);
  }

  /** The wrapped difference of two counters less than 2^64 apart is their true difference. */
  lemma CounterDifference(hi: nat, lo: nat)
    requires lo <= hi < lo + TWO_64
    ensures WrapSub(Counter(hi), Counter(lo)) == hi - lo
  {
  }

  lemma CounterIncrement(n: nat)
    ensures WrapAdd(Counter(n), 1) == Counter(n + 1)
  {
  }

  /** Two positions less than a whole ring apart use different slots. */
  lemma DistinctSlots(i: nat, j: nat, n: nat)
    requires i < j < i + n
    ensures i % n != j % n
  {
    if i % n == j % n {
      Quotient(i, n);
      Quotient(j, n);
      Distribute(n, j / n, i / n);
      if j / n > i / n {
        ScaleUp(n, j / n - i / n);
      } else if i / n > j / n {
        ScaleUp(n, i / n - j / n);
        Distribute(n, i / n, j / n);
      }
    }
  }

  // ---------------------------------------------------------------- every step keeps the invariant

  lemma PushKeepsStored<T>(s: State<T>, v: T)
    requires Inv(s) && |s.pushed| < |s.popped| + |s.storage|
    requires s.storage[|s.pushed| % |s.storage|] == v
    ensures Stored(s.(pushed := s.pushed + [v]))
  {
    var s' := s.(pushed := s.pushed + [v]);
    forall i {:trigger s'.pushed[i]} | |s.popped| <= i < |s'.pushed|
      ensures s'.storage[i % |s.storage|] == s'.pushed[i]
    {
      assert i < |s.pushed| ==> s'.pushed[i] == s.pushed[i];
    }
  }

  /** The producer's slot is none of those that hold values. */
  lemma WriteKeepsStored<T>(s: State<T>, v: T)
    requires Inv(s) && |s.pushed| < |s.popped| + |s.storage|
    ensures Stored(s.(storage := s.storage[|s.pushed| % |s.storage| := v]))
  {
    var n, p := |s.storage|, |s.pushed|;
    forall i {:trigger s.pushed[i]} | |s.popped| <= i < p
      ensures s.storage[p % n := v][i % n] == s.pushed[i]
    {
      DistinctSlots(i, p, n);
    }
  }

  lemma ProducerKeeps<T>(s: State<T>)
    requires Inv(s)
    ensures Inv(ProducerNext(s))
  {
    var n, p, c := |s.storage|, |s.pushed|, |s.popped|;
    match s.producer
    case PHasHead(v, h) =>
      assert s.tail == Counter(c);
    case PHasTail(v, h, t) =>
      var k: nat :| (if p < n then 0 else p - n) <= k <= c && t == Counter(k);
      CounterDifference(p, k);
    case PWriting(v, h) =>
      IndexOfCounter(p, n);
      WriteKeepsStored(s, v);
    case PWritten(v, h) =>
      CounterIncrement(p);
      PushKeepsStored(s, v);
      if s.consumer.CHasHead? {
        var k: nat :| c <= k <= p && s.consumer.head == Counter(k);
      }
    case _ =>
  }

  lemma ConsumerKeeps<T>(s: State<T>)
    requires Inv(s)
    ensures Inv(ConsumerNext(s))
  {
    var n, p, c := |s.storage|, |s.pushed|, |s.popped|;
    match s.consumer
    case CHasTail(t) =>
      assert s.head == Counter(p);
    case CHasHead(t, h) =>
      var k: nat :| c <= k <= p && h == Counter(k);
      CounterDifference(k, c);
    case CReading(t) =>
      IndexOfCounter(c, n);
      assert s.pushed[c] == s.storage[c % n];
    case CRead(t, v) =>
      CounterIncrement(c);
      assert s.pushed[..c + 1] == s.pushed[..c] + [s.pushed[c]];
      if s.producer.PHasTail? {
        var k: nat :| (if p < n then 0 else p - n) <= k <= c && s.producer.tail == Counter(k);
      }
    case _ =>
  }

  lemma NextKeeps<T>(s: State<T>, step: Step<T>)
    requires Inv(s)
    ensures Inv(Next(s, step))
  {
    match step
    case ProducerStep => ProducerKeeps(s);
    case ConsumerStep => ConsumerKeeps(s);
    case _ =>
  }

  lemma {:induction false} RunKeeps<T>(storage: seq<T>, steps: seq<Step<T>>)
    requires RingSize(|storage|)
    ensures Inv(Run(storage, steps))
  {
    if steps != [] {
      RunKeeps(storage, steps[..|steps| - 1]);
      NextKeeps(Run(storage, steps[..|steps| - 1]), steps[|steps| - 1]);
    }
  }

  // ---------------------------------------------------------------- what users of the ring get

  /** MAIN RESULT. Under every interleaving the values popped are a prefix of the values pushed, in order,
      and the wrapped difference of the counters is the true number of stored values, at most the capacity. */
  lemma Fifo<T>(storage: seq<T>, steps: seq<Step<T>>)
    requires RingSize(|storage|)
    ensures var s := Run(storage, steps);
      && s.popped <= s.pushed
      && WrapSub(s.head, s.tail) == |s.pushed| - |s.popped| <= |storage|
  {
    RunKeeps(storage, steps);
    var s := Run(storage, steps);
    CounterDifference(|s.pushed|, |s.popped|);
  }

  /** MAIN RESULT. Under every interleaving, when one thread is about to write a slot and the other is
      about to read one, the slots differ. */
  lemma RaceFree<T>(storage: seq<T>, steps: seq<Step<T>>)
    requires RingSize(|storage|)
    ensures var s := Run(storage, steps);
      s.producer.PWriting? && s.consumer.CReading? ==>
        Index(s.producer.head, |storage|) != Index(s.consumer.tail, |storage|)
  {
    RunKeeps(storage, steps);
    var s := Run(storage, steps);
    if s.producer.PWriting? && s.consumer.CReading? {
      IndexOfCounter(|s.pushed|, |storage|);
      IndexOfCounter(|s.popped|, |storage|);
      DistinctSlots(|s.popped|, |s.pushed|, |storage|);
    }
  }

  /** A push is refused only if the ring was full when the producer read `tail`, and a pop finds nothing
      only if the ring was empty when the consumer read `head`. */
  lemma RefusalsAreJustified<T>(s: State<T>)
    requires Inv(s)
    ensures s.producer.PHasHead? ==>
      var s1 := ProducerNext(s);
      (ProducerNext(s1).producer == PDone(false) <==> |s.pushed| == |s.popped| + |s.storage|)
    ensures s.consumer.CHasTail? ==>
      var s1 := ConsumerNext(s);
      (ConsumerNext(s1).consumer == CFoundNone <==> |s.pushed| == |s.popped|)
  {
    CounterDifference(|s.pushed|, |s.popped|);
  }

  /** With something stored, the two counters differ. */
  lemma StoredIsSeen<T>(s: State<T>)
    requires Inv(s) && |s.popped| < |s.pushed|
    ensures s.head != s.tail
  {
    CounterDifference(|s.pushed|, |s.popped|);
  }

  /** `empty` answers exactly whether the ring was empty when it read `head`. */
  lemma EmptyIsExact<T>(s: State<T>)
    requires Inv(s) && s.consumer.EHasTail?
    ensures ConsumerNext(s).consumer == EDone(|s.pushed| == |s.popped|)
  {
    CounterDifference(|s.pushed|, |s.popped|);
  }

  // ---------------------------------------------------------------- the class

  /** The ring as an object in memory. Each method is one step of one thread, done in place. */
  class SpscRing<T> {
    const storage: array<T>
    var head: Word
    var tail: Word
    var producer: Producer<T>
    var consumer: Consumer<T>
    ghost var pushed: seq<T>
    ghost var popped: seq<T>
    ghost var refused: nat

    ghost function View(): State<T>
      reads this, storage
    {
      State(storage[..], head, tail, producer, consumer, pushed, popped, refused)
    }

    constructor (storage: array<T>)
      requires RingSize(storage.Length)
      ensures this.storage == storage && View() == Init(storage[..]) && Inv(View())
    {
      this.storage := storage;
      this.head, this.tail := 0, 0;
      this.producer, this.consumer := PIdle, CIdle;
      this.pushed, this.popped, this.refused := [], [], 0;
    }

    method BeginPush(value: T)
      requires Inv(View())
      modifies this`producer
      ensures View() == Next(old(View()), StartPush(value)) && Inv(View())
    {
      if ProducerFree(producer) {
        producer := PStarted(value);
      }
    }

    method StepProducer()
      requires Inv(View())
      modifies this`producer, this`head, this`pushed, this`refused, storage
      ensures View() == Next(old(View()), ProducerStep) && Inv(View())
    {
      ProducerKeeps(View());
      match producer
      case PStarted(v) => producer := PHasHead(v, head);
      case PHasHead(v, h) => producer := PHasTail(v, h, tail);
      case PHasTail(v, h, t) =>
        if WrapSub(h, t) >= storage.Length {
          producer := PDone(false);
          refused := refused + 1;
        } else {
          producer := PWriting(v, h);
        }
      case PWriting(v, h) =>
        storage[Index(h, storage.Length)] := v;
        producer := PWritten(v, h);
      case PWritten(v, h) =>
        head := WrapAdd(h, 1);
        producer := PDone(true);
        pushed := pushed + [v];
      case _ =>
    }

    method BeginPop()
      requires Inv(View())
      modifies this`consumer
      ensures View() == Next(old(View()), StartPop) && Inv(View())
    {
      if ConsumerFree(consumer) {
        consumer := CStarted;
      }
    }

    method BeginEmpty()
      requires Inv(View())
      modifies this`consumer
      ensures View() == Next(old(View()), StartEmpty) && Inv(View())
    {
      if ConsumerFree(consumer) {
        consumer := EStarted;
      }
    }

    method StepConsumer()
      requires Inv(View())
      modifies this`consumer, this`tail, this`popped
      ensures View() == Next(old(View()), ConsumerStep) && Inv(View())
    {
      ConsumerKeeps(View());
      match consumer
      case CStarted => consumer := CHasTail(tail);
      case CHasTail(t) => consumer := CHasHead(t, head);
      case CHasHead(t, h) => consumer := if t == h then CFoundNone else CReading(t);
      case CReading(t) => consumer := CRead(t, storage[Index(t, storage.Length)]);
      case CRead(t, v) =>
        tail := WrapAdd(t, 1);
        consumer := CPopped(v);
        popped := popped + [v];
      case EStarted => consumer := EHasTail(tail);
      case EHasTail(t) => consumer := EDone(t == head);
      case _ =>
    }
  }
}
