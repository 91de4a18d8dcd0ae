/** The shape of the event stream: how one command is answered, and how ids are numbered over a run. */
module EventGrammar {
  import opened Words
  import opened Wrappers
  import opened Types
  import opened BookSpec
  import opened Matching
  import opened BookTheory
  import opened Flattening
  import opened EngineSpec

  // ---------------------------------------------------------------- one command

  /** The aggressor's remainder before execution `i`. */
  function RemainderBefore(quantity: Word, xs: seq<MatchExecution>, i: nat): Word
    requires i <= |xs|
  {
    if i == 0 then quantity else xs[i - 1].aggressingRemaining
  }

  /** Each execution takes at least one unit from the aggressor, its reported remainder is the previous one
      less what it took, and its price is within the limit. */
  ghost predicate Chained(a: OrderInfo, xs: seq<MatchExecution>) {
    forall i {:trigger xs[i]} :: 0 <= i < |xs| ==>
      && xs[i].quantity >= 1
      && xs[i].aggressingOrderId == a.orderId
      && xs[i].aggressingSide == a.side
      && xs[i].aggressingRemaining == RemainderBefore(a.remaining, xs, i) - xs[i].quantity
      && (a.side == Buy ==> xs[i].price <= a.price) && (a.side == Sell ==> a.price <= xs[i].price)
  }

  /** The executions of one aggressor: chained, and prices only get worse. */
  ghost predicate Sweep(a: OrderInfo, xs: seq<MatchExecution>) {
    && Chained(a, xs)
    && (a.side == Buy ==> forall i, j :: 0 <= i < j < |xs| ==> xs[i].price <= xs[j].price)
    && (a.side == Sell ==> forall i, j :: 0 <= i < j < |xs| ==> xs[j].price <= xs[i].price)
  }

  /** The events of an accepted order: the acceptance, the executions as trades numbered from `tradeId`, and a
      Rested event exactly when quantity remains, for exactly that quantity. */
  ghost predicate AnswerLayout(command: NewOrderCommand, id: nat, tradeId: nat, xs: seq<MatchExecution>,
                               events: seq<EngineEvent>)
  {
    var left := RemainderBefore(command.quantity, xs, |xs|);
    && |events| == 1 + |xs| + (if left > 0 then 1 else 0)
    && events[0] == Accepted(command, id)
    && (forall i {:trigger xs[i]} :: 0 <= i < |xs| ==> events[1 + i] == TradeExecuted(tradeId + i, xs[i]))
    && (left > 0 ==> events[1 + |xs|] == Rested(Incoming(command, id).(remaining := left)))
  }

  /** The answer to an accepted order: the events of a sweep. */
  ghost predicate AcceptedAnswer(command: NewOrderCommand, id: nat, tradeId: nat, xs: seq<MatchExecution>,
                                 events: seq<EngineEvent>)
  {
    Sweep(Incoming(command, id), xs) && AnswerLayout(command, id, tradeId, xs, events)
  }

  lemma ChainCons(a: OrderInfo, x: MatchExecution, xs: seq<MatchExecution>)
    requires 1 <= x.quantity <= a.remaining && x.aggressingRemaining == a.remaining - x.quantity
    requires x.aggressingOrderId == a.orderId && x.aggressingSide == a.side
    requires (a.side == Buy ==> x.price <= a.price) && (a.side == Sell ==> a.price <= x.price)
    requires Chained(Reduce(a, x.quantity), xs)
    ensures Chained(a, [x] + xs)
    ensures RemainderBefore(a.remaining, [x] + xs, |xs| + 1) == RemainderBefore(x.aggressingRemaining, xs, |xs|)
  {
    var all := [x] + xs;
    forall i {:trigger all[i]} | 0 <= i < |all|
      ensures all[i].quantity >= 1 && all[i].aggressingOrderId == a.orderId && all[i].aggressingSide == a.side
              && all[i].aggressingRemaining == RemainderBefore(a.remaining, all, i) - all[i].quantity
              && (a.side == Buy ==> all[i].price <= a.price) && (a.side == Sell ==> a.price <= all[i].price)
    {
      if i > 0 {
        assert all[i] == xs[i - 1];
      }
    }
  }

  lemma {:induction false} FillChain(a: OrderInfo, q: seq<OrderInfo>)
    requires Positive(q)
    ensures var f := Fill(a, q);
      Chained(a, f.executions) && f.aggressor.remaining == RemainderBefore(a.remaining, f.executions, |f.executions|)
    decreases |q|
  {
    if a.remaining == 0 || q == [] || !Crosses(a.side, a.price, q[0].price) {
    } else if a.remaining < q[0].remaining {
      ChainCons(a, Execution(a, q[0], a.remaining), []);
    } else {
      var x, a' := Execution(a, q[0], q[0].remaining), Reduce(a, q[0].remaining);
      FillChain(a', q[1..]);
      ChainCons(a, x, Fill(a', q[1..]).executions);
    }
  }

  /** Price-time priority, seen in the trades: an aggressor never trades at a better price after a worse one. */
  lemma FillPricesWorsen(a: OrderInfo, q: seq<OrderInfo>)
    requires Positive(q) && InPriorityOrder(Opposite(a.side), q)
    ensures var xs := Fill(a, q).executions;
      && (a.side == Buy ==> forall i, j :: 0 <= i < j < |xs| ==> xs[i].price <= xs[j].price)
      && (a.side == Sell ==> forall i, j :: 0 <= i < j < |xs| ==> xs[j].price <= xs[i].price)
  {
    var xs := Fill(a, q).executions;
    if q != [] {
      TradesAreGreedy(a, q, 0);
    }
    forall i, j | 0 <= i < j < |xs|
      ensures if a.side == Buy then xs[i].price <= xs[j].price else xs[j].price <= xs[i].price
    {
      TradesAreGreedy(a, q, i);
      TradesAreGreedy(a, q, j);
      assert Ahead(Opposite(a.side), q[i], q[j]);
    }
  }

  /** MAIN RESULT. A new order is answered by one rejection, or by an acceptance with the next order id,
      a sweep of trades with the next trade ids, and a Rested event exactly when quantity remains. */
  lemma NewOrderAnswer(e: Engine, command: NewOrderCommand)
    requires Valid(e)
    ensures var s := StepNewOrder(e, command);
      match NewOrderError(e, command)
      case Some(reason) => s.events == [RejectedNew(command, reason)]
      case None =>
        var xs := Fill(Incoming(command, e.nextOrderId), e.book.Queue(Opposite(command.side))).executions;
        && AcceptedAnswer(command, e.nextOrderId, e.nextTradeId, xs, s.events)
        && s.engine.nextOrderId == e.nextOrderId + 1
        && s.engine.nextTradeId == e.nextTradeId + |xs|
        && s.engine.executionCount == e.executionCount + |xs|
  {
    if NewOrderError(e, command).None? {
      var a := Incoming(command, e.nextOrderId);
      var across := e.book.Queue(Opposite(a.side));
      var f := Fill(a, across);
      FillChain(a, across);
      FillPricesWorsen(a, across);
      FillStops(a, across);
      AnswerShape(command, e.nextOrderId, e.nextTradeId, f, StepNewOrder(e, command).events);
    }
  }

  lemma AnswerShape(command: NewOrderCommand, id: nat, tradeId: nat, f: FillResult, events: seq<EngineEvent>)
    requires f.aggressor == Incoming(command, id).(remaining := f.aggressor.remaining)
    requires f.aggressor.remaining == RemainderBefore(command.quantity, f.executions, |f.executions|)
    requires events == [Accepted(command, id)] + Trades(f.executions, tradeId)
                       + (if f.aggressor.remaining > 0 then [Rested(f.aggressor)] else [])
    ensures AnswerLayout(command, id, tradeId, f.executions, events)
  {
    var last := if f.aggressor.remaining > 0 then [Rested(f.aggressor)] else [];
    var trades := Trades(f.executions, tradeId);
    Layout(Accepted(command, id), trades, last);
    forall i {:trigger f.executions[i]} | 0 <= i < |f.executions|
      ensures events[1 + i] == TradeExecuted(tradeId + i, f.executions[i])
    {
      assert events[1 + i] == trades[i];
    }
  }

  lemma Layout<T>(head: T, middle: seq<T>, last: seq<T>)
    ensures var s := [head] + middle + last;
      && |s| == 1 + |middle| + |last| && s[0] == head
      && (forall i {:trigger middle[i]} :: 0 <= i < |middle| ==> s[1 + i] == middle[i])
      && (|last| == 1 ==> s[1 + |middle|] == last[0])
  {
  }

  /** A cancel or replace is answered by exactly one event. */
  lemma OtherAnswer(e: Engine, command: EngineCommand)
    requires !command.NewOrder?
    ensures |Step(e, command).events| == 1
    ensures Step(e, command).events[0].CommandRejected? || Step(e, command).events[0].OrderCancelled?
  {
  }

  // ---------------------------------------------------------------- numbering over runs

  function AcceptedIds(events: seq<EngineEvent>): seq<nat> {
    if events == [] then []
    else (if events[0].OrderAccepted? then [events[0].orderId] else []) + AcceptedIds(events[1..])
  }

  function TradeIds(events: seq<EngineEvent>): seq<nat> {
    if events == [] then []
    else (if events[0].TradeExecuted? then [events[0].tradeId] else []) + TradeIds(events[1..])
  }

  lemma {:induction false} AcceptedIdsAppend(first: seq<EngineEvent>, second: seq<EngineEvent>)
    ensures AcceptedIds(first + second) == AcceptedIds(first) + AcceptedIds(second)
  {
    if first == [] {
      assert first + second == second;
    } else {
      assert (first + second)[0] == first[0] && (first + second)[1..] == first[1..] + second;
      AcceptedIdsAppend(first[1..], second);
    }
  }

  lemma {:induction false} TradeIdsAppend(first: seq<EngineEvent>, second: seq<EngineEvent>)
    ensures TradeIds(first + second) == TradeIds(first) + TradeIds(second)
  {
    if first == [] {
      assert first + second == second;
    } else {
      assert (first + second)[0] == first[0] && (first + second)[1..] == first[1..] + second;
      TradeIdsAppend(first[1..], second);
    }
  }

  lemma IdsAppend(first: seq<EngineEvent>, second: seq<EngineEvent>)
    ensures AcceptedIds(first + second) == AcceptedIds(first) + AcceptedIds(second)
    ensures TradeIds(first + second) == TradeIds(first) + TradeIds(second)
  {
    AcceptedIdsAppend(first, second);
    TradeIdsAppend(first, second);
  }

  /** The `n` numbers from `start`. */
  function Count(start: nat, n: nat): (r: seq<nat>)
    ensures |r| == n && forall i {:trigger r[i]} :: 0 <= i < n ==> r[i] == start + i
  {
    seq(n, i => start + i)
  }

  lemma {:induction false} TradeIdsOf(xs: seq<MatchExecution>, firstId: nat)
    ensures AcceptedIds(Trades(xs, firstId)) == []
    ensures TradeIds(Trades(xs, firstId)) == Count(firstId, |xs|)
    decreases |xs|
  {
    if xs != [] {
      assert Trades(xs, firstId)[1..] == Trades(xs[1..], firstId + 1);
      TradeIdsOf(xs[1..], firstId + 1);
      assert Count(firstId, |xs|) == [firstId] + Count(firstId + 1, |xs| - 1);
    }
  }

  lemma IdsOne(event: EngineEvent)
    ensures AcceptedIds([event]) == if event.OrderAccepted? then [event.orderId] else []
    ensures TradeIds([event]) == if event.TradeExecuted? then [event.tradeId] else []
  {
    assert [event][1..] == [];
  }

  /** A step numbers its accepted order and its trades from where the engine stood. */
  ghost predicate NumbersOn(e: Engine, s: StepResult) {
    && s.engine.nextOrderId >= e.nextOrderId && s.engine.nextTradeId >= e.nextTradeId
    && AcceptedIds(s.events) == Count(e.nextOrderId, s.engine.nextOrderId - e.nextOrderId)
    && TradeIds(s.events) == Count(e.nextTradeId, s.engine.nextTradeId - e.nextTradeId)
    && s.engine.executionCount == e.executionCount + |TradeIds(s.events)|
  }

  lemma AcceptedIdsJoin(a: seq<EngineEvent>, b: seq<EngineEvent>, c: seq<EngineEvent>)
    ensures AcceptedIds(a + b + c) == AcceptedIds(a) + AcceptedIds(b) + AcceptedIds(c)
  {
    AcceptedIdsAppend(a + b, c);
    AcceptedIdsAppend(a, b);
  }

  lemma TradeIdsJoin(a: seq<EngineEvent>, b: seq<EngineEvent>, c: seq<EngineEvent>)
    ensures TradeIds(a + b + c) == TradeIds(a) + TradeIds(b) + TradeIds(c)
  {
    TradeIdsAppend(a + b, c);
    TradeIdsAppend(a, b);
  }

  lemma NothingAround<T>(s: seq<T>)
    ensures [] + s + [] == s && s + [] + [] == s
  {
  }

  lemma AnswerIds(c: NewOrderCommand, id: nat, executions: seq<MatchExecution>, firstTrade: nat,
                  rested: seq<EngineEvent>)
    requires rested == [] || (|rested| == 1 && rested[0].OrderRested?)
    ensures AcceptedIds([Accepted(c, id)] + Trades(executions, firstTrade) + rested) == [id]
    ensures TradeIds([Accepted(c, id)] + Trades(executions, firstTrade) + rested) == Count(firstTrade, |executions|)
  {
    var accepted, trades := [Accepted(c, id)], Trades(executions, firstTrade);
    IdsOne(Accepted(c, id));
    TradeIdsOf(executions, firstTrade);
    QuietIds(rested);
    AcceptedIdsJoin(accepted, trades, rested);
    TradeIdsJoin(accepted, trades, rested);
    NothingAround([id]);
    NothingAround(Count(firstTrade, |executions|));
  }

  lemma QuietIds(events: seq<EngineEvent>)
    requires events == [] || (|events| == 1 && events[0].OrderRested?)
    ensures AcceptedIds(events) == [] && TradeIds(events) == []
  {
    if events != [] {
      assert events == [events[0]];
      IdsOne(events[0]);
    }
  }

  lemma StepIds(e: Engine, command: EngineCommand)
    ensures NumbersOn(e, Step(e, command))
  {
    if command.NewOrder? && NewOrderError(e, command.newOrder).None? {
      var c := command.newOrder;
      var (book, rest, executions) := Execute(e.book, Incoming(c, e.nextOrderId));
      AnswerIds(c, e.nextOrderId, executions, e.nextTradeId, if rest.remaining > 0 then [Rested(rest)] else []);
    } else {
      var s := Step(e, command);
      IdsOne(s.events[0]);
      assert s.events == [s.events[0]];
    }
  }

  /** Everything so far is numbered 1, 2, 3, ... */
  ghost predicate Numbered(r: StepResult) {
    && r.engine.nextOrderId >= 1
    && AcceptedIds(r.events) == Count(1, r.engine.nextOrderId - 1)
    && TradeIds(r.events) == Count(1, r.engine.executionCount)
    && r.engine.nextTradeId == r.engine.executionCount + 1
  }

  lemma NumbersJoin(r: StepResult, s: StepResult)
    requires Numbered(r) && NumbersOn(r.engine, s)
    ensures Numbered(StepResult(s.engine, r.events + s.events))
  {
    IdsAppend(r.events, s.events);
    CountJoins(1, r.engine.nextOrderId - 1, s.engine.nextOrderId - r.engine.nextOrderId);
    CountJoins(1, r.engine.executionCount, s.engine.nextTradeId - r.engine.nextTradeId);
  }

  /** MAIN RESULT. Over any run, accepted order ids and trade ids are each numbered 1, 2, 3, ... without
      a gap, and the execution count is the number of trades reported. */
  lemma {:induction false} NumberingIsGapless(symbolId: Word, config: OrderBookConfig, commands: seq<EngineCommand>)
    ensures Numbered(Run(FreshEngine(symbolId, config), commands))
  {
    if commands != [] {
      var before, last := commands[..|commands| - 1], commands[|commands| - 1];
      NumberingIsGapless(symbolId, config, before);
      var r := Run(FreshEngine(symbolId, config), before);
      StepIds(r.engine, last);
      NumbersJoin(r, Step(r.engine, last));
    }
  }

  lemma CountJoins(start: nat, m: nat, n: nat)
    ensures Count(start, m) + Count(start + m, n) == Count(start, m + n)
  {
  }

  // ---------------------------------------------------------------- resting and cancelling back

  lemma EnqueueThenDrop(q: seq<OrderInfo>, o: OrderInfo)
    requires forall i :: 0 <= i < |q| ==> q[i].orderId != o.orderId
    ensures Holds(Enqueue(q, o), o.orderId)
    ensures Enqueue(q, o)[Position(Enqueue(q, o), o.orderId)] == o
    ensures Drop(Enqueue(q, o), o.orderId) == q
  {
    var k := Place(q, o);
    EnqueueInserts(q, o);
    PositionBehind(q[..k], o, q[k..]);
    assert RemoveAt(q[..k] + [o] + q[k..], k) == q;
  }

  lemma RestThenRemove(b: Book, a: OrderInfo)
    requires forall i :: 0 <= i < |b.bids| ==> b.bids[i].orderId != a.orderId
    requires forall i :: 0 <= i < |b.asks| ==> b.asks[i].orderId != a.orderId
    ensures var b' := b.With(a.side, Enqueue(b.Queue(a.side), a));
      Find(b', a.orderId) == Some(a) && Remove(b', a.orderId) == b
  {
    EnqueueThenDrop(b.Queue(a.side), a);
    NotHeld(b.Queue(Opposite(a.side)), a.orderId);
  }

  lemma NotHeld(q: seq<OrderInfo>, id: nat)
    requires forall i :: 0 <= i < |q| ==> q[i].orderId != id
    ensures !Holds(q, id) && Drop(q, id) == q
  {
  }

  lemma RestsWithoutTrading(e: Engine, command: NewOrderCommand)
    requires NewOrderError(e, command).None?
    requires Fill(Incoming(command, e.nextOrderId), e.book.Queue(Opposite(command.side))).executions == []
    ensures var a := Incoming(command, e.nextOrderId);
      var r := StepNewOrder(e, command);
      && r.events == [Accepted(command, e.nextOrderId), Rested(a)]
      && r.engine.symbolId == e.symbolId
      && r.engine.book == e.book.With(a.side, Enqueue(e.book.Queue(a.side), a))
  {
    var a := Incoming(command, e.nextOrderId);
    var across := e.book.Queue(Opposite(a.side));
    assert Fill(a, across) == FillResult(a, across, []);
    assert Execute(e.book, a).1 == a && Execute(e.book, a).2 == [];
    assert Trades([], e.nextTradeId) == [];
    assert [Accepted(command, e.nextOrderId)] + [] + [Rested(a)] == [Accepted(command, e.nextOrderId), Rested(a)];
  }

  /** MAIN RESULT. An accepted order that rests without trading, then is cancelled by its owner, restores
      the book exactly: every other order, its place and its quantity. */
  lemma CancelUndoesRest(e: Engine, command: NewOrderCommand, seqNo: nat)
    requires Valid(e) && NewOrderError(e, command).None?
    requires Fill(Incoming(command, e.nextOrderId), e.book.Queue(Opposite(command.side))).executions == []
    ensures var r := StepNewOrder(e, command);
      var cancel := CancelOrderCommand(seqNo, e.nextOrderId, command.clientOrderId, command.clientId, command.symbolId);
      var s := StepCancel(r.engine, cancel);
      && r.events == [Accepted(command, e.nextOrderId), Rested(Incoming(command, e.nextOrderId))]
      && s.events == [Cancelled(seqNo, Incoming(command, e.nextOrderId))]
      && s.engine.book == e.book
  {
    RestsWithoutTrading(e, command);
    RestThenRemove(e.book, Incoming(command, e.nextOrderId));
  }
}
