/** Whose order an event speaks of: over whole runs, every field that a trade, a rest or a cancellation reports
    is a field of an order accepted in that run, and every trade keeps both limits. */
module Provenance {
  import opened Words
  import opened Types
  import opened BookSpec
  import opened Matching
  import opened BookTheory
  import opened EngineSpec

  /** The order carries the fields that its acceptance reported. */
  predicate From(o: OrderInfo, a: EngineEvent) {
    && a.OrderAccepted?
    && o.orderId == a.orderId && o.clientOrderId == a.clientOrderId && o.clientId == a.clientId
    && o.symbolId == a.symbolId && o.side == a.side && o.price == a.price && o.seqNo == a.seqNo
  }

  /** The execution is between two accepted orders of opposite sides: it names each of them by its own
      fields, happens at the price of the resting one, and is within the limit of the other. */
  predicate Between(x: MatchExecution, aggressor: EngineEvent, resting: EngineEvent) {
    && aggressor.OrderAccepted? && resting.OrderAccepted?
    && x.aggressingOrderId == aggressor.orderId && x.aggressingClientOrderId == aggressor.clientOrderId
    && x.aggressingClientId == aggressor.clientId && x.aggressingSide == aggressor.side
    && x.seqNo == aggressor.seqNo && x.symbolId == aggressor.symbolId
    && x.restingOrderId == resting.orderId && x.restingClientOrderId == resting.clientOrderId
    && x.restingClientId == resting.clientId && x.symbolId == resting.symbolId
    && x.price == resting.price
    && (aggressor.side == Buy ==> resting.side == Sell && x.price <= aggressor.price)
    && (aggressor.side == Sell ==> resting.side == Buy && aggressor.price <= x.price)
  }

  ghost predicate Placed(log: seq<EngineEvent>, o: OrderInfo) {
    exists a :: a in log && From(o, a)
  }

  ghost predicate Founded(log: seq<EngineEvent>, event: EngineEvent) {
    match event
    case TradeExecuted(_, x) => exists a, b :: a in log && b in log && Between(x, a, b)
    case OrderRested(seqNo, id, clientOrderId, clientId, symbolId, side, price, remaining) =>
      Placed(log, OrderInfo(id, clientOrderId, clientId, symbolId, side, price, remaining, seqNo))
    case OrderCancelled(_, id, clientOrderId, clientId, symbolId, side, price, _) =>
      exists seqNo: nat :: Placed(log, OrderInfo(id, clientOrderId, clientId, symbolId, side, price, 0, seqNo))
    case _ => true
  }

  ghost predicate AllPlaced(log: seq<EngineEvent>, q: seq<OrderInfo>) {
    forall i :: 0 <= i < |q| ==> Placed(log, q[i])
  }

  ghost predicate AllFounded(log: seq<EngineEvent>, events: seq<EngineEvent>) {
    forall i :: 0 <= i < |events| ==> Founded(log, events[i])
  }

  // ---------------------------------------------------------------- the log only grows

  lemma PlacedLater(log: seq<EngineEvent>, more: seq<EngineEvent>, o: OrderInfo)
    requires Placed(log, o)
    ensures Placed(log + more, o)
  {
    var a :| a in log && From(o, a);
    assert a in log + more;
  }

  lemma FoundedLater(log: seq<EngineEvent>, more: seq<EngineEvent>, event: EngineEvent)
    requires Founded(log, event)
    ensures Founded(log + more, event)
  {
    match event
    case TradeExecuted(_, x) =>
      var a, b :| a in log && b in log && Between(x, a, b);
      assert a in log + more && b in log + more;
    case OrderRested(seqNo, id, clientOrderId, clientId, symbolId, side, price, remaining) =>
      PlacedLater(log, more, OrderInfo(id, clientOrderId, clientId, symbolId, side, price, remaining, seqNo));
    case OrderCancelled(_, id, clientOrderId, clientId, symbolId, side, price, _) =>
      var seqNo: nat :| Placed(log, OrderInfo(id, clientOrderId, clientId, symbolId, side, price, 0, seqNo));
      PlacedLater(log, more, OrderInfo(id, clientOrderId, clientId, symbolId, side, price, 0, seqNo));
    case _ =>
  }

  lemma AllPlacedLater(log: seq<EngineEvent>, more: seq<EngineEvent>, q: seq<OrderInfo>)
    requires AllPlaced(log, q)
    ensures AllPlaced(log + more, q)
  {
    forall i | 0 <= i < |q|
      ensures Placed(log + more, q[i])
    {
      PlacedLater(log, more, q[i]);
    }
  }

  lemma AllFoundedLater(log: seq<EngineEvent>, more: seq<EngineEvent>, events: seq<EngineEvent>)
    requires AllFounded(log, events)
    ensures AllFounded(log + more, events)
  {
    forall i | 0 <= i < |events|
      ensures Founded(log + more, events[i])
    {
      FoundedLater(log, more, events[i]);
    }
  }

  lemma PlacedWithQuantity(log: seq<EngineEvent>, o: OrderInfo, remaining: Word)
    requires Placed(log, o)
    ensures Placed(log, o.(remaining := remaining))
  {
    var a :| a in log && From(o, a);
    assert From(o.(remaining := remaining), a);
  }

  // ---------------------------------------------------------------- one command

  /** An execution names the aggressor and the order at its position by their own fields. */
  lemma {:induction false} ExecutionNames(a: OrderInfo, q: seq<OrderInfo>, i: nat)
    requires i < |Fill(a, q).executions|
    ensures i < |q|
    ensures var x := Fill(a, q).executions[i];
      && x.seqNo == a.seqNo && x.symbolId == a.symbolId && x.aggressingSide == a.side
      && x.aggressingOrderId == a.orderId && x.aggressingClientOrderId == a.clientOrderId
      && x.aggressingClientId == a.clientId
      && x.restingOrderId == q[i].orderId && x.restingClientOrderId == q[i].clientOrderId
      && x.restingClientId == q[i].clientId && x.price == q[i].price
    decreases |q|
  {
    if i > 0 {
      var rest := Fill(Reduce(a, q[0].remaining), q[1..]);
      assert Fill(a, q).executions[i] == rest.executions[i - 1];
      ExecutionNames(Reduce(a, q[0].remaining), q[1..], i - 1);
    }
  }

  lemma TradesFounded(log: seq<EngineEvent>, a: OrderInfo, q: seq<OrderInfo>, levels: Word, nextId: nat, firstTrade: nat)
    requires Members(Opposite(a.side), levels, a.symbolId, nextId, q) && InPriorityOrder(Opposite(a.side), q)
    requires Placed(log, a) && AllPlaced(log, q)
    ensures AllFounded(log, Trades(Fill(a, q).executions, firstTrade))
  {
    var xs := Fill(a, q).executions;
    forall i | 0 <= i < |xs|
      ensures Founded(log, Trades(xs, firstTrade)[i])
    {
      ExecutionNames(a, q, i);
      LimitIsRespected(a, q, i);
      assert Placed(log, q[i]);
      var accepted :| accepted in log && From(a, accepted);
      var resting :| resting in log && From(q[i], resting);
      assert Between(xs[i], accepted, resting);
    }
  }

  lemma RearPlaced(log: seq<EngineEvent>, q': seq<OrderInfo>, q: seq<OrderInfo>)
    requires RearOf(q', q) && AllPlaced(log, q)
    ensures AllPlaced(log, q')
  {
    forall i | 0 <= i < |q'|
      ensures Placed(log, q'[i])
    {
      var k := |q| - |q'| + i;
      assert Placed(log, q[k]) && q'[i] == q[k].(remaining := q'[i].remaining);
      PlacedWithQuantity(log, q[k], q'[i].remaining);
    }
  }

  lemma EnqueuePlaced(log: seq<EngineEvent>, q: seq<OrderInfo>, o: OrderInfo)
    requires AllPlaced(log, q) && Placed(log, o)
    ensures AllPlaced(log, Enqueue(q, o))
  {
    EnqueueInserts(q, o);
  }

  lemma DropPlaced(log: seq<EngineEvent>, q: seq<OrderInfo>, id: nat)
    requires AllPlaced(log, q)
    ensures AllPlaced(log, Drop(q, id))
  {
    forall i | 0 <= i < |Drop(q, id)|
      ensures Placed(log, Drop(q, id)[i])
    {
      assert Drop(q, id)[i] == if i < Position(q, id) then q[i] else q[i + 1];
    }
  }

  ghost predicate BookPlaced(log: seq<EngineEvent>, b: Book) {
    AllPlaced(log, b.bids) && AllPlaced(log, b.asks)
  }

  lemma NewOrderFounded(log: seq<EngineEvent>, e: Engine, c: NewOrderCommand)
    requires Valid(e) && NewOrderError(e, c).None? && BookPlaced(log, e.book)
    ensures var s := StepNewOrder(e, c);
      AllFounded(log + s.events, s.events) && BookPlaced(log + s.events, s.engine.book)
  {
    var a := Incoming(c, e.nextOrderId);
    var across, own := e.book.Queue(Opposite(a.side)), e.book.Queue(a.side);
    var f := Fill(a, across);
    var s := StepNewOrder(e, c);
    var log' := log + s.events;
    AllPlacedLater(log, s.events, across);
    AllPlacedLater(log, s.events, own);
    assert s.events[0] in log' && From(a, s.events[0]);
    TradesFounded(log', a, across, e.config.priceLevelCount, e.nextOrderId, e.nextTradeId);
    FillStops(a, across);
    FillLeavesRear(a, across);
    RearPlaced(log', f.queue, across);
    PlacedWithQuantity(log', a, f.aggressor.remaining);
    EnqueuePlaced(log', own, f.aggressor);
    AnswerFounded(log', c, e.nextOrderId, Trades(f.executions, e.nextTradeId), f.aggressor);
  }

  lemma AnswerFounded(log: seq<EngineEvent>, c: NewOrderCommand, id: nat, trades: seq<EngineEvent>, rest: OrderInfo)
    requires AllFounded(log, trades) && Placed(log, rest)
    ensures AllFounded(log, [Accepted(c, id)] + trades + (if rest.remaining > 0 then [Rested(rest)] else []))
  {
    var last := if rest.remaining > 0 then [Rested(rest)] else [];
    var events := [Accepted(c, id)] + trades + last;
    forall i | 0 <= i < |events|
      ensures Founded(log, events[i])
    {
      assert 0 < i <= |trades| ==> events[i] == trades[i - 1];
      assert i > |trades| ==> events[i] == Rested(rest);
    }
  }

  lemma CancelFounded(log: seq<EngineEvent>, e: Engine, c: CancelOrderCommand)
    requires Valid(e) && BookPlaced(log, e.book)
    ensures var s := StepCancel(e, c);
      AllFounded(log + s.events, s.events) && BookPlaced(log + s.events, s.engine.book)
  {
    var s := StepCancel(e, c);
    DropPlaced(log, e.book.bids, c.orderId);
    DropPlaced(log, e.book.asks, c.orderId);
    AllPlacedLater(log, s.events, s.engine.book.bids);
    AllPlacedLater(log, s.events, s.engine.book.asks);
    if CancelTarget(e.symbolId, e.book, c).Ok? {
      var o := CancelTarget(e.symbolId, e.book, c).value;
      FoundOrder(e, c.orderId);
      assert o in e.book.bids || o in e.book.asks;
      assert Placed(log, o);
      PlacedWithQuantity(log, o, 0);
      PlacedLater(log, s.events, o.(remaining := 0));
    }
  }

  lemma StepFounded(log: seq<EngineEvent>, e: Engine, command: EngineCommand)
    requires Valid(e) && BookPlaced(log, e.book)
    ensures var s := Step(e, command);
      AllFounded(log + s.events, s.events) && BookPlaced(log + s.events, s.engine.book)
  {
    var s := Step(e, command);
    match command
    case NewOrder(c) =>
      if NewOrderError(e, c).None? {
        NewOrderFounded(log, e, c);
      } else {
        AllPlacedLater(log, s.events, e.book.bids);
        AllPlacedLater(log, s.events, e.book.asks);
      }
    case CancelOrder(c) => CancelFounded(log, e, c);
    case ReplaceOrder(c) =>
      AllPlacedLater(log, s.events, e.book.bids);
      AllPlacedLater(log, s.events, e.book.asks);
  }

  // ---------------------------------------------------------------- runs

  lemma FoundedJoin(log: seq<EngineEvent>, first: seq<EngineEvent>, second: seq<EngineEvent>)
    requires AllFounded(log, first) && AllFounded(log, second)
    ensures AllFounded(log, first + second)
  {
    forall i | 0 <= i < |first + second|
      ensures Founded(log, (first + second)[i])
    {
      assert (first + second)[i] == if i < |first| then first[i] else second[i - |first|];
    }
  }

  /** MAIN RESULT. In the events of any run, every trade is between two accepted orders that it names by their
      own fields, at the resting order's price and within the aggressor's limit; and every order rested,
      cancelled or standing in the book carries the fields it was accepted with. */
  lemma {:induction false} EveryEventIsFounded(symbolId: Word, config: OrderBookConfig, commands: seq<EngineCommand>)
    ensures var r := Run(FreshEngine(symbolId, config), commands);
      AllFounded(r.events, r.events) && BookPlaced(r.events, r.engine.book)
  {
    var e := FreshEngine(symbolId, config);
    FreshIsValid(symbolId, config);
    if commands != [] {
      var before, last := commands[..|commands| - 1], commands[|commands| - 1];
      EveryEventIsFounded(symbolId, config, before);
      RunKeepsValid(e, before);
      var r := Run(e, before);
      var s := Step(r.engine, last);
      StepFounded(r.events, r.engine, last);
      AllFoundedLater(r.events, s.events, r.events);
      FoundedJoin(r.events + s.events, r.events, s.events);
    }
  }
}
