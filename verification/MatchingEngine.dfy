/** The matching engine (src/engine/MatchingEngine.cpp). Its event sink is the append-only log `events`;
    the sinks do not call back into the engine. */
module MatchingEngines {
  import opened Words
  import opened Wrappers
  import opened Types
  import opened BookSpec
  import opened Matching
  import opened EngineSpec
  import opened OrderBooks

  /** What an accepted order does to the engine and to the event log. */
  ghost predicate AcceptedStep(e: Engine, command: NewOrderCommand, e': Engine,
                               events': seq<EngineEvent>, events: seq<EngineEvent>)
  {
    var (b, rest, executions) := BookSpec.Execute(e.book, Incoming(command, e.nextOrderId));
    && e' == Engine(e.symbolId, e.config, b, e.nextOrderId + 1, e.nextTradeId + |executions|,
                    e.executionCount + |executions|)
    && events' == events + [Accepted(command, e.nextOrderId)] + Trades(executions, e.nextTradeId)
                  + (if rest.remaining > 0 then [Rested(rest)] else [])
  }

  lemma AcceptedIsStep(e: Engine, command: NewOrderCommand, e': Engine,
                       events': seq<EngineEvent>, events: seq<EngineEvent>)
    requires NewOrderError(e, command).None? && AcceptedStep(e, command, e', events', events)
    ensures e' == StepNewOrder(e, command).engine
    ensures events' == events + StepNewOrder(e, command).events
  {
  }

  class MatchingEngine {
    const book: OrderBook
    var nextOrderId: nat
    var nextTradeId: nat
    var events: seq<EngineEvent>

    /** The reference engine that this one stands for. */
    ghost function State(): Engine
      reads this, book
    {
      Engine(book.symbolId, book.config, book.view.book, nextOrderId, nextTradeId, book.executionCount)
    }

    ghost predicate Valid()
      reads this, book, book.orders, book.orders.orders, book.ordersById, book.ordersById.entries, book.levelSet
    {
      && book.Valid()
      && book.view.layout.loose == {}
      && EngineSpec.Valid(State())
    }

    /** MAIN RESULT. Between commands the cached best prices never cross, and each is the price of an order
        than which none of its side is better. */
    lemma NeverCrossed()
      requires Valid()
      ensures book.bestBid.Some? && book.bestAsk.Some? ==> book.bestBid.value < book.bestAsk.value
      ensures book.bestBid == None <==> book.view.book.bids == []
      ensures book.bestAsk == None <==> book.view.book.asks == []
      ensures forall o :: o in book.view.book.bids ==> o.price <= book.bestBid.value
      ensures forall o :: o in book.view.book.asks ==> book.bestAsk.value <= o.price
    {
      book.BestBidIsFront();
      book.BestAskIsFront();
      forall o | o in book.view.book.bids
        ensures o.price <= book.view.book.bids[0].price
      {
        var i :| 0 <= i < |book.view.book.bids| && book.view.book.bids[i] == o;
        assert i > 0 ==> Ahead(Buy, book.view.book.bids[0], book.view.book.bids[i]);
      }
      forall o | o in book.view.book.asks
        ensures book.view.book.asks[0].price <= o.price
      {
        var i :| 0 <= i < |book.view.book.asks| && book.view.book.asks[i] == o;
        assert i > 0 ==> Ahead(Sell, book.view.book.asks[0], book.view.book.asks[i]);
      }
    }

    constructor (symbolId: Word, config: OrderBookConfig, hash: nat -> Word)
      requires ValidConfig(config)
      ensures Valid() && State() == FreshEngine(symbolId, config) && events == []
      ensures fresh(book) && fresh(book.orders) && fresh(book.orders.orders)
      ensures fresh(book.ordersById) && fresh(book.ordersById.entries) && fresh(book.levelSet)
    {
      book := new OrderBook(symbolId, config, hash);
      nextOrderId := 1;
      nextTradeId := 1;
      events := [];
      new;
      FreshIsValid(symbolId, config);
    }

    /** Every command steps the reference engine and emits exactly its events. */
    method Process(command: EngineCommand)
      requires Valid()
      modifies this, book, book.orders, book.orders.orders, book.ordersById, book.ordersById.entries, book.levelSet
      ensures Valid()
      ensures State() == Step(old(State()), command).engine
      ensures events == old(events) + Step(old(State()), command).events
    {
      StepKeepsValid(State(), command);
      match command
      case NewOrder(c) => ProcessNewOrder(c);
      case CancelOrder(c) => ProcessCancelOrder(c);
      case ReplaceOrder(c) =>
        EmitRejection(c.seqNo, c.oldClientOrderId, c.clientId, c.symbolId, ReplaceOrderType, MatchingEngineError);
    }

    method ProcessNewOrder(command: NewOrderCommand)
      requires Valid() && EngineSpec.Valid(StepNewOrder(State(), command).engine)
      modifies this, book, book.orders, book.orders.orders, book.ordersById, book.ordersById.entries, book.levelSet
      ensures Valid()
      ensures State() == StepNewOrder(old(State()), command).engine
      ensures events == old(events) + StepNewOrder(old(State()), command).events
    {
      if command.orderType != Limit {
        EmitRejection(command.seqNo, command.clientOrderId, command.clientId, command.symbolId,
                      NewOrderType, UnsupportedOrderType);
        return;
      }
      if command.tif != GFD {
        EmitRejection(command.seqNo, command.clientOrderId, command.clientId, command.symbolId,
                      NewOrderType, UnsupportedTimeInForce);
        return;
      }
      var orderId := nextOrderId;
      var admitted := book.Admit(command, orderId);
      if admitted.Err? {
        EmitRejection(command.seqNo, command.clientOrderId, command.clientId, command.symbolId,
                      NewOrderType, admitted.error);
        return;
      }
      ghost var e, before := State(), events;
      RunAdmitted(command, orderId, admitted.value);
      AcceptedIsStep(e, command, State(), events, before);
    }

    /** The part of `process_new_order` behind a successful admission. */
    method RunAdmitted(command: NewOrderCommand, orderId: nat, slot: nat)
      requires book.Valid() && book.view.layout.loose == {slot} && orderId == nextOrderId
      requires slot < |book.view.layout.os| && book.view.layout.os[slot].info == Incoming(command, orderId)
      modifies this, book, book.orders, book.orders.orders, book.ordersById, book.ordersById.entries, book.levelSet
      ensures book.Valid() && book.view.layout.loose == {}
      ensures AcceptedStep(old(State()), command, State(), events, old(events))
    {
      FillStops(Incoming(command, orderId), book.view.book.Queue(Opposite(command.side)));
      nextOrderId := nextOrderId + 1;
      events := events + [OrderAccepted(
        command.seqNo, orderId, command.clientOrderId, command.clientId, command.symbolId,
        command.side, command.orderType, command.tif, command.price, command.quantity)];
      var remaining, rested, executions := book.Execute(slot);
      OnMatches(executions);
      assert events == old(events) + [Accepted(command, orderId)] + Trades(executions, old(nextTradeId));
      if rested {
        events := events + [OrderRested(
          command.seqNo, orderId, command.clientOrderId, command.clientId, command.symbolId,
          command.side, command.price, remaining)];
      }
    }

    /** The match sink's callback, once per execution in the order in which the book emitted them. */
    method OnMatches(executions: seq<MatchExecution>)
      modifies this`events, this`nextTradeId
      ensures events == old(events) + Trades(executions, old(nextTradeId))
      ensures nextTradeId == old(nextTradeId) + |executions|
    {
      for i := 0 to |executions|
        invariant events == old(events) + Trades(executions[..i], old(nextTradeId))
        invariant nextTradeId == old(nextTradeId) + i
      {
        TradesOneMore(executions, i, old(nextTradeId));
        OnMatch(executions[i]);
      }
      assert executions[..|executions|] == executions;
    }

    method OnMatch(execution: MatchExecution)
      modifies this`events, this`nextTradeId
      ensures events == old(events) + [TradeExecuted(old(nextTradeId), execution)]
      ensures nextTradeId == old(nextTradeId) + 1
    {
      var tradeId := nextTradeId;
      nextTradeId := nextTradeId + 1;
      events := events + [TradeExecuted(tradeId, execution)];
    }

    method ProcessCancelOrder(command: CancelOrderCommand)
      requires Valid() && EngineSpec.Valid(StepCancel(State(), command).engine)
      modifies this, book, book.orders, book.orders.orders, book.ordersById, book.ordersById.entries, book.levelSet
      ensures Valid()
      ensures State() == StepCancel(old(State()), command).engine
      ensures events == old(events) + StepCancel(old(State()), command).events
    {
      var result := book.Cancel(command);
      if result.Err? {
        EmitRejection(command.seqNo, command.clientOrderId, command.clientId, command.symbolId,
                      CancelOrderType, result.error);
        return;
      }
      var cancelled := result.value;
      events := events + [OrderCancelled(
        command.seqNo, cancelled.orderId, cancelled.clientOrderId, cancelled.clientId, cancelled.symbolId,
        cancelled.side, cancelled.price, cancelled.cancelledQuantity)];
    }

    method EmitRejection(seqNo: nat, clientOrderId: Word, clientId: Word, symbolId: Word,
                         commandType: CommandType, reason: RejectReason)
      modifies this`events
      ensures events == old(events) + [CommandRejected(seqNo, clientOrderId, clientId, symbolId, commandType, reason)]
    {
      events := events + [CommandRejected(seqNo, clientOrderId, clientId, symbolId, commandType, reason)];
    }
  }
}
