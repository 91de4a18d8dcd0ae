/** Which answer each command gets, stated over the events and the fields of the command alone. */
module CommandAnswers {
  import opened Words
  import opened Wrappers
  import opened Types
  import opened BookSpec
  import opened Matching
  import opened BookTheory
  import opened EngineSpec

  /** The single event that refuses a new order. */
  function RefusalOfNew(c: NewOrderCommand, reason: RejectReason): seq<EngineEvent> {
    [CommandRejected(seqNo := c.seqNo, clientOrderId := c.clientOrderId, clientId := c.clientId,
                     symbolId := c.symbolId, commandType := NewOrderType, reason := reason)]
  }

  /** The single event that refuses a cancel. */
  function RefusalOfCancel(c: CancelOrderCommand, reason: RejectReason): seq<EngineEvent> {
    [CommandRejected(seqNo := c.seqNo, clientOrderId := c.clientOrderId, clientId := c.clientId,
                     symbolId := c.symbolId, commandType := CancelOrderType, reason := reason)]
  }

  /** The event that accepts a new order under an id. */
  function AcceptanceOf(c: NewOrderCommand, id: nat): EngineEvent {
    OrderAccepted(seqNo := c.seqNo, orderId := id, clientOrderId := c.clientOrderId, clientId := c.clientId,
                  symbolId := c.symbolId, side := c.side, orderType := c.orderType, tif := c.tif,
                  price := c.price, quantity := c.quantity)
  }

  /** MAIN RESULT. A new order is refused with the first of these reasons that applies, or accepted under the
      next id with its own fields. */
  lemma NewOrderIsAnswered(e: Engine, c: NewOrderCommand)
    requires Valid(e)
    ensures var events := Step(e, NewOrder(c)).events;
      if c.orderType == Market then events == RefusalOfNew(c, UnsupportedOrderType)
      else if c.tif == IOC || c.tif == FOK then events == RefusalOfNew(c, UnsupportedTimeInForce)
      else if c.symbolId != e.symbolId then events == RefusalOfNew(c, UnknownSymbol)
      else if c.quantity == 0 then events == RefusalOfNew(c, InvalidQuantity)
      else if c.price >= e.config.priceLevelCount then events == RefusalOfNew(c, InvalidPrice)
      else if |e.book.bids| + |e.book.asks| == e.config.maxActiveOrders then
        events == RefusalOfNew(c, CapacityExhausted)
      else
        events != [] && events[0] == AcceptanceOf(c, e.nextOrderId)
  {
    if NewOrderError(e, c) == Some(MatchingEngineError) {
      FoundOrder(e, e.nextOrderId);
    }
  }

  /** MAIN RESULT. Acceptance, exactly. */
  lemma AcceptedIff(e: Engine, c: NewOrderCommand)
    requires Valid(e)
    ensures (exists event :: event in Step(e, NewOrder(c)).events && event.OrderAccepted?)
      <==> && c.orderType == Limit && c.tif == GFD && c.symbolId == e.symbolId
           && c.quantity > 0 && c.price < e.config.priceLevelCount
           && |e.book.bids| + |e.book.asks| < e.config.maxActiveOrders
  {
    NewOrderIsAnswered(e, c);
    var events := Step(e, NewOrder(c)).events;
    if events[0].OrderAccepted? {
      assert events[0] in events;
    } else {
      assert events == [events[0]];
    }
  }

  /** MAIN RESULT. A cancel is refused for a foreign symbol, then for an id that does not rest, then for
      another owner; else exactly that order goes, and what was left of it is reported. */
  lemma CancelIsAnswered(e: Engine, c: CancelOrderCommand)
    requires Valid(e)
    ensures var events := Step(e, CancelOrder(c)).events;
      if c.symbolId != e.symbolId then events == RefusalOfCancel(c, UnknownSymbol)
      else if forall o :: o in e.book.bids || o in e.book.asks ==> o.orderId != c.orderId then
        events == RefusalOfCancel(c, UnknownOrder)
      else forall o :: (o in e.book.bids || o in e.book.asks) && o.orderId == c.orderId ==>
        if o.clientId != c.clientId || o.clientOrderId != c.clientOrderId then
          events == RefusalOfCancel(c, NotOrderOwner)
        else
          events == [OrderCancelled(seqNo := c.seqNo, orderId := o.orderId, clientOrderId := o.clientOrderId,
                                    clientId := o.clientId, symbolId := o.symbolId, side := o.side,
                                    price := o.price, cancelledQuantity := o.remaining)]
  {
    forall o | (o in e.book.bids || o in e.book.asks) && o.orderId == c.orderId
      ensures Find(e.book, c.orderId) == Some(o)
    {
      FindIsTheOrder(e, o);
    }
    FoundIsMember(e.book.bids, c.orderId);
    FoundIsMember(e.book.asks, c.orderId);
  }

  lemma FindIsTheOrder(e: Engine, o: OrderInfo)
    requires Valid(e) && (o in e.book.bids || o in e.book.asks)
    ensures Find(e.book, o.orderId) == Some(o)
  {
    var b := e.book;
    FoundIsMember(b.bids, o.orderId);
    FoundIsMember(b.asks, o.orderId);
    HeldOnOneSide(b, o.orderId, e.config.priceLevelCount, e.symbolId, e.nextOrderId);
    if o in b.bids {
      OnlyOne(b.bids, o);
    } else {
      OnlyOne(b.asks, o);
    }
  }

  lemma OnlyOne(q: seq<OrderInfo>, o: OrderInfo)
    requires DistinctIds(q) && o in q
    ensures Holds(q, o.orderId) && q[Position(q, o.orderId)] == o
  {
    var i :| 0 <= i < |q| && q[i] == o;
    assert Position(q, o.orderId) <= i;
  }

  /** A successful cancel takes away exactly the orders of that id. */
  lemma CancelTakesOnlyItsOrder(e: Engine, c: CancelOrderCommand, x: OrderInfo)
    requires Valid(e) && Step(e, CancelOrder(c)).events[0].OrderCancelled?
    ensures var e' := Step(e, CancelOrder(c)).engine;
      && (x in e'.book.bids <==> x in e.book.bids && x.orderId != c.orderId)
      && (x in e'.book.asks <==> x in e.book.asks && x.orderId != c.orderId)
      && e' == e.(book := e'.book)
  {
    var o := CancelTarget(e.symbolId, e.book, c).value;
    FoundOrder(e, c.orderId);
    DropMembers(e.book.bids, c.orderId, x);
    DropMembers(e.book.asks, c.orderId, x);
  }

  /** A replace is always refused as an engine error, and changes nothing. */
  lemma ReplaceIsRefused(e: Engine, c: ReplaceOrderCommand)
    ensures Step(e, ReplaceOrder(c)) == StepResult(e, [
      CommandRejected(seqNo := c.seqNo, clientOrderId := c.oldClientOrderId, clientId := c.clientId,
                      symbolId := c.symbolId, commandType := ReplaceOrderType, reason := MatchingEngineError)])
  {
  }

  /** MAIN RESULT. No command trades beyond its limit, and what rests of it rests strictly inside the best
      price of the other side. */
  lemma TradesWithinLimit(e: Engine, c: NewOrderCommand)
    requires Valid(e)
    ensures var s := Step(e, NewOrder(c));
      forall event :: event in s.events ==>
        && (event.TradeExecuted? && c.side == Buy ==> event.execution.price <= c.price)
        && (event.TradeExecuted? && c.side == Sell ==> c.price <= event.execution.price)
        && (event.OrderRested? && c.side == Buy ==> forall o :: o in s.engine.book.asks ==> c.price < o.price)
        && (event.OrderRested? && c.side == Sell ==> forall o :: o in s.engine.book.bids ==> o.price < c.price)
  {
    if NewOrderError(e, c).None? {
      var a := Incoming(c, e.nextOrderId);
      var across := e.book.Queue(Opposite(c.side));
      var f := Fill(a, across);
      AcceptedTradesWithinLimit(a, across, e.nextTradeId);
      if f.aggressor.remaining > 0 {
        NoneWithinLimit(e, c);
      }
    }
  }

  lemma AcceptedTradesWithinLimit(a: OrderInfo, q: seq<OrderInfo>, firstTrade: nat)
    requires Positive(q) && InPriorityOrder(Opposite(a.side), q)
    ensures forall event :: event in Trades(Fill(a, q).executions, firstTrade) ==>
      && event.TradeExecuted?
      && (a.side == Buy ==> event.execution.price <= a.price)
      && (a.side == Sell ==> a.price <= event.execution.price)
  {
    var xs := Fill(a, q).executions;
    forall i | 0 <= i < |xs|
      ensures (a.side == Buy ==> xs[i].price <= a.price) && (a.side == Sell ==> a.price <= xs[i].price)
    {
      if q != [] {
        TradesAreGreedy(a, q, 0);
      }
      LimitIsRespected(a, q, i);
    }
  }

  lemma NoneWithinLimit(e: Engine, c: NewOrderCommand)
    requires Valid(e) && NewOrderError(e, c).None?
    requires Fill(Incoming(c, e.nextOrderId), e.book.Queue(Opposite(c.side))).aggressor.remaining > 0
    ensures var b' := Step(e, NewOrder(c)).engine.book;
      && (c.side == Buy ==> forall o :: o in b'.asks ==> c.price < o.price)
      && (c.side == Sell ==> forall o :: o in b'.bids ==> o.price < c.price)
  {
    var a := Incoming(c, e.nextOrderId);
    var f := Fill(a, e.book.Queue(Opposite(c.side)));
    var b' := Step(e, NewOrder(c)).engine.book;
    StepKeepsValid(e, NewOrder(c));
    FillStops(a, e.book.Queue(Opposite(c.side)));
    EnqueueMembers(e.book.Queue(c.side), f.aggressor, f.aggressor);
    assert f.aggressor in b'.Queue(c.side) && f.aggressor.price == c.price;
  }

  /** MAIN RESULT. ... and so for every command of any run: no buyer pays more and no seller gets less than the
      price of its command. */
  lemma RunTradesWithinLimits(symbolId: Word, config: OrderBookConfig, commands: seq<EngineCommand>, k: nat)
    requires k < |commands| && commands[k].NewOrder?
    ensures var c := commands[k].newOrder;
      forall event :: event in Step(Run(FreshEngine(symbolId, config), commands[..k]).engine, commands[k]).events ==>
        && (event.TradeExecuted? && c.side == Buy ==> event.execution.price <= c.price)
        && (event.TradeExecuted? && c.side == Sell ==> c.price <= event.execution.price)
  {
    FreshIsValid(symbolId, config);
    RunKeepsValid(FreshEngine(symbolId, config), commands[..k]);
    TradesWithinLimit(Run(FreshEngine(symbolId, config), commands[..k]).engine, commands[k].newOrder);
  }

  /** MAIN RESULT. Priority in numbers: bids from high to low, asks from low to high, equal prices by age. */
  lemma PriorityInNumbers(e: Engine)
    requires Valid(e)
    ensures forall i, j :: 0 <= i < j < |e.book.bids| ==>
      var x, y := e.book.bids[i], e.book.bids[j];
      x.price > y.price || (x.price == y.price && x.orderId < y.orderId)
    ensures forall i, j :: 0 <= i < j < |e.book.asks| ==>
      var x, y := e.book.asks[i], e.book.asks[j];
      x.price < y.price || (x.price == y.price && x.orderId < y.orderId)
    ensures forall x, y :: x in e.book.bids && y in e.book.asks ==> x.price < y.price
  {
    forall i, j | 0 <= i < j < |e.book.bids|
      ensures var x, y := e.book.bids[i], e.book.bids[j];
        x.price > y.price || (x.price == y.price && x.orderId < y.orderId)
    {
      assert Ahead(Buy, e.book.bids[i], e.book.bids[j]);
    }
    forall i, j | 0 <= i < j < |e.book.asks|
      ensures var x, y := e.book.asks[i], e.book.asks[j];
        x.price < y.price || (x.price == y.price && x.orderId < y.orderId)
    {
      assert Ahead(Sell, e.book.asks[i], e.book.asks[j]);
    }
  }
}
