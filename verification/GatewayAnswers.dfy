/** What the gateway makes of each request, stated over the fields of the request, the message it is answered
    by and the orders in the book afterwards. */
module GatewayAnswers {
  import opened Words
  import opened Wrappers
  import opened Types
  import opened BookSpec
  import opened Matching
  import opened BookTheory
  import opened EngineSpec
  import opened CommandAnswers
  import opened Messages
  import opened GatewaySpec

  /** The requests that the gateway refuses itself: it sends one message and is as it was. */
  lemma GatewayRefusals(g: Gateway, request: InboundMessage)
    ensures request.NewOrderRequest? && request.clientOrderId in g.clientOrders ==>
      Handle(g, request) == HandleResult(g, [RejectedMessage(Some(request.clientOrderId), DuplicateClientOrderId)])
    ensures request.NewOrderRequest? && request.clientOrderId !in g.clientOrders && request.symbol != "AAPL" ==>
      Handle(g, request) == HandleResult(g, [RejectedMessage(Some(request.clientOrderId), UnknownSymbol)])
    ensures request.CancelOrderRequest? && request.symbol != "AAPL" ==>
      Handle(g, request) == HandleResult(g, [RejectedMessage(Some(request.clientOrderId), UnknownSymbol)])
    ensures request.CancelOrderRequest? && request.symbol == "AAPL" && request.clientOrderId !in g.clientOrders ==>
      Handle(g, request) == HandleResult(g, [RejectedMessage(Some(request.clientOrderId), UnknownOrder)])
  {
  }

  /** Any other new order reaches the engine field by field, under the next sequence number. */
  lemma NewRequestReachesEngine(g: Gateway, request: InboundMessage)
    requires request.NewOrderRequest? && request.clientOrderId !in g.clientOrders && request.symbol == "AAPL"
    ensures var c := NewOrderCommand(
        seqNo := g.nextSequence, price := request.price, quantity := request.quantity,
        clientOrderId := request.clientOrderId, clientId := 1, symbolId := 0,
        side := request.side, orderType := request.orderType, tif := request.tif);
      var r := Handle(g, request);
      && r.gateway.engine == Step(g.engine, NewOrder(c)).engine
      && r.gateway.nextSequence == g.nextSequence + 1
  {
  }

  /** MAIN RESULT. A new order with a fresh id for the exchange's symbol gets the first of these rejections that
      applies, or is accepted, and its id is put on record with the order id of the answer. */
  lemma NewRequestIsAnswered(g: Gateway, request: InboundMessage)
    requires GatewaySpec.Valid(g)
    requires request.NewOrderRequest? && request.clientOrderId !in g.clientOrders && request.symbol == "AAPL"
    ensures var r, id := Handle(g, request), request.clientOrderId;
      if request.orderType == Market then r.messages == [RejectedMessage(Some(id), UnsupportedOrderType)]
      else if request.tif == IOC || request.tif == FOK then
        r.messages == [RejectedMessage(Some(id), UnsupportedTimeInForce)]
      else if request.quantity == 0 then r.messages == [RejectedMessage(Some(id), InvalidQuantity)]
      else if request.price >= g.engine.config.priceLevelCount then
        r.messages == [RejectedMessage(Some(id), InvalidPrice)]
      else if |g.engine.book.bids| + |g.engine.book.asks| == g.engine.config.maxActiveOrders then
        r.messages == [RejectedMessage(Some(id), CapacityExhausted)]
      else
        && r.messages == [AcceptedMessage(id, g.engine.nextOrderId)]
        && r.gateway.clientOrders == g.clientOrders[id := g.engine.nextOrderId]
  {
    var c := NewOrderCommand(g.nextSequence, request.price, request.quantity, request.clientOrderId, CLIENT_ID, 0,
                             request.side, request.orderType, request.tif);
    NewOrderIsAnswered(g.engine, c);
    match NewOrderError(g.engine, c)
    case Some(reason) => OneEvent(g.clientOrders, RejectedNew(c, reason));
    case None => AcceptedEvents(g.clientOrders, g.engine, c);
  }

  /** MAIN RESULT. An accepted request that nothing on the other side meets rests with its own side, price and
      quantity, and the orders that were there stay as they were. */
  lemma AcceptedRequestRests(g: Gateway, request: InboundMessage)
    requires GatewaySpec.Valid(g)
    requires request.NewOrderRequest?
    requires Handle(g, request).messages == [AcceptedMessage(request.clientOrderId, g.engine.nextOrderId)]
    requires request.side == Buy ==> forall o :: o in g.engine.book.asks ==> request.price < o.price
    requires request.side == Sell ==> forall o :: o in g.engine.book.bids ==> o.price < request.price
    ensures var o := OrderInfo(
        orderId := g.engine.nextOrderId, clientOrderId := request.clientOrderId, clientId := 1, symbolId := 0,
        side := request.side, price := request.price, remaining := request.quantity, seqNo := g.nextSequence);
      var b, b' := g.engine.book, Handle(g, request).gateway.engine.book;
      && (forall x :: x in b'.bids <==> x in b.bids || (request.side == Buy && x == o))
      && (forall x :: x in b'.asks <==> x in b.asks || (request.side == Sell && x == o))
  {
    GatewayRefusals(g, request);
    NewRequestIsAnswered(g, request);
    var c := NewOrderCommand(g.nextSequence, request.price, request.quantity, request.clientOrderId, CLIENT_ID, 0,
                             request.side, request.orderType, request.tif);
    CapacityIsExact(g.engine, c);
    RestsUntouched(g.engine, c);
  }

  /** An admitted order that nothing meets joins its side whole. */
  lemma RestsUntouched(e: Engine, c: NewOrderCommand)
    requires EngineSpec.Valid(e) && NewOrderError(e, c).None?
    requires c.side == Buy ==> forall o :: o in e.book.asks ==> c.price < o.price
    requires c.side == Sell ==> forall o :: o in e.book.bids ==> o.price < c.price
    ensures var a, b' := Incoming(c, e.nextOrderId), Step(e, NewOrder(c)).engine.book;
      && (forall x :: x in b'.bids <==> x in e.book.bids || (c.side == Buy && x == a))
      && (forall x :: x in b'.asks <==> x in e.book.asks || (c.side == Sell && x == a))
  {
    var a := Incoming(c, e.nextOrderId);
    var across, own := e.book.Queue(Opposite(c.side)), e.book.Queue(c.side);
    if across != [] {
      assert across[0] in across;
    }
    assert Fill(a, across) == FillResult(a, across, []);
    forall x
      ensures x in Enqueue(own, a) <==> x in own || x == a
    {
      EnqueueMembers(own, a, x);
    }
  }

  /** MAIN RESULT. A successful cancel takes away the orders of that client id and no other. */
  lemma CancelRequestTakesItsOrder(g: Gateway, c: Word)
    requires GatewaySpec.Valid(g) && Handle(g, CancelOrderRequest(c, "AAPL")).messages[0].CancelledMessage?
    ensures var b, b' := g.engine.book, Handle(g, CancelOrderRequest(c, "AAPL")).gateway.engine.book;
      && (forall x :: x in b'.bids <==> x in b.bids && x.clientOrderId != c)
      && (forall x :: x in b'.asks <==> x in b.asks && x.clientOrderId != c)
  {
    CancelSucceedsIffResting(g, c);
    FoundIffResting(g, c);
    var id := g.clientOrders[c];
    var command := CancelOrderCommand(g.nextSequence, id, c, CLIENT_ID, 0);
    assert Step(g.engine, CancelOrder(command)).events[0].OrderCancelled?;
    forall x
      ensures x in Drop(g.engine.book.bids, id) <==> x in g.engine.book.bids && x.clientOrderId != c
      ensures x in Drop(g.engine.book.asks, id) <==> x in g.engine.book.asks && x.clientOrderId != c
    {
      CancelTakesOnlyItsOrder(g.engine, command, x);
      if x in g.engine.book.bids || x in g.engine.book.asks {
        assert OnRecord(g.clientOrders, x);
      }
    }
  }
}
