/** The order gateway (src/gateway/OrderGateway.cpp), registered once as the event sink of its engine. */
module OrderGateways {
  import opened Words
  import opened Wrappers
  import opened Types
  import opened EngineSpec
  import opened Messages
  import opened GatewaySpec
  import opened MatchingEngines

  class OrderGateway {
    const engine: MatchingEngine
    var clientOrders: map<Word, nat>
    var nextSequence: nat  // the process-wide Sequencer
    var terminated: bool   // `std::terminate` was called
    var outbound: seq<OutboundMessage>

    ghost function State(): Gateway
      reads this, engine, engine.book
    {
      Gateway(engine.State(), clientOrders, nextSequence, terminated)
    }

    ghost predicate Valid()
      reads this, engine, engine.book, engine.book.orders, engine.book.orders.orders,
        engine.book.ordersById, engine.book.ordersById.entries, engine.book.levelSet
    {
      engine.Valid() && GatewaySpec.Valid(State())
    }

    constructor (config: OrderBookConfig, hash: nat -> Word)
      requires ValidConfig(config)
      ensures Valid() && State() == FreshGateway(config) && outbound == []
      ensures fresh(engine) && fresh(engine.book) && fresh(engine.book.orders) && fresh(engine.book.orders.orders)
      ensures fresh(engine.book.ordersById) && fresh(engine.book.ordersById.entries) && fresh(engine.book.levelSet)
    {
      engine := new MatchingEngine(0, config, hash);
      clientOrders := map[];
      nextSequence := 1;
      terminated := false;
      outbound := [];
    }

    /** Every request steps the reference gateway and sends exactly its messages. */
    method HandleMessage(message: InboundMessage)
      requires Valid()
      modifies this, engine, engine.book, engine.book.orders, engine.book.orders.orders,
        engine.book.ordersById, engine.book.ordersById.entries, engine.book.levelSet
      ensures Valid()
      ensures State() == Handle(old(State()), message).gateway
      ensures outbound == old(outbound) + Handle(old(State()), message).messages
    {
      HandleKeepsValid(State(), message);
      match message
      case NewOrderRequest(_, _, _, _, _, _, _) => HandleNewOrder(message);
      case CancelOrderRequest(_, _) => HandleCancelOrder(message);
    }

    method HandleNewOrder(request: InboundMessage)
      requires engine.Valid() && !terminated && request.NewOrderRequest?
      modifies this, engine, engine.book, engine.book.orders, engine.book.orders.orders,
        engine.book.ordersById, engine.book.ordersById.entries, engine.book.levelSet
      ensures engine.Valid()
      ensures State() == Handle(old(State()), request).gateway
      ensures outbound == old(outbound) + Handle(old(State()), request).messages
    {
      if request.clientOrderId in clientOrders {
        EmitRejection(Some(request.clientOrderId), DuplicateClientOrderId);
        return;
      }
      var symbolId := ResolveSymbol(request.symbol);
      if symbolId.None? {
        EmitRejection(Some(request.clientOrderId), UnknownSymbol);
        return;
      }
      var command := NewOrderCommand(nextSequence, request.price, request.quantity, request.clientOrderId, CLIENT_ID,
                                     symbolId.value, request.side, request.orderType, request.tif);
      SubmitCommand(NewOrder(command));
    }

    method HandleCancelOrder(request: InboundMessage)
      requires engine.Valid() && !terminated && request.CancelOrderRequest?
      modifies this, engine, engine.book, engine.book.orders, engine.book.orders.orders,
        engine.book.ordersById, engine.book.ordersById.entries, engine.book.levelSet
      ensures engine.Valid()
      ensures State() == Handle(old(State()), request).gateway
      ensures outbound == old(outbound) + Handle(old(State()), request).messages
    {
      var symbolId := ResolveSymbol(request.symbol);
      if symbolId.None? {
        EmitRejection(Some(request.clientOrderId), UnknownSymbol);
        return;
      }
      if request.clientOrderId !in clientOrders {
        EmitRejection(Some(request.clientOrderId), UnknownOrder);
        return;
      }
      var command := CancelOrderCommand(nextSequence, clientOrders[request.clientOrderId], request.clientOrderId,
                                        CLIENT_ID, symbolId.value);
      SubmitCommand(CancelOrder(command));
    }

    /** Takes a sequence number, lets the engine process the command, and handles the events it emitted. */
    method SubmitCommand(command: EngineCommand)
      requires engine.Valid() && !terminated
      modifies this, engine, engine.book, engine.book.orders, engine.book.orders.orders,
        engine.book.ordersById, engine.book.ordersById.entries, engine.book.levelSet
      ensures engine.Valid()
      ensures State() == Submit(old(State()), command).gateway
      ensures outbound == old(outbound) + Submit(old(State()), command).messages
    {
      nextSequence := nextSequence + 1;
      var seen := |engine.events|;
      engine.Process(command);
      OnEngineEvents(engine.events[seen..]);
    }

    method OnEngineEvents(events: seq<EngineEvent>)
      requires !terminated
      modifies this`clientOrders, this`outbound, this`terminated
      ensures Reaction(clientOrders, outbound, terminated)
              == var r := OnEvents(old(clientOrders), events);
                 r.(messages := old(outbound) + r.messages)
    {
      var i := 0;
      while i < |events| && !terminated
        invariant 0 <= i <= |events|
        invariant var r := OnEvents(old(clientOrders), events);
          var rest := OnEvents(clientOrders, events[i..]);
          if terminated then Reaction(clientOrders, outbound, true) == r.(messages := old(outbound) + r.messages)
          else r.clientOrders == rest.clientOrders && r.terminated == rest.terminated
               && old(outbound) + r.messages == outbound + rest.messages
      {
        assert events[i..][1..] == events[i + 1..];
        OnEngineEvent(events[i]);
        i := i + 1;
      }
    }

    method OnEngineEvent(event: EngineEvent)
      requires !terminated
      modifies this`clientOrders, this`outbound, this`terminated
      ensures Reaction(clientOrders, outbound, terminated)
              == var r := OnEvent(old(clientOrders), event);
                 r.(messages := old(outbound) + r.messages)
    {
      match event
      case OrderAccepted(_, orderId, clientOrderId, clientId, _, _, _, _, _, _) =>
        if clientId != CLIENT_ID {
          return;
        }
        if clientOrderId in clientOrders {
          terminated := true;
          return;
        }
        clientOrders := clientOrders[clientOrderId := orderId];
        outbound := outbound + [AcceptedMessage(clientOrderId, orderId)];
      case CommandRejected(_, clientOrderId, clientId, _, _, reason) =>
        if clientId != CLIENT_ID {
          return;
        }
        EmitRejection(Some(clientOrderId), reason);
      case OrderCancelled(_, orderId, clientOrderId, clientId, _, _, _, _) =>
        if clientId != CLIENT_ID {
          return;
        }
        outbound := outbound + [CancelledMessage(clientOrderId, orderId)];
      case _ =>
    }

    method EmitRejection(clientOrderId: Option<Word>, reason: RejectReason)
      modifies this`outbound
      ensures outbound == old(outbound) + [RejectedMessage(clientOrderId, reason)]
    {
      outbound := outbound + [RejectedMessage(clientOrderId, reason)];
    }
  }
}
