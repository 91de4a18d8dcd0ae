/** The reference gateway: one client session in front of one engine, and what holds over its runs. */
module GatewaySpec {
  import opened Words
  import opened Wrappers
  import opened Types
  import opened BookSpec
  import opened Matching
  import opened BookTheory
  import opened EngineSpec
  import opened Messages

  const CLIENT_ID: Word := 1

  function ResolveSymbol(symbol: string): Option<Word> {
    if symbol == "AAPL" then Some(0) else None
  }

  /** `terminated` marks that the source called `std::terminate`. */
  datatype Gateway = Gateway(engine: Engine, clientOrders: map<Word, nat>, nextSequence: nat, terminated: bool)

  datatype Reaction = Reaction(clientOrders: map<Word, nat>, messages: seq<OutboundMessage>, terminated: bool)

  function OnEvent(clientOrders: map<Word, nat>, event: EngineEvent): Reaction {
    match event
    case OrderAccepted(_, orderId, clientOrderId, clientId, _, _, _, _, _, _) =>
      if clientId != CLIENT_ID then Reaction(clientOrders, [], false)
      else if clientOrderId in clientOrders then Reaction(clientOrders, [], true)
      else Reaction(clientOrders[clientOrderId := orderId], [AcceptedMessage(clientOrderId, orderId)], false)
    case CommandRejected(_, clientOrderId, clientId, _, _, reason) =>
      if clientId != CLIENT_ID then Reaction(clientOrders, [], false)
      else Reaction(clientOrders, [RejectedMessage(Some(clientOrderId), reason)], false)
    case OrderCancelled(_, orderId, clientOrderId, clientId, _, _, _, _) =>
      if clientId != CLIENT_ID then Reaction(clientOrders, [], false)
      else Reaction(clientOrders, [CancelledMessage(clientOrderId, orderId)], false)
    case _ => Reaction(clientOrders, [], false)
  }

  /** Events are handled in order, up to a termination. */
  function OnEvents(clientOrders: map<Word, nat>, events: seq<EngineEvent>): Reaction
    decreases |events|
  {
    if events == [] then Reaction(clientOrders, [], false)
    else
      var first := OnEvent(clientOrders, events[0]);
      if first.terminated then first
      else
        var rest := OnEvents(first.clientOrders, events[1..]);
        rest.(messages := first.messages + rest.messages)
  }

  datatype HandleResult = HandleResult(gateway: Gateway, messages: seq<OutboundMessage>)

  function Submit(g: Gateway, command: EngineCommand): HandleResult {
    var step := Step(g.engine, command);
    var reaction := OnEvents(g.clientOrders, step.events);
    HandleResult(Gateway(step.engine, reaction.clientOrders, g.nextSequence + 1, reaction.terminated), reaction.messages)
  }

  /** The command that a request becomes, or why the gateway refuses it itself. */
  function CommandFor(g: Gateway, message: InboundMessage): Result<EngineCommand, RejectReason> {
    match message
    case NewOrderRequest(clientOrderId, symbol, side, orderType, tif, price, quantity) =>
      if clientOrderId in g.clientOrders then Err(DuplicateClientOrderId)
      else if ResolveSymbol(symbol).None? then Err(UnknownSymbol)
      else Ok(NewOrder(NewOrderCommand(g.nextSequence, price, quantity, clientOrderId, CLIENT_ID,
                                       ResolveSymbol(symbol).value, side, orderType, tif)))
    case CancelOrderRequest(clientOrderId, symbol) =>
      if ResolveSymbol(symbol).None? then Err(UnknownSymbol)
      else if clientOrderId !in g.clientOrders then Err(UnknownOrder)
      else Ok(CancelOrder(CancelOrderCommand(g.nextSequence, g.clientOrders[clientOrderId], clientOrderId,
                                             CLIENT_ID, ResolveSymbol(symbol).value)))
  }

  function Handle(g: Gateway, message: InboundMessage): HandleResult {
    match CommandFor(g, message)
    case Err(reason) => HandleResult(g, [RejectedMessage(Some(message.clientOrderId), reason)])
    case Ok(command) => Submit(g, command)
  }

  /** A session of requests; nothing happens any more once the process has terminated. */
  function Session(g: Gateway, requests: seq<InboundMessage>): HandleResult {
    if requests == [] then HandleResult(g, [])
    else
      var before := Session(g, requests[..|requests| - 1]);
      if before.gateway.terminated then before
      else
        var last := Handle(before.gateway, requests[|requests| - 1]);
        HandleResult(last.gateway, before.messages + last.messages)
  }

  function FreshGateway(config: OrderBookConfig): Gateway {
    Gateway(FreshEngine(0, config), map[], 1, false)
  }

  // ---------------------------------------------------------------- the invariant

  /** The order was placed through this gateway and its client id is on record. */
  ghost predicate OnRecord(clientOrders: map<Word, nat>, o: OrderInfo) {
    o.clientId == CLIENT_ID && o.clientOrderId in clientOrders && clientOrders[o.clientOrderId] == o.orderId
  }

  ghost predicate AllOnRecord(clientOrders: map<Word, nat>, q: seq<OrderInfo>) {
    forall i :: 0 <= i < |q| ==> OnRecord(clientOrders, q[i])
  }

  ghost predicate Injective(clientOrders: map<Word, nat>) {
    forall c, d :: c in clientOrders && d in clientOrders && clientOrders[c] == clientOrders[d] ==> c == d
  }

  ghost predicate Valid(g: Gateway) {
    && !g.terminated
    && EngineSpec.Valid(g.engine)
    && g.engine.symbolId == 0
    && Injective(g.clientOrders)
    && (forall c :: c in g.clientOrders ==> g.clientOrders[c] < g.engine.nextOrderId)
    && AllOnRecord(g.clientOrders, g.engine.book.bids)
    && AllOnRecord(g.clientOrders, g.engine.book.asks)
  }

  /** The message is about the request's own order, and does not blame its owner. */
  predicate Answers(request: InboundMessage, m: OutboundMessage) {
    match m
    case AcceptedMessage(c, _) => request.NewOrderRequest? && c == request.clientOrderId
    case CancelledMessage(c, _) => request.CancelOrderRequest? && c == request.clientOrderId
    case RejectedMessage(c, reason) => c == Some(request.clientOrderId) && reason != NotOrderOwner
  }

  ghost predicate AllAnswered(requests: seq<InboundMessage>, messages: seq<OutboundMessage>) {
    |messages| == |requests| && forall i :: 0 <= i < |requests| ==> Answers(requests[i], messages[i])
  }

  // ---------------------------------------------------------------- events to messages

  lemma {:induction false} SilentEvents(clientOrders: map<Word, nat>, events: seq<EngineEvent>)
    requires forall i :: 0 <= i < |events| ==> events[i].TradeExecuted? || events[i].OrderRested?
    ensures OnEvents(clientOrders, events) == Reaction(clientOrders, [], false)
  {
    if events != [] {
      SilentEvents(clientOrders, events[1..]);
    }
  }

  lemma OneEvent(clientOrders: map<Word, nat>, event: EngineEvent)
    ensures OnEvents(clientOrders, [event]) == OnEvent(clientOrders, event)
  {
    assert [event][1..] == [];
    assert OnEvent(clientOrders, event).messages + [] == OnEvent(clientOrders, event).messages;
  }

  lemma AcceptedEvents(clientOrders: map<Word, nat>, e: Engine, command: NewOrderCommand)
    requires NewOrderError(e, command).None?
    requires command.clientId == CLIENT_ID && command.clientOrderId !in clientOrders
    ensures OnEvents(clientOrders, StepNewOrder(e, command).events)
            == Reaction(clientOrders[command.clientOrderId := e.nextOrderId],
                        [AcceptedMessage(command.clientOrderId, e.nextOrderId)], false)
  {
    var (book, rest, executions) := Execute(e.book, Incoming(command, e.nextOrderId));
    var trades := Trades(executions, e.nextTradeId);
    var last := if rest.remaining > 0 then [Rested(rest)] else [];
    var events := StepNewOrder(e, command).events;
    assert events[1..] == trades + last;
    SilentEvents(clientOrders[command.clientOrderId := e.nextOrderId], trades + last);
  }

  // ---------------------------------------------------------------- one request

  lemma ExecuteOnRecord(clientOrders: map<Word, nat>, b: Book, a: OrderInfo)
    requires AllOnRecord(clientOrders, b.bids) && AllOnRecord(clientOrders, b.asks) && OnRecord(clientOrders, a)
    requires Positive(b.Queue(Opposite(a.side)))
    ensures AllOnRecord(clientOrders, Execute(b, a).0.bids) && AllOnRecord(clientOrders, Execute(b, a).0.asks)
  {
    var across := b.Queue(Opposite(a.side));
    var f := Fill(a, across);
    FillLeavesRear(a, across);
    RearOnRecord(clientOrders, f.queue, across);
    FillStops(a, across);
    EnqueueOnRecord(clientOrders, b.Queue(a.side), f.aggressor);
  }

  lemma RearOnRecord(clientOrders: map<Word, nat>, q': seq<OrderInfo>, q: seq<OrderInfo>)
    requires RearOf(q', q) && AllOnRecord(clientOrders, q)
    ensures AllOnRecord(clientOrders, q')
  {
    forall i | 0 <= i < |q'|
      ensures OnRecord(clientOrders, q'[i])
    {
      assert OnRecord(clientOrders, q[|q| - |q'| + i]);
    }
  }

  lemma EnqueueOnRecord(clientOrders: map<Word, nat>, q: seq<OrderInfo>, o: OrderInfo)
    requires AllOnRecord(clientOrders, q) && OnRecord(clientOrders, o)
    ensures AllOnRecord(clientOrders, Enqueue(q, o))
  {
    EnqueueInserts(q, o);
  }

  lemma MoreOnRecord(clientOrders: map<Word, nat>, c: Word, id: nat, q: seq<OrderInfo>)
    requires AllOnRecord(clientOrders, q) && c !in clientOrders
    ensures AllOnRecord(clientOrders[c := id], q)
  {
  }

  lemma NewOrderHandled(g: Gateway, message: InboundMessage)
    requires Valid(g) && message.NewOrderRequest?
    requires message.clientOrderId !in g.clientOrders && ResolveSymbol(message.symbol).Some?
    ensures var r := Handle(g, message);
      && Valid(r.gateway)
      && |r.messages| == 1 && Answers(message, r.messages[0])
      && g.clientOrders.Keys <= r.gateway.clientOrders.Keys
      && forall c :: c in g.clientOrders ==> r.gateway.clientOrders[c] == g.clientOrders[c]
  {
    var command := NewOrderCommand(g.nextSequence, message.price, message.quantity, message.clientOrderId, CLIENT_ID,
                                   0, message.side, message.orderType, message.tif);
    StepKeepsValid(g.engine, NewOrder(command));
    match NewOrderError(g.engine, command)
    case Some(reason) =>
      OneEvent(g.clientOrders, RejectedNew(command, reason));
    case None =>
      var a := Incoming(command, g.engine.nextOrderId);
      var record := g.clientOrders[command.clientOrderId := g.engine.nextOrderId];
      AcceptedEvents(g.clientOrders, g.engine, command);
      MoreOnRecord(g.clientOrders, command.clientOrderId, g.engine.nextOrderId, g.engine.book.bids);
      MoreOnRecord(g.clientOrders, command.clientOrderId, g.engine.nextOrderId, g.engine.book.asks);
      ExecuteOnRecord(record, g.engine.book, a);
  }

  /** Some order with this client id is resting. */
  ghost predicate Resting(b: Book, c: Word) {
    exists o :: (o in b.bids || o in b.asks) && o.clientOrderId == c
  }

  /** A recorded id is found in the book exactly when an order with that client id rests there. */
  lemma FoundIffResting(g: Gateway, c: Word)
    requires Valid(g) && c in g.clientOrders
    ensures Find(g.engine.book, g.clientOrders[c]).Some? <==> Resting(g.engine.book, c)
    ensures Find(g.engine.book, g.clientOrders[c]).Some? ==>
      var o := Find(g.engine.book, g.clientOrders[c]).value;
      o.clientOrderId == c && o.clientId == CLIENT_ID && o.orderId == g.clientOrders[c]
  {
    var b, id := g.engine.book, g.clientOrders[c];
    if Find(b, id).Some? {
      FoundOrder(g.engine, id);
      var o := Find(b, id).value;
      assert o in b.bids || o in b.asks;
      assert OnRecord(g.clientOrders, o);
    }
    if Resting(b, c) {
      var o :| (o in b.bids || o in b.asks) && o.clientOrderId == c;
      assert OnRecord(g.clientOrders, o);
      FoundIsMember(b.bids, id);
      FoundIsMember(b.asks, id);
    }
  }

  /** A cancel for the exchange's symbol succeeds exactly when an order with that client id is resting. */
  lemma CancelSucceedsIffResting(g: Gateway, c: Word)
    requires Valid(g)
    ensures var r := Handle(g, CancelOrderRequest(c, "AAPL"));
      && |r.messages| == 1
      && (r.messages[0].CancelledMessage? <==> Resting(g.engine.book, c))
      && (r.messages[0].CancelledMessage? ==>
            c in g.clientOrders && r.messages[0] == CancelledMessage(c, g.clientOrders[c]))
      && (!r.messages[0].CancelledMessage? ==>
            r.messages[0] == RejectedMessage(Some(c), UnknownOrder) && r.gateway.engine == g.engine)
  {
    RestingIsRecorded(g, c);
    if c in g.clientOrders {
      FoundIffResting(g, c);
      var command := CancelOrderCommand(g.nextSequence, g.clientOrders[c], c, CLIENT_ID, 0);
      OneEvent(g.clientOrders, Step(g.engine, CancelOrder(command)).events[0]);
    }
  }

  lemma RestingIsRecorded(g: Gateway, c: Word)
    requires Valid(g)
    ensures Resting(g.engine.book, c) ==> c in g.clientOrders
  {
    if Resting(g.engine.book, c) {
      var o :| (o in g.engine.book.bids || o in g.engine.book.asks) && o.clientOrderId == c;
      assert OnRecord(g.clientOrders, o);
    }
  }

  lemma DropOnRecord(clientOrders: map<Word, nat>, q: seq<OrderInfo>, id: nat)
    requires AllOnRecord(clientOrders, q)
    ensures AllOnRecord(clientOrders, Drop(q, id))
  {
    forall i | 0 <= i < |Drop(q, id)|
      ensures OnRecord(clientOrders, Drop(q, id)[i])
    {
      assert Drop(q, id)[i] == if i < Position(q, id) then q[i] else q[i + 1];
    }
  }

  lemma CancelHandled(g: Gateway, message: InboundMessage)
    requires Valid(g) && message.CancelOrderRequest?
    requires message.clientOrderId in g.clientOrders && ResolveSymbol(message.symbol).Some?
    ensures var r := Handle(g, message);
      && Valid(r.gateway)
      && |r.messages| == 1 && Answers(message, r.messages[0])
      && r.gateway.clientOrders == g.clientOrders
  {
    var c := message.clientOrderId;
    var command := CancelOrderCommand(g.nextSequence, g.clientOrders[c], c, CLIENT_ID, 0);
    var s := Step(g.engine, CancelOrder(command));
    CancelSucceedsIffResting(g, c);
    FoundIffResting(g, c);
    StepKeepsValid(g.engine, CancelOrder(command));
    OneEvent(g.clientOrders, s.events[0]);
    DropOnRecord(g.clientOrders, g.engine.book.bids, command.orderId);
    DropOnRecord(g.clientOrders, g.engine.book.asks, command.orderId);
  }

  /** MAIN RESULT. Every request is answered by exactly one message, which never says NotOrderOwner; the
      duplicate-acceptance termination does not happen; the client map stays injective and only grows. */
  lemma HandleKeepsValid(g: Gateway, message: InboundMessage)
    requires Valid(g)
    ensures var r := Handle(g, message);
      && Valid(r.gateway)
      && |r.messages| == 1 && Answers(message, r.messages[0])
      && g.clientOrders.Keys <= r.gateway.clientOrders.Keys
      && forall c :: c in g.clientOrders ==> r.gateway.clientOrders[c] == g.clientOrders[c]
  {
    if ResolveSymbol(message.symbol).Some? {
      if message.NewOrderRequest? {
        if message.clientOrderId !in g.clientOrders {
          NewOrderHandled(g, message);
        }
      } else if message.clientOrderId in g.clientOrders {
        CancelHandled(g, message);
      }
    }
  }

  lemma OneMoreAnswered(requests: seq<InboundMessage>, messages: seq<OutboundMessage>, m: OutboundMessage)
    requires requests != [] && AllAnswered(requests[..|requests| - 1], messages)
    requires Answers(requests[|requests| - 1], m)
    ensures AllAnswered(requests, messages + [m])
  {
  }

  /** MAIN RESULT. ... and so over every session of a sole gateway on a fresh engine for its symbol: the
      messages answer the requests one by one. */
  lemma {:induction false} SessionKeepsValid(config: OrderBookConfig, requests: seq<InboundMessage>)
    ensures Valid(Session(FreshGateway(config), requests).gateway)
    ensures AllAnswered(requests, Session(FreshGateway(config), requests).messages)
  {
    FreshIsValid(0, config);
    if requests != [] {
      var before, last := requests[..|requests| - 1], requests[|requests| - 1];
      SessionKeepsValid(config, before);
      var r := Session(FreshGateway(config), before);
      SessionStep(r.gateway, last);
      var s := Handle(r.gateway, last);
      assert s.messages == [s.messages[0]];
      OneMoreAnswered(requests, r.messages, s.messages[0]);
    }
  }

  lemma SessionStep(g: Gateway, message: InboundMessage)
    requires Valid(g)
    ensures !g.terminated && Valid(Handle(g, message).gateway)
    ensures |Handle(g, message).messages| == 1 && Answers(message, Handle(g, message).messages[0])
  {
    HandleKeepsValid(g, message);
  }

  // ---------------------------------------------------------------- the engine behind a session

  function SequenceOf(command: EngineCommand): nat {
    match command
    case NewOrder(c) => c.seqNo
    case CancelOrder(c) => c.seqNo
    case ReplaceOrder(c) => c.seqNo
  }

  /** The commands that the requests of a session become. */
  function CommandsOf(g: Gateway, requests: seq<InboundMessage>): seq<EngineCommand> {
    if requests == [] then []
    else
      var before := CommandsOf(g, requests[..|requests| - 1]);
      match CommandFor(Session(g, requests[..|requests| - 1]).gateway, requests[|requests| - 1])
      case Ok(command) => before + [command]
      case Err(_) => before
  }

  lemma RunOneMore(e: Engine, commands: seq<EngineCommand>, command: EngineCommand)
    ensures Run(e, commands + [command]).engine == Step(Run(e, commands).engine, command).engine
  {
    assert (commands + [command])[..|commands|] == commands;
  }

  /** MAIN RESULT. Behind a session the engine makes a run of commands numbered 1, 2, 3, ..., so what is
      proved of engine runs holds behind every session. */
  lemma {:induction false} SessionRunsEngine(config: OrderBookConfig, requests: seq<InboundMessage>)
    ensures var s, commands := Session(FreshGateway(config), requests), CommandsOf(FreshGateway(config), requests);
      && s.gateway.engine == Run(FreshEngine(0, config), commands).engine
      && s.gateway.nextSequence == |commands| + 1
      && forall i :: 0 <= i < |commands| ==> SequenceOf(commands[i]) == i + 1
  {
    if requests != [] {
      var g := FreshGateway(config);
      var before, last := requests[..|requests| - 1], requests[|requests| - 1];
      SessionRunsEngine(config, before);
      SessionKeepsValid(config, before);
      var command := CommandFor(Session(g, before).gateway, last);
      if command.Ok? {
        RunOneMore(FreshEngine(0, config), CommandsOf(g, before), command.value);
      }
    }
  }
}
