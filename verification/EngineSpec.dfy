/** The reference engine: one command in, the next state and the events it emits out; and runs of it. */
module EngineSpec {
  import opened Words
  import opened Wrappers
  import opened Types
  import opened BookSpec
  import opened BookTheory

  datatype Engine = Engine(
    symbolId: Word, config: OrderBookConfig, book: Book,
    nextOrderId: nat, nextTradeId: nat, executionCount: nat)

  function FreshEngine(symbolId: Word, config: OrderBookConfig): Engine {
    Engine(symbolId, config, EMPTY, 1, 1, 0)
  }

  datatype StepResult = StepResult(engine: Engine, events: seq<EngineEvent>)

  // ---------------------------------------------------------------- events

  function Accepted(command: NewOrderCommand, id: nat): EngineEvent {
    OrderAccepted(command.seqNo, id, command.clientOrderId, command.clientId, command.symbolId,
                  command.side, command.orderType, command.tif, command.price, command.quantity)
  }

  function Rested(o: OrderInfo): EngineEvent {
    OrderRested(o.seqNo, o.orderId, o.clientOrderId, o.clientId, o.symbolId, o.side, o.price, o.remaining)
  }

  function Cancelled(seqNo: nat, o: OrderInfo): EngineEvent {
    OrderCancelled(seqNo, o.orderId, o.clientOrderId, o.clientId, o.symbolId, o.side, o.price, o.remaining)
  }

  function RejectedNew(command: NewOrderCommand, reason: RejectReason): EngineEvent {
    CommandRejected(command.seqNo, command.clientOrderId, command.clientId, command.symbolId, NewOrderType, reason)
  }

  function RejectedCancel(command: CancelOrderCommand, reason: RejectReason): EngineEvent {
    CommandRejected(command.seqNo, command.clientOrderId, command.clientId, command.symbolId, CancelOrderType, reason)
  }

  function RejectedReplace(command: ReplaceOrderCommand): EngineEvent {
    CommandRejected(command.seqNo, command.oldClientOrderId, command.clientId, command.symbolId,
                    ReplaceOrderType, MatchingEngineError)
  }

  /** One trade event per execution, with consecutive trade ids. */
  function Trades(executions: seq<MatchExecution>, firstId: nat): (events: seq<EngineEvent>)
    ensures |events| == |executions|
    ensures forall i :: 0 <= i < |events| ==> events[i] == TradeExecuted(firstId + i, executions[i])
  {
    seq(|executions|, i requires 0 <= i < |executions| => TradeExecuted(firstId + i, executions[i]))
  }

  lemma TradesOneMore(executions: seq<MatchExecution>, i: nat, firstId: nat)
    requires i < |executions|
    ensures Trades(executions[..i + 1], firstId)
            == Trades(executions[..i], firstId) + [TradeExecuted(firstId + i, executions[i])]
  {
  }

  // ---------------------------------------------------------------- steps

  function NewOrderError(e: Engine, command: NewOrderCommand): Option<RejectReason> {
    if command.orderType != Limit then Some(UnsupportedOrderType)
    else if command.tif != GFD then Some(UnsupportedTimeInForce)
    else AdmitError(e.symbolId, e.config, e.book, command, e.nextOrderId)
  }

  function StepNewOrder(e: Engine, command: NewOrderCommand): StepResult {
    match NewOrderError(e, command)
    case Some(reason) => StepResult(e, [RejectedNew(command, reason)])
    case None =>
      var (book, rest, executions) := Execute(e.book, Incoming(command, e.nextOrderId));
      StepResult(
        e.(book := book, nextOrderId := e.nextOrderId + 1, nextTradeId := e.nextTradeId + |executions|,
           executionCount := e.executionCount + |executions|),
        [Accepted(command, e.nextOrderId)] + Trades(executions, e.nextTradeId)
        + (if rest.remaining > 0 then [Rested(rest)] else []))
  }

  function StepCancel(e: Engine, command: CancelOrderCommand): StepResult {
    match CancelTarget(e.symbolId, e.book, command)
    case Err(reason) => StepResult(e, [RejectedCancel(command, reason)])
    case Ok(o) => StepResult(e.(book := Remove(e.book, o.orderId)), [Cancelled(command.seqNo, o)])
  }

  function Step(e: Engine, command: EngineCommand): StepResult {
    match command
    case NewOrder(c) => StepNewOrder(e, c)
    case CancelOrder(c) => StepCancel(e, c)
    case ReplaceOrder(c) => StepResult(e, [RejectedReplace(c)])
  }

  /** A whole run: the state after the last command and every event in order. */
  function Run(e: Engine, commands: seq<EngineCommand>): StepResult {
    if commands == [] then StepResult(e, [])
    else
      var before := Run(e, commands[..|commands| - 1]);
      var last := Step(before.engine, commands[|commands| - 1]);
      StepResult(last.engine, before.events + last.events)
  }

  // ---------------------------------------------------------------- the invariant

  ghost predicate Valid(e: Engine) {
    && WellFormed(e.book, e.config.priceLevelCount, e.symbolId, e.nextOrderId)
    && e.book.Size() <= e.config.maxActiveOrders
    && e.nextOrderId >= 1 && e.nextTradeId >= 1
    && e.executionCount + 1 == e.nextTradeId
  }

  lemma FreshIsValid(symbolId: Word, config: OrderBookConfig)
    ensures Valid(FreshEngine(symbolId, config))
  {
  }

  lemma FoundOrder(e: Engine, id: nat)
    requires Valid(e) && Find(e.book, id).Some?
    ensures var o := Find(e.book, id).value;
      o.orderId == id && 1 <= id < e.nextOrderId && o.remaining > 0 && o.symbolId == e.symbolId
      && o.price < e.config.priceLevelCount && o in e.book.Queue(o.side)
  {
  }

  lemma AdmittedIsFresh(e: Engine, command: NewOrderCommand)
    requires Valid(e) && NewOrderError(e, command).None?
    ensures Fresh(Incoming(command, e.nextOrderId), e.config.priceLevelCount, e.symbolId)
    ensures e.book.Size() < e.config.maxActiveOrders
  {
  }

  lemma AcceptedResult(e: Engine, command: NewOrderCommand)
    requires NewOrderError(e, command).None?
    ensures var (book, rest, executions) := Execute(e.book, Incoming(command, e.nextOrderId));
      StepNewOrder(e, command).engine
      == Engine(e.symbolId, e.config, book, e.nextOrderId + 1, e.nextTradeId + |executions|,
                e.executionCount + |executions|)
  {
  }

  lemma AcceptedKeepsValid(e: Engine, command: NewOrderCommand)
    requires Valid(e) && NewOrderError(e, command).None?
    ensures Valid(StepNewOrder(e, command).engine)
  {
    var a := Incoming(command, e.nextOrderId);
    AdmittedIsFresh(e, command);
    ExecuteKeeps(e.book, a, e.config.priceLevelCount, e.symbolId);
    AcceptedResult(e, command);
  }

  /** MAIN RESULT. Every command keeps the book sorted, live, within capacity and uncrossed. */
  lemma StepKeepsValid(e: Engine, command: EngineCommand)
    requires Valid(e)
    ensures Valid(Step(e, command).engine)
  {
    match command
    case NewOrder(c) =>
      if NewOrderError(e, c).None? {
        AcceptedKeepsValid(e, c);
      }
    case CancelOrder(c) =>
      if CancelTarget(e.symbolId, e.book, c).Ok? {
        RemoveKeepsBook(e.book, c.orderId, e.config.priceLevelCount, e.symbolId, e.nextOrderId);
      }
    case ReplaceOrder(c) =>
  }

  /** MAIN RESULT. ... and so does every run from an empty engine. */
  lemma {:induction false} RunKeepsValid(e: Engine, commands: seq<EngineCommand>)
    requires Valid(e)
    ensures Valid(Run(e, commands).engine)
    ensures Run(e, commands).engine.config == e.config && Run(e, commands).engine.symbolId == e.symbolId
  {
    if commands != [] {
      var before := commands[..|commands| - 1];
      RunKeepsValid(e, before);
      StepKeepsValid(Run(e, before).engine, commands[|commands| - 1]);
    }
  }

  // ---------------------------------------------------------------- refusals

  /** A command that is answered by a rejection leaves the book, the ids and the count as they were. */
  lemma RejectionChangesNothing(e: Engine, command: EngineCommand)
    ensures forall event :: event in Step(e, command).events && event.CommandRejected? ==>
      Step(e, command) == StepResult(e, [event])
  {
    if command.NewOrder? && NewOrderError(e, command.newOrder).None? {
      var (book, rest, executions) := Execute(e.book, Incoming(command.newOrder, e.nextOrderId));
      forall event | event in Step(e, command).events
        ensures !event.CommandRejected?
      {
        assert event in Trades(executions, e.nextTradeId) || event.OrderAccepted? || event.OrderRested?;
      }
    }
  }

  /** Capacity is exact, and the engine's own ids never collide: in a reachable state an otherwise valid
      order is refused exactly when `max_active_orders` orders rest, and then as CapacityExhausted. */
  lemma CapacityIsExact(e: Engine, command: NewOrderCommand)
    requires Valid(e)
    requires command.orderType == Limit && command.tif == GFD && command.symbolId == e.symbolId
    requires 0 < command.quantity && command.price < e.config.priceLevelCount
    ensures NewOrderError(e, command)
            == if e.book.Size() == e.config.maxActiveOrders then Some(CapacityExhausted) else None
  {
    if Find(e.book, e.nextOrderId).Some? {
      FoundOrder(e, e.nextOrderId);
    }
  }
}
