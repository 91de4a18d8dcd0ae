/** Buying and selling are exact mirrors: swap the sides and reflect every price on the grid, and every
    run gives the reflected book and the reflected events. */
module Mirror {
  import opened Words
  import opened Wrappers
  import opened Types
  import opened BookSpec
  import opened Matching
  import opened BookTheory
  import opened EngineSpec
  import Replay

  /** Prices off the grid, which are refused, stay where they are. */
  function Reflect(levels: Word, p: Word): Word {
    if p < levels then levels - 1 - p else p
  }

  function ReflectOrder(levels: Word, o: OrderInfo): OrderInfo {
    o.(side := Opposite(o.side), price := Reflect(levels, o.price))
  }

  function ReflectQueue(levels: Word, q: seq<OrderInfo>): (r: seq<OrderInfo>)
    ensures |r| == |q|
    ensures forall i {:trigger r[i]} :: 0 <= i < |q| ==> r[i] == ReflectOrder(levels, q[i])
  {
    seq(|q|, i requires 0 <= i < |q| => ReflectOrder(levels, q[i]))
  }

  function ReflectBook(levels: Word, b: Book): Book {
    Book(ReflectQueue(levels, b.asks), ReflectQueue(levels, b.bids))
  }

  function ReflectEngine(e: Engine): Engine {
    e.(book := ReflectBook(e.config.priceLevelCount, e.book))
  }

  function ReflectExecution(levels: Word, x: MatchExecution): MatchExecution {
    x.(aggressingSide := Opposite(x.aggressingSide), price := Reflect(levels, x.price))
  }

  function ReflectExecutions(levels: Word, xs: seq<MatchExecution>): (r: seq<MatchExecution>)
    ensures |r| == |xs|
    ensures forall i {:trigger r[i]} :: 0 <= i < |xs| ==> r[i] == ReflectExecution(levels, xs[i])
  {
    seq(|xs|, i requires 0 <= i < |xs| => ReflectExecution(levels, xs[i]))
  }

  function ReflectCommand(levels: Word, command: EngineCommand): EngineCommand {
    match command
    case NewOrder(c) => NewOrder(c.(side := Opposite(c.side), price := Reflect(levels, c.price)))
    case _ => command
  }

  function ReflectCommands(levels: Word, commands: seq<EngineCommand>): (r: seq<EngineCommand>)
    ensures |r| == |commands|
    ensures forall i {:trigger r[i]} :: 0 <= i < |commands| ==> r[i] == ReflectCommand(levels, commands[i])
  {
    seq(|commands|, i requires 0 <= i < |commands| => ReflectCommand(levels, commands[i]))
  }

  function ReflectEvent(levels: Word, event: EngineEvent): EngineEvent {
    match event
    case OrderAccepted(seqNo, orderId, clientOrderId, clientId, symbolId, side, orderType, tif, price, quantity) =>
      OrderAccepted(seqNo, orderId, clientOrderId, clientId, symbolId, Opposite(side), orderType, tif,
                    Reflect(levels, price), quantity)
    case OrderRested(seqNo, orderId, clientOrderId, clientId, symbolId, side, price, remaining) =>
      OrderRested(seqNo, orderId, clientOrderId, clientId, symbolId, Opposite(side), Reflect(levels, price), remaining)
    case OrderCancelled(seqNo, orderId, clientOrderId, clientId, symbolId, side, price, cancelled) =>
      OrderCancelled(seqNo, orderId, clientOrderId, clientId, symbolId, Opposite(side), Reflect(levels, price), cancelled)
    case TradeExecuted(tradeId, x) => TradeExecuted(tradeId, ReflectExecution(levels, x))
    case CommandRejected(_, _, _, _, _, _) => event
  }

  function ReflectEvents(levels: Word, events: seq<EngineEvent>): (r: seq<EngineEvent>)
    ensures |r| == |events|
    ensures forall i {:trigger r[i]} :: 0 <= i < |events| ==> r[i] == ReflectEvent(levels, events[i])
  {
    seq(|events|, i requires 0 <= i < |events| => ReflectEvent(levels, events[i]))
  }

  // ---------------------------------------------------------------- the pieces

  ghost predicate OnGrid(levels: Word, q: seq<OrderInfo>) {
    forall i :: 0 <= i < |q| ==> q[i].price < levels
  }

  lemma ReflectPrices(levels: Word, side: Side, p: Word, q: Word)
    requires p < levels && q < levels
    ensures Better(Opposite(side), Reflect(levels, p), Reflect(levels, q)) == Better(side, p, q)
    ensures Crosses(Opposite(side), Reflect(levels, p), Reflect(levels, q)) == Crosses(side, p, q)
  {
  }

  lemma ReflectTail(levels: Word, q: seq<OrderInfo>)
    requires q != []
    ensures ReflectQueue(levels, q)[1..] == ReflectQueue(levels, q[1..])
  {
  }

  lemma ReflectCons(levels: Word, o: OrderInfo, q: seq<OrderInfo>)
    ensures ReflectQueue(levels, [o] + q) == [ReflectOrder(levels, o)] + ReflectQueue(levels, q)
  {
  }

  lemma ReflectConsExecution(levels: Word, x: MatchExecution, xs: seq<MatchExecution>)
    ensures ReflectExecutions(levels, [x] + xs) == [ReflectExecution(levels, x)] + ReflectExecutions(levels, xs)
  {
  }

  /** The two matching loops are mirrors. */
  lemma {:induction false} ReflectFill(levels: Word, a: OrderInfo, q: seq<OrderInfo>)
    requires a.price < levels && OnGrid(levels, q)
    ensures var f := Fill(a, q);
      Fill(ReflectOrder(levels, a), ReflectQueue(levels, q))
      == FillResult(ReflectOrder(levels, f.aggressor), ReflectQueue(levels, f.queue),
                    ReflectExecutions(levels, f.executions))
    decreases |q|
  {
    if q != [] {
      ReflectPrices(levels, a.side, a.price, q[0].price);
      ReflectTail(levels, q);
      if a.remaining == 0 || !Crosses(a.side, a.price, q[0].price) {
      } else if a.remaining < q[0].remaining {
        ReflectCons(levels, Reduce(q[0], a.remaining), q[1..]);
        ReflectConsExecution(levels, Execution(a, q[0], a.remaining), []);
        assert ReflectExecutions(levels, []) == [];
      } else {
        var a' := Reduce(a, q[0].remaining);
        ReflectFill(levels, a', q[1..]);
        ReflectConsExecution(levels, Execution(a, q[0], q[0].remaining), Fill(a', q[1..]).executions);
      }
    }
  }

  lemma {:induction false} ReflectEnqueue(levels: Word, q: seq<OrderInfo>, o: OrderInfo)
    requires o.price < levels && OnGrid(levels, q)
    ensures Enqueue(ReflectQueue(levels, q), ReflectOrder(levels, o)) == ReflectQueue(levels, Enqueue(q, o))
  {
    if q == [] {
      ReflectCons(levels, o, q);
    } else {
      ReflectPrices(levels, o.side, o.price, q[0].price);
      ReflectTail(levels, q);
      if Better(o.side, o.price, q[0].price) {
        ReflectCons(levels, o, q);
      } else {
        ReflectEnqueue(levels, q[1..], o);
        ReflectCons(levels, q[0], Enqueue(q[1..], o));
      }
    }
  }

  lemma {:induction false} ReflectPosition(levels: Word, q: seq<OrderInfo>, id: nat)
    ensures Position(ReflectQueue(levels, q), id) == Position(q, id)
  {
    if q != [] && q[0].orderId != id {
      ReflectTail(levels, q);
      ReflectPosition(levels, q[1..], id);
    }
  }

  lemma ReflectDrop(levels: Word, q: seq<OrderInfo>, id: nat)
    ensures Drop(ReflectQueue(levels, q), id) == ReflectQueue(levels, Drop(q, id))
    ensures Holds(ReflectQueue(levels, q), id) == Holds(q, id)
  {
    ReflectPosition(levels, q, id);
    if Holds(q, id) {
      ReflectRemoveAt(levels, q, Position(q, id));
    }
  }

  lemma ReflectRemoveAt(levels: Word, q: seq<OrderInfo>, i: nat)
    requires i < |q|
    ensures RemoveAt(ReflectQueue(levels, q), i) == ReflectQueue(levels, RemoveAt(q, i))
  {
    var r, s := RemoveAt(ReflectQueue(levels, q), i), ReflectQueue(levels, RemoveAt(q, i));
    RemovedAt(q, i);
    RemovedAt(ReflectQueue(levels, q), i);
    forall j | 0 <= j < |q| - 1
      ensures r[j] == s[j]
    {
      assert s[j] == ReflectOrder(levels, RemoveAt(q, i)[j]);
    }
  }

  function ReflectFound(levels: Word, found: Option<OrderInfo>): Option<OrderInfo> {
    match found
    case None => None
    case Some(o) => Some(ReflectOrder(levels, o))
  }

  lemma ReflectFind(e: Engine, id: nat)
    requires Valid(e)
    ensures Find(ReflectEngine(e).book, id) == ReflectFound(e.config.priceLevelCount, Find(e.book, id))
  {
    ReflectPosition(e.config.priceLevelCount, e.book.bids, id);
    ReflectPosition(e.config.priceLevelCount, e.book.asks, id);
    Replay.FoundOnOneSide(e.book, id, e.config.priceLevelCount, e.symbolId, e.nextOrderId);
  }

  lemma FillOnGrid(levels: Word, a: OrderInfo, b: Book, symbolId: Word, nextId: nat)
    requires WellFormed(b, levels, symbolId, nextId)
    ensures OnGrid(levels, Fill(a, b.Queue(Opposite(a.side))).queue)
    ensures OnGrid(levels, b.bids) && OnGrid(levels, b.asks)
  {
    FillKeepsBook(b, a, levels, symbolId, nextId);
  }

  lemma ReflectExecute(e: Engine, a: OrderInfo)
    requires Valid(e) && a.price < e.config.priceLevelCount
    ensures var levels := e.config.priceLevelCount;
      var (b, rest, executions) := Execute(e.book, a);
      Execute(ReflectEngine(e).book, ReflectOrder(levels, a))
      == (ReflectBook(levels, b), ReflectOrder(levels, rest), ReflectExecutions(levels, executions))
  {
    var levels := e.config.priceLevelCount;
    var across := e.book.Queue(Opposite(a.side));
    FillOnGrid(levels, a, e.book, e.symbolId, e.nextOrderId);
    ReflectFill(levels, a, across);
    FillStops(a, across);
    ReflectEnqueue(levels, e.book.Queue(a.side), Fill(a, across).aggressor);
  }

  lemma ReflectTrades(levels: Word, executions: seq<MatchExecution>, firstId: nat)
    ensures ReflectEvents(levels, Trades(executions, firstId)) == Trades(ReflectExecutions(levels, executions), firstId)
  {
  }

  lemma ReflectAppend(levels: Word, first: seq<EngineEvent>, second: seq<EngineEvent>)
    ensures ReflectEvents(levels, first + second) == ReflectEvents(levels, first) + ReflectEvents(levels, second)
  {
  }

  lemma ReflectOne(levels: Word, event: EngineEvent)
    ensures ReflectEvents(levels, [event]) == [ReflectEvent(levels, event)]
  {
  }

  function ReflectResult(levels: Word, r: StepResult): StepResult {
    StepResult(ReflectEngine(r.engine), ReflectEvents(levels, r.events))
  }

  lemma ReflectNewOrder(e: Engine, command: NewOrderCommand)
    requires Valid(e)
    ensures var levels := e.config.priceLevelCount;
      Step(ReflectEngine(e), ReflectCommand(levels, NewOrder(command)))
      == ReflectResult(levels, Step(e, NewOrder(command)))
  {
    var levels := e.config.priceLevelCount;
    var command' := command.(side := Opposite(command.side), price := Reflect(levels, command.price));
    ReflectFind(e, e.nextOrderId);
    assert NewOrderError(ReflectEngine(e), command') == NewOrderError(e, command);
    match NewOrderError(e, command)
    case Some(reason) => ReflectOne(levels, RejectedNew(command, reason));
    case None =>
      var a := Incoming(command, e.nextOrderId);
      var (b, rest, executions) := Execute(e.book, a);
      ReflectExecute(e, a);
      ReflectTrades(levels, executions, e.nextTradeId);
      ReflectOne(levels, Accepted(command, e.nextOrderId));
      ReflectOne(levels, Rested(rest));
      var start := [Accepted(command, e.nextOrderId)] + Trades(executions, e.nextTradeId);
      var end := if rest.remaining > 0 then [Rested(rest)] else [];
      ReflectAppend(levels, [Accepted(command, e.nextOrderId)], Trades(executions, e.nextTradeId));
      ReflectAppend(levels, start, end);
  }

  lemma ReflectStep(e: Engine, command: EngineCommand)
    requires Valid(e)
    ensures var levels := e.config.priceLevelCount;
      Step(ReflectEngine(e), ReflectCommand(levels, command)) == ReflectResult(levels, Step(e, command))
  {
    var levels := e.config.priceLevelCount;
    match command
    case NewOrder(c) => ReflectNewOrder(e, c);
    case CancelOrder(c) =>
      ReflectFind(e, c.orderId);
      ReflectDrop(levels, e.book.bids, c.orderId);
      ReflectDrop(levels, e.book.asks, c.orderId);
      ReflectOne(levels, Step(e, command).events[0]);
    case ReplaceOrder(c) =>
      ReflectOne(levels, RejectedReplace(c));
  }

  /** MAIN RESULT. The mirrored command stream yields the mirrored book and the mirrored events. */
  lemma {:induction false} RunsMirror(symbolId: Word, config: OrderBookConfig, commands: seq<EngineCommand>)
    ensures var e := FreshEngine(symbolId, config);
      Run(e, ReflectCommands(config.priceLevelCount, commands))
      == ReflectResult(config.priceLevelCount, Run(e, commands))
  {
    var e, levels := FreshEngine(symbolId, config), config.priceLevelCount;
    FreshIsValid(symbolId, config);
    if commands == [] {
    } else {
      var before, last := commands[..|commands| - 1], commands[|commands| - 1];
      var mirrored := ReflectCommands(levels, commands);
      assert mirrored[..|mirrored| - 1] == ReflectCommands(levels, before);
      RunsMirror(symbolId, config, before);
      RunKeepsValid(e, before);
      var r := Run(e, before);
      ReflectStep(r.engine, last);
      ReflectAppend(levels, r.events, Step(r.engine, last).events);
    }
  }

  /** Reflecting twice is the identity, so nothing is lost in the mirror. */
  lemma ReflectTwice(e: Engine)
    ensures ReflectEngine(ReflectEngine(e)) == e
  {
    var levels := e.config.priceLevelCount;
    assert ReflectQueue(levels, ReflectQueue(levels, e.book.bids)) == e.book.bids;
    assert ReflectQueue(levels, ReflectQueue(levels, e.book.asks)) == e.book.asks;
  }
}
