/** Rebuilding the book from the event stream alone: Rested adds at the back of its price, Trade takes
    quantity off a resting order or removes it, Cancelled removes. */
module Replay {
  import opened Words
  import opened Wrappers
  import opened Types
  import opened BookSpec
  import opened Matching
  import opened BookTheory
  import opened EngineSpec

  /** A downstream consumer's view: it knows the event, not the command. */
  function ApplyEvent(b: Book, event: EngineEvent): Book {
    match event
    case OrderRested(seqNo, id, clientOrderId, clientId, symbolId, side, price, remaining) =>
      b.With(side, Enqueue(b.Queue(side),
                           OrderInfo(id, clientOrderId, clientId, symbolId, side, price, remaining, seqNo)))
    case TradeExecuted(_, x) =>
      var side := Opposite(x.aggressingSide);
      b.With(side, TakeFrom(b.Queue(side), x.restingOrderId, x.quantity))
    case OrderCancelled(_, id, _, _, _, side, _, _) =>
      b.With(side, Drop(b.Queue(side), id))
    case _ => b
  }

  function TakeFrom(q: seq<OrderInfo>, id: nat, quantity: Word): seq<OrderInfo> {
    if !Holds(q, id) then q
    else
      var i := Position(q, id);
      if quantity >= q[i].remaining then RemoveAt(q, i) else q[i := Reduce(q[i], quantity)]
  }

  function ReplayOn(b: Book, events: seq<EngineEvent>): Book
    decreases |events|
  {
    if events == [] then b else ReplayOn(ApplyEvent(b, events[0]), events[1..])
  }

  lemma {:induction false} ReplayAppend(b: Book, first: seq<EngineEvent>, second: seq<EngineEvent>)
    ensures ReplayOn(b, first + second) == ReplayOn(ReplayOn(b, first), second)
    decreases |first|
  {
    if first == [] {
      assert first + second == second;
    } else {
      assert (first + second)[1..] == first[1..] + second;
      ReplayAppend(ApplyEvent(b, first[0]), first[1..], second);
    }
  }

  lemma ReplayOne(b: Book, event: EngineEvent)
    ensures ReplayOn(b, [event]) == ApplyEvent(b, event)
  {
    assert [event][1..] == [];
  }

  lemma TradesHead(x: MatchExecution, rest: seq<MatchExecution>, firstId: nat)
    ensures Trades([x] + rest, firstId) == [TradeExecuted(firstId, x)] + Trades(rest, firstId + 1)
    ensures Trades([x] + rest, firstId)[1..] == Trades(rest, firstId + 1)
  {
  }

  /** The trades of a fill, replayed, leave exactly the fill's queue. */
  lemma {:induction false} ReplayFill(b: Book, a: OrderInfo, firstId: nat)
    requires Positive(b.Queue(Opposite(a.side)))
    ensures var f := Fill(a, b.Queue(Opposite(a.side)));
      ReplayOn(b, Trades(f.executions, firstId)) == b.With(Opposite(a.side), f.queue)
    decreases |b.Queue(Opposite(a.side))|
  {
    var side := Opposite(a.side);
    var q := b.Queue(side);
    if a.remaining == 0 || q == [] || !Crosses(a.side, a.price, q[0].price) {
    } else if a.remaining < q[0].remaining {
      ReplayOne(b, TradeExecuted(firstId, Execution(a, q[0], a.remaining)));
      assert q[0 := Reduce(q[0], a.remaining)] == [Reduce(q[0], a.remaining)] + q[1..];
      TradesHead(Execution(a, q[0], a.remaining), [], firstId);
      assert Trades([Execution(a, q[0], a.remaining)], firstId)
          == [TradeExecuted(firstId, Execution(a, q[0], a.remaining))];
    } else {
      var x := Execution(a, q[0], q[0].remaining);
      var a' := Reduce(a, q[0].remaining);
      var b' := ApplyEvent(b, TradeExecuted(firstId, x));
      assert RemoveAt(q, 0) == q[1..];
      assert b' == b.With(side, q[1..]);
      TradesHead(x, Fill(a', q[1..]).executions, firstId);
      ReplayFill(b', a', firstId + 1);
    }
  }

  lemma ReplayNewOrder(e: Engine, command: NewOrderCommand)
    requires Valid(e) && NewOrderError(e, command).None?
    ensures ReplayOn(e.book, StepNewOrder(e, command).events) == StepNewOrder(e, command).engine.book
  {
    var a := Incoming(command, e.nextOrderId);
    var f := Fill(a, e.book.Queue(Opposite(a.side)));
    var accepted, trades := Accepted(command, e.nextOrderId), Trades(f.executions, e.nextTradeId);
    FillStops(a, e.book.Queue(Opposite(a.side)));
    ReplayOne(e.book, accepted);
    ReplayAppend(e.book, [accepted], trades);
    ReplayFill(e.book, a, e.nextTradeId);
    var b' := e.book.With(Opposite(a.side), f.queue);
    if f.aggressor.remaining > 0 {
      ReplayAppend(e.book, [accepted] + trades, [Rested(f.aggressor)]);
      ReplayOne(b', Rested(f.aggressor));
    } else {
      assert [accepted] + trades + [] == [accepted] + trades;
    }
  }

  lemma ReplayCancel(e: Engine, command: CancelOrderCommand)
    requires Valid(e)
    ensures ReplayOn(e.book, StepCancel(e, command).events) == StepCancel(e, command).engine.book
  {
    match CancelTarget(e.symbolId, e.book, command)
    case Err(reason) =>
      ReplayOne(e.book, RejectedCancel(command, reason));
    case Ok(o) =>
      ReplayOne(e.book, Cancelled(command.seqNo, o));
      FoundOnOneSide(e.book, o.orderId, e.config.priceLevelCount, e.symbolId, e.nextOrderId);
  }

  lemma FoundOnOneSide(b: Book, id: nat, levels: Word, symbolId: Word, nextId: nat)
    requires WellFormed(b, levels, symbolId, nextId)
    ensures !(Holds(b.bids, id) && Holds(b.asks, id))
    ensures Find(b, id).Some? ==> Remove(b, id) == b.With(Find(b, id).value.side, Drop(b.Queue(Find(b, id).value.side), id))
  {
    HeldOnOneSide(b, id, levels, symbolId, nextId);
  }

  /** One command's events, replayed on the book before it, give the book after it. */
  lemma ReplayStep(e: Engine, command: EngineCommand)
    requires Valid(e)
    ensures ReplayOn(e.book, Step(e, command).events) == Step(e, command).engine.book
  {
    match command
    case NewOrder(c) =>
      match NewOrderError(e, c) {
        case Some(reason) => ReplayOne(e.book, RejectedNew(c, reason));
        case None => ReplayNewOrder(e, c);
      }
    case CancelOrder(c) => ReplayCancel(e, c);
    case ReplaceOrder(c) => ReplayOne(e.book, RejectedReplace(c));
  }

  /** MAIN RESULT. Replaying the whole event stream of any run from an empty book rebuilds the book of
      the engine, FIFO order at every price included. */
  lemma {:induction false} ReplayRebuildsBook(symbolId: Word, config: OrderBookConfig, commands: seq<EngineCommand>)
    ensures var r := Run(FreshEngine(symbolId, config), commands);
      ReplayOn(EMPTY, r.events) == r.engine.book
  {
    var e := FreshEngine(symbolId, config);
    FreshIsValid(symbolId, config);
    if commands != [] {
      var before := commands[..|commands| - 1];
      var last := commands[|commands| - 1];
      ReplayRebuildsBook(symbolId, config, before);
      RunKeepsValid(e, before);
      var r := Run(e, before);
      ReplayAppend(EMPTY, r.events, Step(r.engine, last).events);
      ReplayStep(r.engine, last);
    }
  }
}
