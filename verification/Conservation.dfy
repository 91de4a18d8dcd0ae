/** Quantity is conserved over whole runs: nothing is created, lost or filled twice. */
module Conservation {
  import opened Words
  import opened Wrappers
  import opened Types
  import opened BookSpec
  import opened Matching
  import opened BookTheory
  import opened EngineSpec
  import Replay

  /** What the event stream says happened to one order. */
  datatype Tally = Tally(original: nat, traded: nat, cancelled: nat)

  function TallyIn(event: EngineEvent, id: nat): Tally {
    match event
    case OrderAccepted(_, orderId, _, _, _, _, _, _, _, quantity) =>
      Tally(if orderId == id then quantity else 0, 0, 0)
    case TradeExecuted(_, x) =>
      Tally(0, (if x.aggressingOrderId == id then x.quantity else 0)
               + (if x.restingOrderId == id then x.quantity else 0), 0)
    case OrderCancelled(_, orderId, _, _, _, _, _, quantity) =>
      Tally(0, 0, if orderId == id then quantity else 0)
    case _ => Tally(0, 0, 0)
  }

  function TallyOf(events: seq<EngineEvent>, id: nat): Tally {
    if events == [] then Tally(0, 0, 0)
    else
      var first, rest := TallyIn(events[0], id), TallyOf(events[1..], id);
      Tally(first.original + rest.original, first.traded + rest.traded, first.cancelled + rest.cancelled)
  }

  lemma {:induction false} TallyAppend(first: seq<EngineEvent>, second: seq<EngineEvent>, id: nat)
    ensures TallyOf(first + second, id).original == TallyOf(first, id).original + TallyOf(second, id).original
    ensures TallyOf(first + second, id).traded == TallyOf(first, id).traded + TallyOf(second, id).traded
    ensures TallyOf(first + second, id).cancelled == TallyOf(first, id).cancelled + TallyOf(second, id).cancelled
  {
    if first == [] {
      assert first + second == second;
    } else {
      assert (first + second)[1..] == first[1..] + second;
      TallyAppend(first[1..], second, id);
    }
  }

  lemma TallyOne(event: EngineEvent, id: nat)
    ensures TallyOf([event], id) == TallyIn(event, id)
  {
    assert [event][1..] == [];
  }

  /** Quantity that an id has in a queue, and in the book. */
  function Waiting(q: seq<OrderInfo>, id: nat): nat {
    if Holds(q, id) then q[Position(q, id)].remaining else 0
  }

  function RestingQuantity(b: Book, id: nat): nat {
    match Find(b, id)
    case Some(o) => o.remaining
    case None => 0
  }

  lemma WaitingHead(q: seq<OrderInfo>, id: nat)
    requires q != []
    ensures Waiting(q, id) == if q[0].orderId == id then q[0].remaining else Waiting(q[1..], id)
  {
  }

  lemma NotWaiting(q: seq<OrderInfo>, id: nat)
    requires forall i :: 0 <= i < |q| ==> q[i].orderId != id
    ensures Waiting(q, id) == 0
  {
  }

  /** What a fill trades for an id is what the aggressor spent plus what the queue lost. */
  lemma {:induction false} FillTally(a: OrderInfo, q: seq<OrderInfo>, firstId: nat, id: nat)
    requires DistinctIds(q) && forall i :: 0 <= i < |q| ==> q[i].orderId != a.orderId
    ensures var f := Fill(a, q);
      var t := TallyOf(Trades(f.executions, firstId), id);
      && t.original == 0 && t.cancelled == 0
      && t.traded == (if id == a.orderId then a.remaining - f.aggressor.remaining else 0)
                     + Waiting(q, id) - Waiting(f.queue, id)
    decreases |q|
  {
    if a.remaining == 0 || q == [] || !Crosses(a.side, a.price, q[0].price) {
    } else if a.remaining < q[0].remaining {
      var x := Execution(a, q[0], a.remaining);
      assert Trades([x], firstId) == [TradeExecuted(firstId, x)];
      TallyOne(TradeExecuted(firstId, x), id);
      var q' := [Reduce(q[0], a.remaining)] + q[1..];
      WaitingHead(q, id);
      WaitingHead(q', id);
      assert q'[1..] == q[1..];
    } else {
      var x := Execution(a, q[0], q[0].remaining);
      var a' := Reduce(a, q[0].remaining);
      FillTally(a', q[1..], firstId + 1, id);
      FillStops(a', q[1..]);
      Replay.TradesHead(x, Fill(a', q[1..]).executions, firstId);
      WaitingHead(q, id);
      if id == q[0].orderId {
        NotWaiting(q[1..], id);
      }
    }
  }

  lemma {:induction false} EnqueueWaiting(q: seq<OrderInfo>, o: OrderInfo, id: nat)
    requires forall i :: 0 <= i < |q| ==> q[i].orderId != o.orderId
    ensures Waiting(Enqueue(q, o), id) == Waiting(q, id) + (if id == o.orderId then o.remaining else 0)
  {
    WaitingHead(Enqueue(q, o), id);
    NotWaiting(q, o.orderId);
    if q == [] || Better(o.side, o.price, q[0].price) {
      assert Enqueue(q, o)[1..] == q;
    } else {
      assert Enqueue(q, o)[1..] == Enqueue(q[1..], o);
      EnqueueWaiting(q[1..], o, id);
      WaitingHead(q, id);
    }
  }

  lemma DropWaiting(q: seq<OrderInfo>, gone: nat, id: nat)
    requires DistinctIds(q)
    ensures Waiting(Drop(q, gone), id) == if id == gone then 0 else Waiting(q, id)
  {
    if Holds(q, gone) {
      var i := Position(q, gone);
      var r := RemoveAt(q, i);
      if id == gone {
        NotWaiting(r, id);
      } else if Holds(q, id) {
        var j := Position(q, id);
        PositionIs(r, id, if j < i then j else j - 1);
      } else {
        NotWaiting(r, id);
      }
    }
  }

  lemma {:induction false} PositionIs(q: seq<OrderInfo>, id: nat, i: nat)
    requires i < |q| && q[i].orderId == id && forall j :: 0 <= j < i ==> q[j].orderId != id
    ensures Position(q, id) == i
  {
    if i > 0 {
      PositionIs(q[1..], id, i - 1);
    }
  }

  /** In a well-formed book, no id is on both sides. */
  lemma OneSide(b: Book, id: nat, levels: Word, symbolId: Word, nextId: nat)
    requires WellFormed(b, levels, symbolId, nextId)
    ensures RestingQuantity(b, id) == Waiting(b.bids, id) + Waiting(b.asks, id)
    ensures id >= nextId ==> RestingQuantity(b, id) == 0
  {
    Replay.FoundOnOneSide(b, id, levels, symbolId, nextId);
  }

  lemma NewOrderTally(e: Engine, command: NewOrderCommand, id: nat)
    requires Valid(e) && NewOrderError(e, command).None?
    ensures var s := StepNewOrder(e, command);
      var t := TallyOf(s.events, id);
      && t.original + RestingQuantity(e.book, id)
         == t.traded + t.cancelled + RestingQuantity(s.engine.book, id)
      && (id < e.nextOrderId || id > e.nextOrderId ==> t.original == 0)
  {
    var a := Incoming(command, e.nextOrderId);
    var across, own := e.book.Queue(Opposite(a.side)), e.book.Queue(a.side);
    var f := Fill(a, across);
    var s := StepNewOrder(e, command);
    var accepted, trades := Accepted(command, e.nextOrderId), Trades(f.executions, e.nextTradeId);
    var rested := if f.aggressor.remaining > 0 then [Rested(f.aggressor)] else [];
    TallyAppend([accepted] + trades, rested, id);
    TallyAppend([accepted], trades, id);
    TallyOne(accepted, id);
    TallyOne(Rested(f.aggressor), id);
    FillTally(a, across, e.nextTradeId, id);
    FillStops(a, across);
    EnqueueWaiting(own, f.aggressor, id);
    OneSide(e.book, id, e.config.priceLevelCount, e.symbolId, e.nextOrderId);
    StepKeepsValid(e, NewOrder(command));
    OneSide(s.engine.book, id, e.config.priceLevelCount, e.symbolId, s.engine.nextOrderId);
  }

  lemma RemoveWaiting(b: Book, gone: nat, id: nat, levels: Word, symbolId: Word, nextId: nat)
    requires WellFormed(b, levels, symbolId, nextId)
    ensures RestingQuantity(Remove(b, gone), id) == if id == gone then 0 else RestingQuantity(b, id)
  {
    DropWaiting(b.bids, gone, id);
    DropWaiting(b.asks, gone, id);
    OneSide(b, id, levels, symbolId, nextId);
    RemoveKeepsBook(b, gone, levels, symbolId, nextId);
    OneSide(Remove(b, gone), id, levels, symbolId, nextId);
  }

  lemma CancelTally(e: Engine, command: CancelOrderCommand, id: nat)
    requires Valid(e)
    ensures var s := StepCancel(e, command);
      var t := TallyOf(s.events, id);
      && t.original == 0
      && RestingQuantity(e.book, id) == t.traded + t.cancelled + RestingQuantity(s.engine.book, id)
  {
    match CancelTarget(e.symbolId, e.book, command)
    case Err(reason) =>
      TallyOne(RejectedCancel(command, reason), id);
    case Ok(o) =>
      TallyOne(Cancelled(command.seqNo, o), id);
      RemoveWaiting(e.book, o.orderId, id, e.config.priceLevelCount, e.symbolId, e.nextOrderId);
      OneSide(e.book, o.orderId, e.config.priceLevelCount, e.symbolId, e.nextOrderId);
  }

  /** One command conserves the quantity of every order id. */
  lemma StepConserves(e: Engine, command: EngineCommand, id: nat)
    requires Valid(e)
    ensures var s := Step(e, command);
      var t := TallyOf(s.events, id);
      && t.original + RestingQuantity(e.book, id)
         == t.traded + t.cancelled + RestingQuantity(s.engine.book, id)
  {
    match command
    case NewOrder(c) =>
      match NewOrderError(e, c) {
        case Some(reason) => TallyOne(RejectedNew(c, reason), id);
        case None => NewOrderTally(e, c, id);
      }
    case CancelOrder(c) => CancelTally(e, c, id);
    case ReplaceOrder(c) => TallyOne(RejectedReplace(c), id);
  }

  /** MAIN RESULT. After any run, for every order: original quantity = traded (on either side)
      + cancelled + still resting. */
  lemma {:induction false} QuantityIsConserved(symbolId: Word, config: OrderBookConfig, commands: seq<EngineCommand>,
                                               id: nat)
    ensures var r := Run(FreshEngine(symbolId, config), commands);
      var t := TallyOf(r.events, id);
      t.original == t.traded + t.cancelled + RestingQuantity(r.engine.book, id)
  {
    var e := FreshEngine(symbolId, config);
    FreshIsValid(symbolId, config);
    if commands != [] {
      var before, last := commands[..|commands| - 1], commands[|commands| - 1];
      QuantityIsConserved(symbolId, config, before, id);
      RunKeepsValid(e, before);
      var r := Run(e, before);
      TallyAppend(r.events, Step(r.engine, last).events, id);
      StepConserves(r.engine, last, id);
    }
  }

  // ---------------------------------------------------------------- both sides of every trade

  /** The side of every accepted order, as the event stream tells it. */
  function SidesIn(sides: map<nat, Side>, events: seq<EngineEvent>): map<nat, Side>
    decreases |events|
  {
    if events == [] then sides
    else SidesIn(if events[0].OrderAccepted? then sides[events[0].orderId := events[0].side] else sides, events[1..])
  }

  function Volume(events: seq<EngineEvent>): nat {
    if events == [] then 0
    else (if events[0].TradeExecuted? then events[0].execution.quantity else 0) + Volume(events[1..])
  }

  /** Quantity traded by the accepted orders of one side with an id below `n`. */
  function SideTraded(sides: map<nat, Side>, events: seq<EngineEvent>, side: Side, n: nat): nat {
    if n == 0 then 0
    else SideTraded(sides, events, side, n - 1)
         + Share(sides, events, side, n - 1)
  }

  /** What one accepted order of the given side traded. */
  function Share(sides: map<nat, Side>, events: seq<EngineEvent>, side: Side, id: nat): nat {
    if id in sides && sides[id] == side then TallyOf(events, id).traded else 0
  }

  lemma ShareAppend(sides: map<nat, Side>, first: seq<EngineEvent>, second: seq<EngineEvent>, side: Side, id: nat)
    ensures Share(sides, first + second, side, id) == Share(sides, first, side, id) + Share(sides, second, side, id)
  {
    TallyAppend(first, second, id);
  }

  /** A trade is between two accepted orders, of the sides that it names. */
  ghost predicate TwoSided(sides: map<nat, Side>, event: EngineEvent, n: nat) {
    event.TradeExecuted? ==>
      var x := event.execution;
      && x.aggressingOrderId < n && x.aggressingOrderId in sides && sides[x.aggressingOrderId] == x.aggressingSide
      && x.restingOrderId < n && x.restingOrderId in sides && sides[x.restingOrderId] == Opposite(x.aggressingSide)
  }

  ghost predicate AllTwoSided(sides: map<nat, Side>, events: seq<EngineEvent>, n: nat) {
    forall i :: 0 <= i < |events| ==> TwoSided(sides, events[i], n)
  }

  /** The id that a trade reports on the given side. */
  function IdOn(x: MatchExecution, side: Side): nat {
    if x.aggressingSide == side then x.aggressingOrderId else x.restingOrderId
  }

  lemma TradeTally(sides: map<nat, Side>, event: EngineEvent, side: Side, n: nat, id: nat)
    requires TwoSided(sides, event, n) && event.TradeExecuted?
    ensures (if id in sides && sides[id] == side then TallyIn(event, id).traded else 0)
            == if id == IdOn(event.execution, side) then event.execution.quantity else 0
  {
  }

  /** One event contributes the same to both sides: what it trades. */
  lemma {:induction false} OneEventBothSides(sides: map<nat, Side>, event: EngineEvent, side: Side, n: nat, upTo: nat)
    requires TwoSided(sides, event, n) && event.TradeExecuted?
    ensures SideTraded(sides, [event], side, upTo)
            == if IdOn(event.execution, side) < upTo then event.execution.quantity else 0
  {
    if upTo > 0 {
      var id := upTo - 1;
      var share := Share(sides, [event], side, id);
      assert SideTraded(sides, [event], side, upTo) == SideTraded(sides, [event], side, id) + share;
      assert share == if id == IdOn(event.execution, side) then event.execution.quantity else 0 by {
        TallyOne(event, id);
        TradeTally(sides, event, side, n, id);
      }
      OneEventBothSides(sides, event, side, n, id);
    }
  }

  lemma {:induction false} QuietEvent(sides: map<nat, Side>, event: EngineEvent, side: Side, n: nat)
    requires !event.TradeExecuted?
    ensures SideTraded(sides, [event], side, n) == 0
  {
    if n > 0 {
      QuietEvent(sides, event, side, n - 1);
      TallyOne(event, n - 1);
    }
  }

  lemma {:induction false} SideTradedAppend(sides: map<nat, Side>, first: seq<EngineEvent>, second: seq<EngineEvent>,
                                            side: Side, n: nat)
    ensures SideTraded(sides, first + second, side, n)
            == SideTraded(sides, first, side, n) + SideTraded(sides, second, side, n)
  {
    if n > 0 {
      SideTradedAppend(sides, first, second, side, n - 1);
      ShareAppend(sides, first, second, side, n - 1);
    }
  }

  lemma {:induction false} NothingTraded(sides: map<nat, Side>, side: Side, n: nat)
    ensures SideTraded(sides, [], side, n) == 0
  {
    if n > 0 {
      NothingTraded(sides, side, n - 1);
    }
  }

  lemma {:induction false} SideTradesVolume(sides: map<nat, Side>, events: seq<EngineEvent>, side: Side, n: nat)
    requires AllTwoSided(sides, events, n)
    ensures SideTraded(sides, events, side, n) == Volume(events)
  {
    if events == [] {
      NothingTraded(sides, side, n);
    } else {
      assert events == [events[0]] + events[1..];
      assert TwoSided(sides, events[0], n);
      SideTradedAppend(sides, [events[0]], events[1..], side, n);
      if events[0].TradeExecuted? {
        OneEventBothSides(sides, events[0], side, n, n);
      } else {
        QuietEvent(sides, events[0], side, n);
      }
      SideTradesVolume(sides, events[1..], side, n);
    }
  }

  lemma {:induction false} SidesAppend(sides: map<nat, Side>, first: seq<EngineEvent>, second: seq<EngineEvent>)
    ensures SidesIn(sides, first + second) == SidesIn(SidesIn(sides, first), second)
    decreases |first|
  {
    if first == [] {
      assert first + second == second;
    } else {
      assert (first + second)[1..] == first[1..] + second;
      SidesAppend(if first[0].OrderAccepted? then sides[first[0].orderId := first[0].side] else sides, first[1..], second);
    }
  }

  lemma {:induction false} NoAcceptance(sides: map<nat, Side>, events: seq<EngineEvent>)
    requires forall i :: 0 <= i < |events| ==> !events[i].OrderAccepted?
    ensures SidesIn(sides, events) == sides
  {
    if events != [] {
      NoAcceptance(sides, events[1..]);
    }
  }

  /** The accepted sides know every resting order, and only ids handed out so far. */
  ghost predicate SidesKnown(sides: map<nat, Side>, e: Engine) {
    && QueueKnown(sides, Buy, e.book.bids)
    && QueueKnown(sides, Sell, e.book.asks)
    && (forall id :: id in sides ==> id < e.nextOrderId)
  }

  ghost predicate QueueKnown(sides: map<nat, Side>, side: Side, q: seq<OrderInfo>) {
    forall i :: 0 <= i < |q| ==> q[i].orderId in sides && sides[q[i].orderId] == side
  }

  lemma {:induction false} FillTwoSided(sides: map<nat, Side>, a: OrderInfo, q: seq<OrderInfo>, firstId: nat, n: nat)
    requires QueueKnown(sides, Opposite(a.side), q) && forall i :: 0 <= i < |q| ==> q[i].orderId < n
    requires a.orderId in sides && sides[a.orderId] == a.side && a.orderId < n
    ensures AllTwoSided(sides, Trades(Fill(a, q).executions, firstId), n)
    ensures QueueKnown(sides, Opposite(a.side), Fill(a, q).queue)
    decreases |q|
  {
    if a.remaining == 0 || q == [] || !Crosses(a.side, a.price, q[0].price) {
    } else if a.remaining < q[0].remaining {
      assert q[0].orderId in sides;
    } else {
      assert q[0].orderId in sides;
      var a' := Reduce(a, q[0].remaining);
      FillTwoSided(sides, a', q[1..], firstId + 1, n);
      Replay.TradesHead(Execution(a, q[0], q[0].remaining), Fill(a', q[1..]).executions, firstId);
    }
  }

  lemma EnqueueKnown(sides: map<nat, Side>, q: seq<OrderInfo>, o: OrderInfo)
    requires QueueKnown(sides, o.side, q) && o.orderId in sides && sides[o.orderId] == o.side
    ensures QueueKnown(sides, o.side, Enqueue(q, o))
  {
    EnqueueInserts(q, o);
  }

  lemma NewOrderTwoSided(sides: map<nat, Side>, e: Engine, command: NewOrderCommand)
    requires Valid(e) && SidesKnown(sides, e) && NewOrderError(e, command).None?
    ensures var s := StepNewOrder(e, command);
      var sides' := sides[e.nextOrderId := command.side];
      && SidesIn(sides, s.events) == sides'
      && SidesKnown(sides', s.engine)
      && AllTwoSided(sides', s.events, s.engine.nextOrderId)
  {
    var a := Incoming(command, e.nextOrderId);
    var across := e.book.Queue(Opposite(a.side));
    var sides' := sides[a.orderId := a.side];
    var f := Fill(a, across);
    AcceptedKnown(sides, e, command);
    AcceptedTradesTwoSided(sides', command, f.executions, e.nextTradeId, e.nextOrderId,
                           if f.aggressor.remaining > 0 then [Rested(f.aggressor)] else [], sides);
  }

  lemma AcceptedKnown(sides: map<nat, Side>, e: Engine, command: NewOrderCommand)
    requires Valid(e) && SidesKnown(sides, e) && NewOrderError(e, command).None?
    ensures var a := Incoming(command, e.nextOrderId);
      var sides' := sides[e.nextOrderId := command.side];
      && SidesKnown(sides', StepNewOrder(e, command).engine)
      && AllTwoSided(sides', Trades(Fill(a, e.book.Queue(Opposite(a.side))).executions, e.nextTradeId), e.nextOrderId + 1)
  {
    var a := Incoming(command, e.nextOrderId);
    var across, own := e.book.Queue(Opposite(a.side)), e.book.Queue(a.side);
    var sides' := sides[a.orderId := a.side];
    AcceptedResult(e, command);
    FillStops(a, across);
    FillTwoSided(sides', a, across, e.nextTradeId, e.nextOrderId + 1);
    EnqueueKnown(sides', own, Fill(a, across).aggressor);
  }

  lemma AcceptedTradesTwoSided(sides: map<nat, Side>, command: NewOrderCommand, executions: seq<MatchExecution>,
                               firstId: nat, id: nat, last: seq<EngineEvent>, before: map<nat, Side>)
    requires AllTwoSided(sides, Trades(executions, firstId), id + 1)
    requires forall i :: 0 <= i < |last| ==> last[i].OrderRested?
    ensures var events := [Accepted(command, id)] + Trades(executions, firstId) + last;
      && AllTwoSided(sides, events, id + 1)
      && SidesIn(before, events) == before[id := command.side]
  {
    var trades := Trades(executions, firstId);
    var events := [Accepted(command, id)] + trades + last;
    forall i | 0 <= i < |events|
      ensures TwoSided(sides, events[i], id + 1)
      ensures i > 0 ==> !events[i].OrderAccepted?
    {
      assert 0 < i <= |trades| ==> events[i] == trades[i - 1];
    }
    NoAcceptance(before[id := command.side], events[1..]);
  }

  lemma StepTwoSided(sides: map<nat, Side>, e: Engine, command: EngineCommand)
    requires Valid(e) && SidesKnown(sides, e)
    ensures var s := Step(e, command);
      var sides' := SidesIn(sides, s.events);
      && SidesKnown(sides', s.engine)
      && AllTwoSided(sides', s.events, s.engine.nextOrderId)
      && (forall id :: id in sides ==> id in sides' && sides'[id] == sides[id])
  {
    match command
    case NewOrder(c) =>
      if NewOrderError(e, c).None? {
        NewOrderTwoSided(sides, e, c);
      } else {
        NoAcceptance(sides, StepNewOrder(e, c).events);
      }
    case CancelOrder(c) =>
      CancelTwoSided(sides, e, c);
    case ReplaceOrder(c) =>
      NoAcceptance(sides, Step(e, command).events);
  }

  lemma DropKnown(sides: map<nat, Side>, side: Side, q: seq<OrderInfo>, id: nat)
    requires QueueKnown(sides, side, q)
    ensures QueueKnown(sides, side, Drop(q, id))
  {
    forall i | 0 <= i < |Drop(q, id)|
      ensures Drop(q, id)[i].orderId in sides && sides[Drop(q, id)[i].orderId] == side
    {
      assert Drop(q, id)[i] == if i < Position(q, id) then q[i] else q[i + 1];
    }
  }

  lemma CancelTwoSided(sides: map<nat, Side>, e: Engine, command: CancelOrderCommand)
    requires Valid(e) && SidesKnown(sides, e)
    ensures var s := StepCancel(e, command);
      && SidesIn(sides, s.events) == sides
      && SidesKnown(sides, s.engine)
      && AllTwoSided(sides, s.events, s.engine.nextOrderId)
  {
    NoAcceptance(sides, StepCancel(e, command).events);
    DropKnown(sides, Buy, e.book.bids, command.orderId);
    DropKnown(sides, Sell, e.book.asks, command.orderId);
  }

  lemma {:induction false} RunTwoSided(symbolId: Word, config: OrderBookConfig, commands: seq<EngineCommand>)
    ensures var r := Run(FreshEngine(symbolId, config), commands);
      var sides := SidesIn(map[], r.events);
      SidesKnown(sides, r.engine) && AllTwoSided(sides, r.events, r.engine.nextOrderId)
  {
    var e := FreshEngine(symbolId, config);
    FreshIsValid(symbolId, config);
    if commands != [] {
      var before, last := commands[..|commands| - 1], commands[|commands| - 1];
      RunTwoSided(symbolId, config, before);
      RunKeepsValid(e, before);
      var r := Run(e, before);
      var sides := SidesIn(map[], r.events);
      var s := Step(r.engine, last);
      StepTwoSided(sides, r.engine, last);
      SidesAppend(map[], r.events, s.events);
      forall i | 0 <= i < |r.events + s.events|
        ensures TwoSided(SidesIn(sides, s.events), (r.events + s.events)[i], s.engine.nextOrderId)
      {
        assert i < |r.events| ==> TwoSided(sides, r.events[i], r.engine.nextOrderId);
      }
    }
  }

  /** MAIN RESULT. After any run, the quantity bought by the accepted buy orders equals the quantity sold
      by the accepted sell orders, and both are the volume of the trades reported. */
  lemma BoughtEqualsSold(symbolId: Word, config: OrderBookConfig, commands: seq<EngineCommand>)
    ensures var r := Run(FreshEngine(symbolId, config), commands);
      var sides := SidesIn(map[], r.events);
      && SideTraded(sides, r.events, Buy, r.engine.nextOrderId) == Volume(r.events)
      && SideTraded(sides, r.events, Sell, r.engine.nextOrderId) == Volume(r.events)
  {
    var r := Run(FreshEngine(symbolId, config), commands);
    RunTwoSided(symbolId, config, commands);
    SideTradesVolume(SidesIn(map[], r.events), r.events, Buy, r.engine.nextOrderId);
    SideTradesVolume(SidesIn(map[], r.events), r.events, Sell, r.engine.nextOrderId);
  }
}
