/** The limit order book (src/engine/OrderBook.cpp) over the pool, the price levels and the id index. */
module OrderBooks {
  import opened Words
  import opened Wrappers
  import opened Types
  import opened BookSpec
  import opened Matching
  import opened Flattening
  import opened OpenAddressing
  import opened Pool
  import opened Levels
  import opened BookLayout

  /** A layout, and the reference book that it stands for. */
  datatype View = View(layout: Layout, book: Book)

  class OrderBook {
    const symbolId: Word
    const config: OrderBookConfig
    const orders: OrderPool
    const ordersById: FixedOrderMap<nat, nat>
    // The level objects never change identity, so the arrays that hold them are constant sequences.
    const bids: seq<PriceLevel>
    const asks: seq<PriceLevel>
    ghost const levelSet: set<PriceLevel>
    var bestBid: Option<nat>
    var bestAsk: Option<nat>
    var activeBidOrders: nat
    var activeAskOrders: nat
    var executionCount: nat
    ghost var view: View

    // ---------------------------------------------------------------- abstraction and invariant

    ghost function Levels(side: Side): seq<PriceLevel> {
      if side == Buy then bids else asks
    }

    ghost predicate Shape()
      reads ordersById, ordersById.entries
    {
      && config.maxActiveOrders <= config.orderLookupCapacity
      && orders.capacity == orders.orders.Length == config.maxActiveOrders
      && ordersById.Valid() && ordersById.capacity == config.orderLookupCapacity
      && |bids| == |asks| == config.priceLevelCount
      && (forall p {:trigger bids[p]} :: 0 <= p < |bids| ==>
            bids[p] in levelSet && bids[p].price == p && bids[p].side == Buy)
      && (forall p {:trigger asks[p]} :: 0 <= p < |asks| ==>
            asks[p] in levelSet && asks[p].price == p && asks[p].side == Sell)
    }

    /** The fields hold exactly the view.layout `h`. */
    ghost predicate Mirrors(h: Layout)
      reads this, orders, orders.orders, ordersById, ordersById.entries, levelSet
    {
      && Shape()
      && orders.orders[..] == h.os
      && orders.size == h.size && orders.freeHead == h.freeHead && orders.free == h.free
      && ordersById.contents == h.index
      && |h.bids| == |bids| && |h.asks| == |asks|
      && (forall p {:trigger h.bids[p]} :: 0 <= p < |bids| ==>
            && bids[p].head == h.bids[p].head && bids[p].tail == h.bids[p].tail
            && bids[p].totalQuantity == h.bids[p].total && bids[p].list == h.bids[p].list)
      && (forall p {:trigger h.asks[p]} :: 0 <= p < |asks| ==>
            && asks[p].head == h.asks[p].head && asks[p].tail == h.asks[p].tail
            && asks[p].totalQuantity == h.asks[p].total && asks[p].list == h.asks[p].list)
    }

    /** The lists, the pool, the free list and the index agree. */
    ghost predicate Consistent()
      reads this, orders, orders.orders, ordersById, ordersById.entries, levelSet
    {
      Mirrors(view.layout) && Refines(view.layout, view.book, config.priceLevelCount, symbolId)
    }

    /** The cached counters and best prices are what a full scan gives. */
    ghost predicate Cached()
      reads this
    {
      && activeBidOrders == |view.book.bids|
      && activeAskOrders == |view.book.asks|
      && BestIs(Buy, view.layout.bids, bestBid)
      && BestIs(Sell, view.layout.asks, bestAsk)
    }

    /** The invariant of the class. The quantifier keeps the solver from unfolding it wherever it is
        mentioned; `Enter` gives access to it. */
    ghost predicate Valid()
      reads this, orders, orders.orders, ordersById, ordersById.entries, levelSet
    {
      forall n: nat {:trigger Within(n)} :: Within(n) ==> Consistent() && Cached()
    }

    ghost predicate Within(n: nat) {
      true
    }

    lemma Enter()
      requires Valid()
      ensures Consistent() && Cached()
    {
      assert Within(0);
    }

    /** Reading an order through the pool is reading it in the layout. */
    lemma Reading(order: nat)
      requires Valid() && order < |view.layout.os|
      ensures order < orders.orders.Length && orders.orders[order].info == view.layout.os[order].info
    {
      Enter();
    }

    /** MAIN RESULT. Each level holds exactly the reference orders of its price, first in first out, and its
        cached total is the sum of their quantities modulo 2^64. */
    lemma LevelHoldsItsPrice(side: Side, p: Word)
      requires Valid() && p < config.priceLevelCount
      ensures p < |Levels(side)|
      ensures var l, q := Levels(side)[p], AtPrice(view.book.Queue(side), p);
        && Linked(orders.orders[..], l.head, l.tail, l.list)
        && InfosOf(orders.orders[..], l.list) == q
        && l.totalQuantity == Total(q) % TWO_64
    {
      Enter();
      LevelFacts(view.layout, view.book, config.priceLevelCount, symbolId, side, p);
      LevelAtPrice(view.layout, view.book, config.priceLevelCount, symbolId, side, p);
      assert Levels(side)[p].list == view.layout.Side(side)[p].list;
    }

    // ---------------------------------------------------------------- construction

    static method FreshLevels(n: nat, ghost side: Side) returns (levels: seq<PriceLevel>)
      ensures |levels| == n
      ensures forall p {:trigger levels[p]} :: 0 <= p < n ==>
        && fresh(levels[p]) && levels[p].price == p && levels[p].side == side
        && levels[p].head == Null && levels[p].tail == Null && levels[p].totalQuantity == 0 && levels[p].list == []
    {
      levels := [];
      for p := 0 to n
        invariant |levels| == p
        invariant forall q {:trigger levels[q]} :: 0 <= q < p ==>
          && fresh(levels[q]) && levels[q].price == q && levels[q].side == side
          && levels[q].head == Null && levels[q].tail == Null && levels[q].totalQuantity == 0 && levels[q].list == []
      {
        var level := new PriceLevel(p, side);
        levels := levels + [level];
      }
    }

    constructor (symbolId: Word, config: OrderBookConfig, hash: nat -> Word)
      requires ValidConfig(config)
      ensures Valid() && view.layout.loose == {} && view.book == EMPTY
      ensures this.symbolId == symbolId && this.config == config && executionCount == 0
      ensures fresh(orders) && fresh(orders.orders) && fresh(ordersById) && fresh(ordersById.entries)
      ensures fresh(levelSet)
    {
      this.symbolId := symbolId;
      this.config := config;
      var pool := new OrderPool(config.maxActiveOrders);
      this.orders := pool;
      var index := new FixedOrderMap<nat, nat>(hash, config.orderLookupCapacity);
      this.ordersById := index;
      var b := FreshLevels(config.priceLevelCount, Buy);
      var a := FreshLevels(config.priceLevelCount, Sell);
      this.bids := b;
      this.asks := a;
      this.levelSet := (set p | 0 <= p < |b| :: b[p]) + (set p | 0 <= p < |a| :: a[p]);
      this.bestBid := None;
      this.bestAsk := None;
      this.activeBidOrders := 0;
      this.activeAskOrders := 0;
      this.executionCount := 0;
      ghost var blank := LevelState(Null, Null, 0, []);
      ghost var levels := seq(config.priceLevelCount, _ => blank);
      this.view := View(Layout(pool.orders[..], 0, Null, [], levels, levels, map[], {}), EMPTY);
      new;
      assert Shape();
      assert Mirrors(view.layout);
      EmptyRefines(view.layout, config.priceLevelCount, symbolId);
      assert Consistent() && Cached();
    }

    /** The configurations that the source throws on yield no book. */
    static method Create(symbolId: Word, config: OrderBookConfig, hash: nat -> Word) returns (r: Option<OrderBook>)
      ensures r.Some? <==>
        && config.maxActiveOrders > 0 && config.priceLevelCount > 0
        && config.orderLookupCapacity >= config.maxActiveOrders && HasSingleBit(config.orderLookupCapacity)
      ensures r.Some? ==> fresh(r.value) && r.value.Valid() && r.value.view.layout.loose == {} && r.value.view.book == EMPTY
    {
      if config.maxActiveOrders == 0 || config.priceLevelCount == 0
         || config.orderLookupCapacity < config.maxActiveOrders
         || BitAnd(config.orderLookupCapacity, config.orderLookupCapacity - 1) != 0
      {
        if config.orderLookupCapacity != 0 {
          SingleBitTests(config.orderLookupCapacity);
        }
        return None;
      }
      SingleBitTests(config.orderLookupCapacity);
      var book := new OrderBook(symbolId, config, hash);
      r := Some(book);
    }

    // ---------------------------------------------------------------- list operations

    /** `level.push_back(order)`: in the view.layout, one level and its links change. */
    method PushBackAt(side: Side, p: nat, order: nat, ghost h: Layout)
      returns (ghost h': Layout, ghost l': LevelState)
      requires Mirrors(h) && p < config.priceLevelCount
      requires order < orders.orders.Length
      requires Levels(side)[p].Valid(orders.orders) && order !in Levels(side)[p].list
      modifies orders.orders, Levels(side)[p]
      ensures h' == h.(os := h'.os).WithSide(side, h.Side(side)[p := l'])
      ensures Mirrors(h')
      ensures var l := h.Side(side)[p];
        && l'.list == l.list + [order]
        && OnlyRelinks(h.os, h'.os, l.list, order)
        && Linked(h'.os, l'.head, l'.tail, l'.list)
        && l'.total == WrapAdd(l.total, h.os[order].info.remaining)
    {
      var level := if side == Buy then bids[p] else asks[p];
      assert level.list == h.Side(side)[p].list;
      level.PushBack(orders.orders, order);
      l' := LevelState(level.head, level.tail, level.totalQuantity, level.list);
      h' := h.(os := orders.orders[..]).WithSide(side, h.Side(side)[p := l']);
    }

    /** Puts a loose order at the back of the level of its own side and price. */
    method Append(order: nat) returns (ghost l': LevelState)
      requires Consistent() && order in view.layout.loose
      modifies this`view, orders.orders, levelSet
      ensures Consistent()
      ensures view.layout.loose == old(view.layout).loose - {order}
      ensures order < |old(view.layout).os|
      ensures var o := old(view.layout).os[order].info;
        && o.price < |old(view.layout).Side(o.side)|
        && view.book == old(view.book).With(o.side, Enqueue(old(view.book).Queue(o.side), o))
        && view.layout.Side(o.side) == old(view.layout).Side(o.side)[o.price := l']
        && view.layout.Side(Opposite(o.side)) == old(view.layout).Side(Opposite(o.side))
        && l'.list == old(view.layout).Side(o.side)[o.price].list + [order]
    {
      LooseFacts(view.layout, view.book, config.priceLevelCount, symbolId, order);
      var o := orders.orders[order].info;
      LevelFacts(view.layout, view.book, config.priceLevelCount, symbolId, o.side, o.price);
      ghost var h;
      h, l' := PushBackAt(o.side, o.price, order, view.layout);
      AppendRefines(view.layout, view.book, config.priceLevelCount, symbolId, order, h.os, l');
      view := View(h.(loose := view.layout.loose - {order}),
                   view.book.With(o.side, Enqueue(view.book.Queue(o.side), o)));
      assert Mirrors(view.layout);
    }

    /** `level.remove(order)`: in the view.layout, one level and its links change. */
    method RemoveAtLevel(side: Side, p: nat, order: nat, ghost k: nat, ghost h: Layout)
      returns (ghost h': Layout, ghost l': LevelState)
      requires Mirrors(h) && p < config.priceLevelCount
      requires Levels(side)[p].Valid(orders.orders)
      requires k < |Levels(side)[p].list| && Levels(side)[p].list[k] == order
      modifies orders.orders, Levels(side)[p]
      ensures h' == h.(os := h'.os).WithSide(side, h.Side(side)[p := l'])
      ensures Mirrors(h')
      ensures order < |h.os|
      ensures var l := h.Side(side)[p];
        && l'.list == Cut(l.list, k)
        && OnlyRelinks(h.os, h'.os, l.list, order)
        && Linked(h'.os, l'.head, l'.tail, l'.list)
        && l'.total == WrapSub(l.total, h.os[order].info.remaining)
    {
      var level := if side == Buy then bids[p] else asks[p];
      assert level.list == h.Side(side)[p].list;
      level.Remove(orders.orders, order, k);
      l' := LevelState(level.head, level.tail, level.totalQuantity, level.list);
      h' := h.(os := orders.orders[..]).WithSide(side, h.Side(side)[p := l']);
    }

    /** Takes a resting order out of its level's list, wherever it stands in it. */
    method Unlink(order: nat) returns (ghost k: nat, ghost l': LevelState)
      requires Consistent()
      requires order < |view.layout.os| && view.layout.os[order].active && order !in view.layout.loose
      modifies this`view, orders.orders, levelSet
      ensures Consistent()
      ensures view.layout.loose == old(view.layout).loose + {order}
      ensures SameInfos(old(view.layout).os, view.layout.os)
      ensures var o := old(view.layout).os[order].info;
        var q := old(view.book).Queue(o.side);
        && Holds(q, o.orderId) && q[Position(q, o.orderId)] == o
        && view.book == old(view.book).With(o.side, Drop(q, o.orderId))
        && o.price < |old(view.layout).Side(o.side)|
        && k < |old(view.layout).Side(o.side)[o.price].list|
        && view.layout.Side(o.side) == old(view.layout).Side(o.side)[o.price := l']
        && view.layout.Side(Opposite(o.side)) == old(view.layout).Side(Opposite(o.side))
        && l'.list == Cut(old(view.layout).Side(o.side)[o.price].list, k)
    {
      k := StandsIn(view.layout, view.book, config.priceLevelCount, symbolId, order);
      var o := orders.orders[order].info;
      LevelFacts(view.layout, view.book, config.priceLevelCount, symbolId, o.side, o.price);
      ghost var h;
      h, l' := RemoveAtLevel(o.side, o.price, order, k, view.layout);
      RelinkingKeepsInfos(view.layout.os, h.os, view.layout.Side(o.side)[o.price].list, order);
      UnlinkRefines(view.layout, view.book, config.priceLevelCount, symbolId, order, k, h.os, l');
      view := View(h.(loose := view.layout.loose + {order}),
                   view.book.With(o.side, Drop(view.book.Queue(o.side), o.orderId)));
      assert Mirrors(view.layout);
    }

    /** `orders_by_id_.erase(id)` and `orders_.release(order)`, for an order in no list. */
    method Retire(order: nat) returns (erased: bool)
      requires Valid() && order in view.layout.loose
      modifies this`view, orders, orders.orders, ordersById, ordersById.entries
      ensures Valid() && erased
      ensures order < |old(view.layout).os| && view == old(view).(layout := Retired(old(view.layout), order))
    {
      Enter();
      RetireRefines(view.layout, view.book, config.priceLevelCount, symbolId, order);
      erased := ordersById.Erase(orders.orders[order].info.orderId);
      orders.Release(order);
      view := view.(layout := Retired(view.layout, order));
      assert Mirrors(view.layout);
      assert Consistent() && Cached();
    }

    // ---------------------------------------------------------------- best prices

    method UpdateBestBidAfterRemoval(removedIndex: nat)
      requires Consistent() && activeBidOrders == |view.book.bids|
      requires removedIndex < |view.layout.bids| && view.layout.bids[removedIndex].list == []
      requires NothingBetter(Buy, view.layout.bids, removedIndex)
      modifies this`bestBid
      ensures BestIs(Buy, view.layout.bids, bestBid)
    {
      LevelsEmptiness(Buy);
      if activeBidOrders == 0 {
        bestBid := None;
        return;
      }
      var index := removedIndex;
      while index > 0
        modifies {}
        invariant index <= removedIndex
        invariant forall q: Word :: index <= q < |view.layout.bids| ==> view.layout.bids[q].list == []
      {
        var candidate := index - 1;
        if !bids[candidate].Empty() {
          break;
        }
        index := candidate;
      }
      bestBid := if index > 0 then Some(index - 1) else None;
    }

    method UpdateBestAskAfterRemoval(removedIndex: nat)
      requires Consistent() && activeAskOrders == |view.book.asks|
      requires removedIndex < |view.layout.asks| && view.layout.asks[removedIndex].list == []
      requires NothingBetter(Sell, view.layout.asks, removedIndex)
      modifies this`bestAsk
      ensures BestIs(Sell, view.layout.asks, bestAsk)
    {
      LevelsEmptiness(Sell);
      if activeAskOrders == 0 {
        bestAsk := None;
        return;
      }
      var candidate := removedIndex + 1;
      while candidate < config.priceLevelCount
        modifies {}
        invariant candidate <= config.priceLevelCount
        invariant forall q: Word :: q < candidate ==> view.layout.asks[q].list == []
      {
        if !asks[candidate].Empty() {
          break;
        }
        candidate := candidate + 1;
      }
      bestAsk := if candidate < config.priceLevelCount then Some(candidate) else None;
    }

    /** A level's head is null exactly when its list is empty, and a side's queue is empty exactly when
        every list is. */
    lemma LevelsEmptiness(side: Side)
      requires Consistent()
      ensures |view.layout.Side(side)| == config.priceLevelCount
      ensures forall p {:trigger Levels(side)[p].head} {:trigger view.layout.Side(side)[p].list} ::
                0 <= p < config.priceLevelCount ==>
                (Levels(side)[p].head == Null <==> view.layout.Side(side)[p].list == [])
      ensures view.book.Queue(side) == [] ==>
                forall p :: 0 <= p < config.priceLevelCount ==> view.layout.Side(side)[p].list == []
    {
      forall p | 0 <= p < config.priceLevelCount
        ensures Levels(side)[p].head == Null <==> view.layout.Side(side)[p].list == []
      {
        LevelFacts(view.layout, view.book, config.priceLevelCount, symbolId, side, p);
        assert Levels(side)[p].list == view.layout.Side(side)[p].list;
      }
      EmptyQueue(view.layout, view.book, config.priceLevelCount, symbolId, side);
    }

    lemma LevelHead(side: Side, p: nat)
      requires Consistent() && p < config.priceLevelCount
      ensures p < |view.layout.Side(side)|
      ensures Levels(side)[p].head == Null <==> view.layout.Side(side)[p].list == []
    {
      LevelFacts(view.layout, view.book, config.priceLevelCount, symbolId, side, p);
      assert Levels(side)[p].list == view.layout.Side(side)[p].list;
    }

    /** The cached best ask is the price at the front of the reference ask queue. */
    lemma BestAskIsFront()
      requires Valid()
      ensures bestAsk == if view.book.asks == [] then None else Some(view.book.asks[0].price)
    {
      Enter();
      BestIsFront(view.layout, view.book, config.priceLevelCount, symbolId, Sell, bestAsk);
    }

    /** The cached best bid is the price at the front of the reference bid queue. */
    lemma BestBidIsFront()
      requires Valid()
      ensures bestBid == if view.book.bids == [] then None else Some(view.book.bids[0].price)
    {
      Enter();
      BestIsFront(view.layout, view.book, config.priceLevelCount, symbolId, Buy, bestBid);
    }

    // ---------------------------------------------------------------- resting

    method Rest(order: nat)
      requires Valid() && order in view.layout.loose
      modifies this`view, this`activeBidOrders, this`activeAskOrders, this`bestBid, this`bestAsk,
        orders.orders, levelSet
      ensures Valid()
      ensures view.layout.loose == old(view.layout).loose - {order}
      ensures order < |old(view.layout).os|
      ensures var o := old(view.layout).os[order].info;
        view.book == old(view.book).With(o.side, Enqueue(old(view.book).Queue(o.side), o))
    {
      Enter();
      LooseFacts(view.layout, view.book, config.priceLevelCount, symbolId, order);
      var index, side := orders.orders[order].info.price, orders.orders[order].info.side;
      EnqueueSize(view.book.Queue(side), view.layout.os[order].info);
      ghost var h := view.layout;
      ghost var l' := Append(order);
      SettleAfterAppend(side, index, h, l');
    }

    /** Counter and best price of a side after an order joined level `index`. */
    method SettleAfterAppend(side: Side, index: Word, ghost h: Layout, ghost l': LevelState)
      requires Consistent()
      requires activeBidOrders == |view.book.bids| - (if side == Buy then 1 else 0)
      requires activeAskOrders == |view.book.asks| - (if side == Sell then 1 else 0)
      requires BestIs(Buy, h.bids, bestBid) && BestIs(Sell, h.asks, bestAsk)
      requires index < |h.Side(side)| < TWO_64 && l'.list != []
      requires view.layout.Side(side) == h.Side(side)[index := l']
      requires view.layout.Side(Opposite(side)) == h.Side(Opposite(side))
      modifies this`activeBidOrders, this`activeAskOrders, this`bestBid, this`bestAsk
      ensures Valid()
    {
      BestAfterAppend(side, h.Side(side), if side == Buy then bestBid else bestAsk, index, l');
      if side == Buy {
        activeBidOrders := activeBidOrders + 1;
        if bestBid == None || index > bestBid.value {
          bestBid := Some(index);
        }
      } else {
        activeAskOrders := activeAskOrders + 1;
        if bestAsk == None || index < bestAsk.value {
          bestAsk := Some(index);
        }
      }
      assert Mirrors(view.layout);
      assert Consistent() && Cached();
    }

    // ---------------------------------------------------------------- matching

    /** The aggressor, the resting order and the level's cached total each give up `executed`. */
    method Exchange(aggressor: nat, resting: nat, side: Side, p: nat, executed: Word, ghost h: Layout)
      requires Mirrors(h) && p < config.priceLevelCount
      requires aggressor < |h.os| && resting < |h.os| && aggressor != resting
      requires executed <= h.os[aggressor].info.remaining && executed <= h.os[resting].info.remaining
      requires h.os[resting].info.side == side && h.os[resting].info.price == p
      modifies orders.orders, Levels(side)[p]
      ensures Mirrors(HeadReduced(LooseReduced(h, aggressor, executed), resting, executed))
    {
      var level := if side == Buy then bids[p] else asks[p];
      assert level.list == h.Side(side)[p].list;
      var a, r := orders.orders[aggressor], orders.orders[resting];
      level.totalQuantity := WrapSub(level.totalQuantity, executed);
      orders.orders[aggressor] := a.(info := a.info.(remaining := a.info.remaining - executed));
      orders.orders[resting] := r.(info := r.info.(remaining := r.info.remaining - executed));
      assert orders.orders[..] == HeadReduced(LooseReduced(h, aggressor, executed), resting, executed).os;
    }

    /** `level.front()` of the best level of `side`. */
    method FrontOf(side: Side, best: nat) returns (resting: nat)
      requires Valid()
      requires Some(best) == if side == Buy then bestBid else bestAsk
      ensures resting < |view.layout.os| && resting !in view.layout.loose && BestFront(view.layout, resting)
      ensures var q := view.book.Queue(side);
        q != [] && q[0] == view.layout.os[resting].info && q[0].price == best && q[0].side == side
    {
      Enter();
      BestIsFront(view.layout, view.book, config.priceLevelCount, symbolId, side, Some(best));
      var level := if side == Buy then bids[best] else asks[best];
      assert level.list == view.layout.Side(side)[best].list;
      resting := level.Front().slot;
    }

    /** The body of a matching loop up to the emitted execution, against the best level of `side`. */
    method TradeWithBest(aggressor: nat, side: Side, best: nat) returns (resting: nat, execution: MatchExecution)
      requires Valid() && aggressor in view.layout.loose && aggressor < |view.layout.os|
      requires Some(best) == if side == Buy then bestBid else bestAsk
      modifies this`view, orders.orders, levelSet
      ensures Valid() && view.layout.loose == old(view.layout).loose && |view.layout.os| == |old(view.layout).os|
      ensures resting < |view.layout.os| && resting != aggressor
      ensures resting !in view.layout.loose && view.layout.os[resting].active
      ensures var a, q := old(view.layout).os[aggressor].info, old(view.book).Queue(side);
        && q != [] && q[0].price == best && q[0].side == side
        && var x := Min(a.remaining, q[0].remaining);
           && execution == Execution(a, q[0], x)
           && view.layout.os[aggressor].info == Reduce(a, x)
           && view.layout.os[resting].info == Reduce(q[0], x)
           && view.book == old(view.book).With(side, [Reduce(q[0], x)] + q[1..])
    {
      resting := FrontOf(side, best);
      Reading(aggressor);
      Reading(resting);
      var a, r := orders.orders[aggressor].info, orders.orders[resting].info;
      var executed: Word := Min(a.remaining, r.remaining);
      ExchangeAndSettle(aggressor, resting, side, best, executed);
      execution := MatchExecution(
        a.seqNo, a.symbolId, a.side, r.price, executed,
        a.orderId, a.clientOrderId, a.clientId, a.remaining - executed,
        r.orderId, r.clientOrderId, r.clientId, r.remaining - executed);
    }

    /** `Exchange`, seen from the reference book. */
    method ExchangeAndSettle(aggressor: nat, resting: nat, side: Side, best: nat, executed: Word)
      requires Valid() && aggressor in view.layout.loose && aggressor < |view.layout.os|
      requires resting < |view.layout.os| && resting !in view.layout.loose && BestFront(view.layout, resting)
      requires view.layout.os[resting].info.side == side && view.layout.os[resting].info.price == best
      requires executed <= view.layout.os[aggressor].info.remaining && executed <= view.layout.os[resting].info.remaining
      modifies this`view, orders.orders, levelSet
      ensures Valid()
      ensures view.layout == HeadReduced(LooseReduced(old(view.layout), aggressor, executed), resting, executed)
      ensures var q := old(view.book).Queue(side);
        q != [] && q[0] == old(view.layout).os[resting].info
        && view.book == old(view.book).With(side, [Reduce(q[0], executed)] + q[1..])
    {
      Enter();
      LooseFacts(view.layout, view.book, config.priceLevelCount, symbolId, aggressor);
      TradeSettles(view.layout, view.book, config.priceLevelCount, symbolId, aggressor, resting, executed, bestBid, bestAsk);
      Exchange(aggressor, resting, side, best, executed, view.layout);
      view := View(HeadReduced(LooseReduced(view.layout, aggressor, executed), resting, executed),
                   view.book.With(side, [Reduce(view.book.Queue(side)[0], executed)] + view.book.Queue(side)[1..]));
      assert Mirrors(view.layout);
      assert Consistent() && Cached();
    }

    /** A resting order leaves its level; the side's counter and best price follow. */
    method Withdraw(order: nat)
      requires Valid() && order < |view.layout.os| && view.layout.os[order].active && order !in view.layout.loose
      modifies this`view, this`activeBidOrders, this`activeAskOrders, this`bestBid, this`bestAsk,
        orders.orders, levelSet
      ensures Valid()
      ensures view.layout.loose == old(view.layout).loose + {order}
      ensures SameInfos(old(view.layout).os, view.layout.os)
      ensures var o := old(view.layout).os[order].info;
        var q := old(view.book).Queue(o.side);
        && Holds(q, o.orderId) && q[Position(q, o.orderId)] == o
        && view.book == old(view.book).With(o.side, Drop(q, o.orderId))
    {
      Enter();
      ghost var h := view.layout;
      var side, index := orders.orders[order].info.side, orders.orders[order].info.price;
      ghost var k, l' := Unlink(order);
      SettleAfterUnlink(side, index, h, l');
    }

    /** Counter and best price of a side after an order left level `index`. */
    method SettleAfterUnlink(side: Side, index: Word, ghost h: Layout, ghost l': LevelState)
      requires Consistent()
      requires activeBidOrders == |view.book.bids| + (if side == Buy then 1 else 0)
      requires activeAskOrders == |view.book.asks| + (if side == Sell then 1 else 0)
      requires BestIs(Buy, h.bids, bestBid) && BestIs(Sell, h.asks, bestAsk)
      requires index < |h.Side(side)| < TWO_64 && h.Side(side)[index].list != []
      requires view.layout.Side(side) == h.Side(side)[index := l']
      requires view.layout.Side(Opposite(side)) == h.Side(Opposite(side))
      modifies this`activeBidOrders, this`activeAskOrders, this`bestBid, this`bestAsk
      ensures Valid()
    {
      BestAfterOther(side, h.Side(side), if side == Buy then bestBid else bestAsk, index, l');
      EmptyQueue(view.layout, view.book, config.priceLevelCount, symbolId, side);
      LevelHead(side, index);
      if side == Buy {
        activeBidOrders := activeBidOrders - 1;
        if bestBid == Some(index) {
          BestAfterCut(Buy, h.bids, index, l');
          if bids[index].Empty() {
            UpdateBestBidAfterRemoval(index);
          }
        }
      } else {
        activeAskOrders := activeAskOrders - 1;
        if bestAsk == Some(index) {
          BestAfterCut(Sell, h.asks, index, l');
          if asks[index].Empty() {
            UpdateBestAskAfterRemoval(index);
          }
        }
      }
      assert Mirrors(view.layout);
      assert Consistent() && Cached();
    }

    /** One iteration of the loop of `MatchBuy`. */
    method MatchBuyOnce(aggressor: nat) returns (execution: MatchExecution)
      requires Valid() && aggressor in view.layout.loose
      requires aggressor < |view.layout.os| && view.layout.os[aggressor].info.side == Buy
      requires bestAsk.Some?
      modifies this`view, this`executionCount, this`bestBid, this`bestAsk,
        this`activeBidOrders, this`activeAskOrders, orders, orders.orders, ordersById, ordersById.entries, levelSet
      ensures Valid() && view.layout.loose == old(view.layout).loose
      ensures executionCount == old(executionCount) + 1
      ensures aggressor < |view.layout.os|
      ensures var a, q := old(view.layout).os[aggressor].info, old(view.book).asks;
        && q != [] && q[0].price == old(bestAsk).value
        && var x := Min(a.remaining, q[0].remaining);
           && execution == Execution(a, q[0], x)
           && view.layout.os[aggressor].info == Reduce(a, x)
           && view.book == old(view.book).(asks := if x == q[0].remaining then q[1..] else [Reduce(q[0], x)] + q[1..])
    {
      Reading(aggressor);
      var levelIndex := bestAsk.value;
      executionCount := executionCount + 1;
      var resting;
      resting, execution := TradeWithBest(aggressor, Sell, levelIndex);
      Reading(resting);
      if orders.orders[resting].info.remaining == 0 {
        ghost var os := view.layout.os;
        Withdraw(resting);
        assert SameInfoAt(os, view.layout.os, aggressor);
        var erased := Retire(resting);
        assert erased;
      }
    }

    method MatchBuy(aggressor: nat) returns (executions: seq<MatchExecution>)
      requires Valid() && aggressor in view.layout.loose
      requires aggressor < |view.layout.os| && view.layout.os[aggressor].info.side == Buy
      modifies this`view, this`executionCount, this`bestBid, this`bestAsk,
        this`activeBidOrders, this`activeAskOrders, orders, orders.orders, ordersById, ordersById.entries, levelSet
      ensures Valid() && view.layout.loose == old(view.layout).loose
      ensures aggressor < |view.layout.os|
      ensures var f := Fill(old(view.layout).os[aggressor].info, old(view.book).asks);
        && view.book == old(view.book).(asks := f.queue)
        && view.layout.os[aggressor].info == f.aggressor
        && executions == f.executions
      ensures executionCount == old(executionCount) + |executions|
      ensures forall x :: x in executions ==> x.price <= old(view.layout).os[aggressor].info.price
      ensures view.layout.os[aggressor].info.remaining > 0 && bestAsk.Some? ==>
        old(view.layout).os[aggressor].info.price < bestAsk.value
    {
      executions := [];
      Reading(aggressor);
      ghost var a, q := view.layout.os[aggressor].info, view.book.asks;
      while orders.orders[aggressor].info.remaining > 0 && bestAsk.Some?
            && orders.orders[aggressor].info.price >= bestAsk.value
        invariant Valid() && view.layout.loose == old(view.layout).loose
        invariant aggressor < orders.orders.Length && aggressor < |view.layout.os|
        invariant orders.orders[aggressor].info == view.layout.os[aggressor].info
        invariant view.layout.os[aggressor].info == a.(remaining := view.layout.os[aggressor].info.remaining)
        invariant view.book.bids == old(view.book).bids
        invariant Fill(a, q) == Prepend(executions, Fill(view.layout.os[aggressor].info, view.book.asks))
        invariant forall x :: x in executions ==> x.price <= a.price
        invariant executionCount == old(executionCount) + |executions|
        decreases |view.book.asks|, view.layout.os[aggressor].info.remaining
      {
        ghost var b := view.book;
        ghost var cur := view.layout.os[aggressor].info;
        Reading(aggressor);
        BestAskIsFront();
        var execution := MatchBuyOnce(aggressor);
        FillStep(cur, b.asks);
        executions := executions + [execution];
        Reading(aggressor);
      }
      Reading(aggressor);
      BestAskIsFront();
    }

    /** One iteration of the loop of `MatchSell`. */
    method MatchSellOnce(aggressor: nat) returns (execution: MatchExecution)
      requires Valid() && aggressor in view.layout.loose
      requires aggressor < |view.layout.os| && view.layout.os[aggressor].info.side == Sell
      requires bestBid.Some?
      modifies this`view, this`executionCount, this`bestBid, this`bestAsk,
        this`activeBidOrders, this`activeAskOrders, orders, orders.orders, ordersById, ordersById.entries, levelSet
      ensures Valid() && view.layout.loose == old(view.layout).loose
      ensures executionCount == old(executionCount) + 1
      ensures aggressor < |view.layout.os|
      ensures var a, q := old(view.layout).os[aggressor].info, old(view.book).bids;
        && q != [] && q[0].price == old(bestBid).value
        && var x := Min(a.remaining, q[0].remaining);
           && execution == Execution(a, q[0], x)
           && view.layout.os[aggressor].info == Reduce(a, x)
           && view.book == old(view.book).(bids := if x == q[0].remaining then q[1..] else [Reduce(q[0], x)] + q[1..])
    {
      var levelIndex := bestBid.value;
      executionCount := executionCount + 1;
      var resting;
      resting, execution := TradeWithBest(aggressor, Buy, levelIndex);
      Reading(resting);
      if orders.orders[resting].info.remaining == 0 {
        ghost var os := view.layout.os;
        Withdraw(resting);
        assert SameInfoAt(os, view.layout.os, aggressor);
        var erased := Retire(resting);
        assert erased;
      }
    }

    method MatchSell(aggressor: nat) returns (executions: seq<MatchExecution>)
      requires Valid() && aggressor in view.layout.loose
      requires aggressor < |view.layout.os| && view.layout.os[aggressor].info.side == Sell
      modifies this`view, this`executionCount, this`bestBid, this`bestAsk,
        this`activeBidOrders, this`activeAskOrders, orders, orders.orders, ordersById, ordersById.entries, levelSet
      ensures Valid() && view.layout.loose == old(view.layout).loose
      ensures aggressor < |view.layout.os|
      ensures var f := Fill(old(view.layout).os[aggressor].info, old(view.book).bids);
        && view.book == old(view.book).(bids := f.queue)
        && view.layout.os[aggressor].info == f.aggressor
        && executions == f.executions
      ensures executionCount == old(executionCount) + |executions|
      ensures forall x :: x in executions ==> x.price >= old(view.layout).os[aggressor].info.price
      ensures view.layout.os[aggressor].info.remaining > 0 && bestBid.Some? ==>
        old(view.layout).os[aggressor].info.price > bestBid.value
    {
      executions := [];
      Reading(aggressor);
      ghost var a, q := view.layout.os[aggressor].info, view.book.bids;
      while orders.orders[aggressor].info.remaining > 0 && bestBid.Some?
            && orders.orders[aggressor].info.price <= bestBid.value
        invariant Valid() && view.layout.loose == old(view.layout).loose
        invariant aggressor < orders.orders.Length && aggressor < |view.layout.os|
        invariant orders.orders[aggressor].info == view.layout.os[aggressor].info
        invariant view.layout.os[aggressor].info == a.(remaining := view.layout.os[aggressor].info.remaining)
        invariant view.book.asks == old(view.book).asks
        invariant Fill(a, q) == Prepend(executions, Fill(view.layout.os[aggressor].info, view.book.bids))
        invariant forall x :: x in executions ==> x.price >= a.price
        invariant executionCount == old(executionCount) + |executions|
        decreases |view.book.bids|, view.layout.os[aggressor].info.remaining
      {
        ghost var b := view.book;
        ghost var cur := view.layout.os[aggressor].info;
        Reading(aggressor);
        BestBidIsFront();
        var execution := MatchSellOnce(aggressor);
        FillStep(cur, b.bids);
        executions := executions + [execution];
        Reading(aggressor);
      }
      Reading(aggressor);
      BestBidIsFront();
    }

    // ---------------------------------------------------------------- commands

    /** Validates a new order, gives it a slot and indexes it. The `Full` answer of the index cannot occur:
        the index is at least as large as the pool. */
    method Admit(command: NewOrderCommand, orderId: nat) returns (r: Result<nat, RejectReason>)
      requires Valid() && view.layout.loose == {}
      modifies this`view, orders, orders.orders, ordersById, ordersById.entries
      ensures Valid() && view.book == old(view.book)
      ensures match AdmitError(symbolId, config, view.book, command, orderId)
        case Some(reason) => r == Err(reason) && view.layout.loose == {}
        case None => r.Ok? && view.layout.loose == {r.value}
                     && r.value < |view.layout.os| && view.layout.os[r.value].info == Incoming(command, orderId)
    {
      if command.symbolId != symbolId {
        return Err(UnknownSymbol);
      }
      if command.quantity == 0 {
        return Err(InvalidQuantity);
      }
      if command.price >= config.priceLevelCount {
        return Err(InvalidPrice);
      }
      Enter();
      PoolFacts(view.layout, view.book, config.priceLevelCount, symbolId);
      var slot;
      ghost var h;
      slot, h := Reserve();
      if slot == Null {
        return Err(CapacityExhausted);
      }
      var info := OrderInfo(orderId, command.clientOrderId, command.clientId, command.symbolId,
                            command.side, command.price, command.quantity, command.seqNo);
      IndexFacts(view.layout, view.book, config.priceLevelCount, symbolId, orderId);
      r := Register(slot.slot, info, h);
    }

    /** `orders_.allocate()`. */
    method Reserve() returns (slot: Link, ghost h: Layout)
      requires Mirrors(view.layout)
      requires view.layout.size <= |view.layout.os| && Untouched(view.layout.os, view.layout.size)
      requires FreeChain(view.layout.os, view.layout.size, view.layout.freeHead, view.layout.free)
      modifies orders, orders.orders
      ensures Mirrors(h)
      ensures slot == Null <==> view.layout.free == [] && view.layout.size == config.maxActiveOrders
      ensures slot == Null ==> h == view.layout
      ensures slot != Null ==> Reserved(view.layout, h, slot.slot)
    {
      slot := orders.Allocate();
      h := view.layout.(os := orders.orders[..], size := orders.size, freeHead := orders.freeHead, free := orders.free);
    }

    /** Fills in a reserved slot and indexes it; a duplicate id gives the slot back. */
    method Register(order: nat, info: OrderInfo, ghost h: Layout) returns (r: Result<nat, RejectReason>)
      requires Mirrors(h) && Reserved(view.layout, h, order) && Cached()
      requires Refines(view.layout, view.book, config.priceLevelCount, symbolId)
      requires info.price < config.priceLevelCount && info.symbolId == symbolId
      requires |view.layout.index| < config.maxActiveOrders
      modifies this`view, orders, orders.orders, ordersById, ordersById.entries
      ensures Valid() && view.book == old(view.book)
      ensures if info.orderId in old(view.layout).index then
          r == Err(MatchingEngineError) && view.layout.loose == old(view.layout).loose
        else
          && r == Ok(order) && view.layout.loose == old(view.layout).loose + {order}
          && order < |view.layout.os| && view.layout.os[order].info == info
    {
      ReservedPool(view.layout, view.book, config.priceLevelCount, symbolId, h, order, Order(info, Null, Null, true));
      orders.orders[order] := orders.orders[order].(info := info, active := true);
      var inserted := ordersById.Insert(info.orderId, order);
      if inserted == DuplicateKey {
        HandBackRefines(view.layout, view.book, config.priceLevelCount, symbolId, h.size, h.freeHead, h.free, order);
        ReturnSlot(order, h, Order(info, Null, Null, true));
        return Err(MatchingEngineError);
      }
      // `Full` cannot be the answer: the index is at least as large as the pool.
      assert inserted == Inserted;
      AdmitRefines(view.layout, view.book, config.priceLevelCount, symbolId, h.size, h.freeHead, h.free, order, info);
      view := view.(layout := Admitted(view.layout, h.size, h.freeHead, h.free, order, info));
      assert Mirrors(view.layout);
      assert Consistent() && Cached();
      r := Ok(order);
    }

    /** `orders_.release(order)` of a slot that was reserved and filled in but not indexed. */
    method ReturnSlot(order: nat, ghost h: Layout, ghost o: Order)
      requires Reserved(view.layout, h, order) && Cached()
      requires Mirrors(h.(os := h.os[order := o]))
      requires order < h.size <= |h.os| && order !in h.free
      requires FreeChain(h.os[order := o], h.size, h.freeHead, h.free) && Untouched(h.os[order := o], h.size)
      requires Refines(HandedBack(view.layout, h.size, h.freeHead, h.free, order), view.book,
                       config.priceLevelCount, symbolId)
      modifies this`view, orders, orders.orders
      ensures Valid() && view.book == old(view.book) && view.layout.loose == old(view.layout).loose
    {
      orders.Release(order);
      view := view.(layout := HandedBack(view.layout, h.size, h.freeHead, h.free, order));
      assert Mirrors(view.layout);
      assert Consistent() && Cached();
    }

    /** Matches an admitted order and rests, or retires, what is left of it. */
    method Execute(aggressor: nat) returns (remaining: Word, rested: bool, executions: seq<MatchExecution>)
      requires Valid() && view.layout.loose == {aggressor} && aggressor < |view.layout.os|
      modifies this, orders, orders.orders, ordersById, ordersById.entries, levelSet
      ensures Valid() && view.layout.loose == {}
      ensures var (b, a, executed) := BookSpec.Execute(old(view.book), old(view.layout).os[aggressor].info);
        && view.book == b && executions == executed
        && remaining == a.remaining && rested == (a.remaining > 0)
        && executionCount == old(executionCount) + |executed|
    {
      FillStops(view.layout.os[aggressor].info, view.book.Queue(Opposite(view.layout.os[aggressor].info.side)));
      Reading(aggressor);
      if orders.orders[aggressor].info.side == Buy {
        executions := MatchBuy(aggressor);
      } else {
        executions := MatchSell(aggressor);
      }
      Reading(aggressor);
      remaining := orders.orders[aggressor].info.remaining;
      if remaining > 0 {
        Rest(aggressor);
        rested := true;
      } else {
        var erased := Retire(aggressor);
        assert erased;
        rested := false;
      }
    }

    /** Removes a resting order on its owner's request. */
    method Cancel(command: CancelOrderCommand) returns (r: Result<CancelledOrder, RejectReason>)
      requires Valid() && view.layout.loose == {}
      modifies this, orders, orders.orders, ordersById, ordersById.entries, levelSet
      ensures Valid() && view.layout.loose == {} && executionCount == old(executionCount)
      ensures match CancelTarget(symbolId, old(view.book), command)
        case Err(reason) => r == Err(reason) && view.book == old(view.book)
        case Ok(o) => r == Ok(CancelledOf(o)) && view.book == Remove(old(view.book), o.orderId)
    {
      if command.symbolId != symbolId {
        return Err(UnknownSymbol);
      }
      Enter();
      IndexFacts(view.layout, view.book, config.priceLevelCount, symbolId, command.orderId);
      var found := ordersById.Find(command.orderId);
      if found == None {
        return Err(UnknownOrder);
      }
      var order := found.value;
      var info := orders.orders[order].info;
      if info.clientId != command.clientId || info.clientOrderId != command.clientOrderId {
        return Err(NotOrderOwner);
      }
      Withdraw(order);
      var erased := Retire(order);
      assert erased;
      r := Ok(CancelledOrder(info.orderId, info.clientOrderId, info.clientId, info.symbolId,
                             info.side, info.price, info.remaining));
    }
  }
}
