/** The reference book: each side is one queue in priority order (best price first, then arrival).
    Matching consumes the front of the opposite queue; a resting order joins behind every order
    that is priced at least as well. */
module BookSpec {
  import opened Words
  import opened Wrappers
  import opened Types

  datatype Book = Book(bids: seq<OrderInfo>, asks: seq<OrderInfo>) {
    function Queue(side: Side): seq<OrderInfo> {
      if side == Buy then bids else asks
    }

    function With(side: Side, q: seq<OrderInfo>): Book {
      if side == Buy then Book(q, asks) else Book(bids, q)
    }

    function Size(): nat {
      |bids| + |asks|
    }
  }

  const EMPTY := Book([], [])

  /** Price `p` is strictly better than `q` for an order resting on `side`. */
  predicate Better(side: Side, p: Word, q: Word) {
    if side == Buy then p > q else p < q
  }

  /** An aggressor on `side` with the given limit may trade at `price`. */
  predicate Crosses(side: Side, limit: Word, price: Word) {
    if side == Buy then limit >= price else limit <= price
  }

  // ---------------------------------------------------------------- matching

  function Execution(a: OrderInfo, r: OrderInfo, quantity: Word): MatchExecution
    requires quantity <= a.remaining && quantity <= r.remaining
  {
    MatchExecution(a.seqNo, a.symbolId, a.side, r.price, quantity,
                   a.orderId, a.clientOrderId, a.clientId, a.remaining - quantity,
                   r.orderId, r.clientOrderId, r.clientId, r.remaining - quantity)
  }

  function Reduce(o: OrderInfo, quantity: Word): OrderInfo
    requires quantity <= o.remaining
  {
    o.(remaining := o.remaining - quantity)
  }

  datatype FillResult = FillResult(aggressor: OrderInfo, queue: seq<OrderInfo>, executions: seq<MatchExecution>)

  /** Greedy fill of a queue in priority order. */
  function Fill(a: OrderInfo, q: seq<OrderInfo>): FillResult
    decreases |q|
  {
    if a.remaining == 0 || q == [] || !Crosses(a.side, a.price, q[0].price) then
      FillResult(a, q, [])
    else if a.remaining < q[0].remaining then
      FillResult(Reduce(a, a.remaining), [Reduce(q[0], a.remaining)] + q[1..], [Execution(a, q[0], a.remaining)])
    else
      var rest := Fill(Reduce(a, q[0].remaining), q[1..]);
      rest.(executions := [Execution(a, q[0], q[0].remaining)] + rest.executions)
  }

  // ---------------------------------------------------------------- resting and removing

  /** The queue with `o` placed behind every order priced at least as well. */
  function Enqueue(q: seq<OrderInfo>, o: OrderInfo): seq<OrderInfo> {
    if q == [] || Better(o.side, o.price, q[0].price) then [o] + q
    else [q[0]] + Enqueue(q[1..], o)
  }

  /** Position of the order with the given id, or the length of the queue. */
  function Position(q: seq<OrderInfo>, id: nat): (i: nat)
    ensures i <= |q|
    ensures i < |q| ==> q[i].orderId == id
    ensures forall j :: 0 <= j < i ==> q[j].orderId != id
  {
    if q == [] || q[0].orderId == id then 0 else 1 + Position(q[1..], id)
  }

  function RemoveAt<T>(q: seq<T>, i: nat): seq<T>
    requires i < |q|
  {
    q[..i] + q[i + 1..]
  }

  predicate Holds(q: seq<OrderInfo>, id: nat) {
    Position(q, id) < |q|
  }

  function Drop(q: seq<OrderInfo>, id: nat): seq<OrderInfo> {
    if Holds(q, id) then RemoveAt(q, Position(q, id)) else q
  }

  function Find(b: Book, id: nat): Option<OrderInfo> {
    if Holds(b.bids, id) then Some(b.bids[Position(b.bids, id)])
    else if Holds(b.asks, id) then Some(b.asks[Position(b.asks, id)])
    else None
  }

  // ---------------------------------------------------------------- commands on the book

  function Incoming(command: NewOrderCommand, id: nat): OrderInfo {
    OrderInfo(id, command.clientOrderId, command.clientId, command.symbolId,
              command.side, command.price, command.quantity, command.seqNo)
  }

  /** Why a new order is refused, if it is, in the order in which the book checks. */
  function AdmitError(symbolId: Word, config: OrderBookConfig, b: Book, command: NewOrderCommand, id: nat)
    : Option<RejectReason>
  {
    if command.symbolId != symbolId then Some(UnknownSymbol)
    else if command.quantity == 0 then Some(InvalidQuantity)
    else if command.price >= config.priceLevelCount then Some(InvalidPrice)
    else if b.Size() == config.maxActiveOrders then Some(CapacityExhausted)
    else if Find(b, id).Some? then Some(MatchingEngineError)
    else None
  }

  /** Matching an admitted order and resting what is left of it. */
  function Execute(b: Book, a: OrderInfo): (r: (Book, OrderInfo, seq<MatchExecution>))
  {
    var f := Fill(a, b.Queue(Opposite(a.side)));
    var b' := b.With(Opposite(a.side), f.queue);
    (if f.aggressor.remaining > 0 then b'.With(a.side, Enqueue(b'.Queue(a.side), f.aggressor)) else b',
     f.aggressor, f.executions)
  }

  /** The order that a cancel removes, or why it is refused. */
  function CancelTarget(symbolId: Word, b: Book, command: CancelOrderCommand): Result<OrderInfo, RejectReason> {
    if command.symbolId != symbolId then Err(UnknownSymbol)
    else match Find(b, command.orderId)
      case None => Err(UnknownOrder)
      case Some(o) =>
        if o.clientId != command.clientId || o.clientOrderId != command.clientOrderId then Err(NotOrderOwner)
        else Ok(o)
  }

  /** What a successful cancel reports. */
  datatype CancelledOrder = CancelledOrder(
    orderId: nat, clientOrderId: Word, clientId: Word, symbolId: Word,
    side: Side, price: Word, cancelledQuantity: Word)

  function CancelledOf(o: OrderInfo): CancelledOrder {
    CancelledOrder(o.orderId, o.clientOrderId, o.clientId, o.symbolId, o.side, o.price, o.remaining)
  }

  function Remove(b: Book, id: nat): Book {
    Book(Drop(b.bids, id), Drop(b.asks, id))
  }

  // ---------------------------------------------------------------- what a well-formed book is

  /** `x` has strict priority over `y`. Order ids grow with arrival. */
  predicate Ahead(side: Side, x: OrderInfo, y: OrderInfo) {
    Better(side, x.price, y.price) || (x.price == y.price && x.orderId < y.orderId)
  }

  ghost predicate InPriorityOrder(side: Side, q: seq<OrderInfo>) {
    forall i, j :: 0 <= i < j < |q| ==> Ahead(side, q[i], q[j])
  }

  ghost predicate DistinctIds(q: seq<OrderInfo>) {
    forall i, j :: 0 <= i < j < |q| ==> q[i].orderId != q[j].orderId
  }

  /** Every order of the queue is live, on its own side, on the price grid, and older than `nextId`. */
  ghost predicate Members(side: Side, levels: Word, symbolId: Word, nextId: nat, q: seq<OrderInfo>) {
    forall i :: 0 <= i < |q| ==>
      && q[i].side == side
      && q[i].remaining > 0
      && q[i].price < levels
      && q[i].symbolId == symbolId
      && 1 <= q[i].orderId < nextId
  }

  ghost predicate Uncrossed(b: Book) {
    forall i, j :: 0 <= i < |b.bids| && 0 <= j < |b.asks| ==> b.bids[i].price < b.asks[j].price
  }

  ghost predicate Disjoint(p: seq<OrderInfo>, q: seq<OrderInfo>) {
    forall i, j :: 0 <= i < |p| && 0 <= j < |q| ==> p[i].orderId != q[j].orderId
  }

  ghost predicate WellFormed(b: Book, levels: Word, symbolId: Word, nextId: nat) {
    && InPriorityOrder(Buy, b.bids) && InPriorityOrder(Sell, b.asks)
    && DistinctIds(b.bids) && DistinctIds(b.asks) && Disjoint(b.bids, b.asks)
    && Members(Buy, levels, symbolId, nextId, b.bids)
    && Members(Sell, levels, symbolId, nextId, b.asks)
    && Uncrossed(b)
  }
}
