/** Commands, events and enumerations of the exchange (include/sixchange/core). Identifiers that
    come from 64-bit counters are unbounded; prices and quantities are 64-bit words. */
module Types {
  import opened Words

  datatype Side = Buy | Sell

  datatype OrderType = Limit | Market

  datatype TimeInForce = GFD | IOC | FOK

  datatype CommandType = NewOrderType | CancelOrderType | ReplaceOrderType

  datatype RejectReason =
    | NoReason
    | InvalidMessage
    | UnknownSymbol
    | InvalidPrice
    | InvalidQuantity
    | DuplicateClientOrderId
    | UnknownOrder
    | NotOrderOwner
    | UnsupportedOrderType
    | UnsupportedTimeInForce
    | GatewayError
    | CapacityExhausted
    | MatchingEngineError

  datatype NewOrderCommand = NewOrderCommand(
    seqNo: nat, price: Word, quantity: Word, clientOrderId: Word, clientId: Word, symbolId: Word,
    side: Side, orderType: OrderType, tif: TimeInForce)

  datatype CancelOrderCommand = CancelOrderCommand(
    seqNo: nat, orderId: nat, clientOrderId: Word, clientId: Word, symbolId: Word)

  datatype ReplaceOrderCommand = ReplaceOrderCommand(
    seqNo: nat, newPrice: Word, newQuantity: Word, oldClientOrderId: Word, newClientOrderId: Word,
    clientId: Word, symbolId: Word)

  datatype EngineCommand =
    | NewOrder(newOrder: NewOrderCommand)
    | CancelOrder(cancelOrder: CancelOrderCommand)
    | ReplaceOrder(replaceOrder: ReplaceOrderCommand)

  /** What the book knows about an order, links and pool flag aside. */
  datatype OrderInfo = OrderInfo(
    orderId: nat, clientOrderId: Word, clientId: Word, symbolId: Word,
    side: Side, price: Word, remaining: Word, seqNo: nat)

  datatype MatchExecution = MatchExecution(
    seqNo: nat, symbolId: Word, aggressingSide: Side, price: Word, quantity: Word,
    aggressingOrderId: nat, aggressingClientOrderId: Word, aggressingClientId: Word, aggressingRemaining: Word,
    restingOrderId: nat, restingClientOrderId: Word, restingClientId: Word, restingRemaining: Word)

  datatype EngineEvent =
    | OrderAccepted(seqNo: nat, orderId: nat, clientOrderId: Word, clientId: Word, symbolId: Word,
                    side: Side, orderType: OrderType, tif: TimeInForce, price: Word, quantity: Word)
    | CommandRejected(seqNo: nat, clientOrderId: Word, clientId: Word, symbolId: Word,
                      commandType: CommandType, reason: RejectReason)
    | OrderRested(seqNo: nat, orderId: nat, clientOrderId: Word, clientId: Word, symbolId: Word,
                  side: Side, price: Word, remainingQuantity: Word)
    | TradeExecuted(tradeId: nat, execution: MatchExecution)
    | OrderCancelled(seqNo: nat, orderId: nat, clientOrderId: Word, clientId: Word, symbolId: Word,
                     side: Side, price: Word, cancelledQuantity: Word)

  datatype OrderBookConfig = OrderBookConfig(
    maxActiveOrders: Word, priceLevelCount: Word, orderLookupCapacity: Word)

  /** The configurations that the book's constructor does not throw on. */
  predicate ValidConfig(config: OrderBookConfig) {
    && config.maxActiveOrders != 0
    && config.priceLevelCount != 0
    && config.orderLookupCapacity >= config.maxActiveOrders
    && HasSingleBit(config.orderLookupCapacity)
  }

  function Opposite(side: Side): Side {
    if side == Buy then Sell else Buy
  }
}
