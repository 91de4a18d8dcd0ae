/** Protocol messages (include/sixchange/protocol/Messages.h). */
module Messages {
  import opened Words
  import opened Wrappers
  import opened Types

  datatype InboundMessage =
    | NewOrderRequest(clientOrderId: Word, symbol: string, side: Side, orderType: OrderType, tif: TimeInForce,
                      price: Word, quantity: Word)
    | CancelOrderRequest(clientOrderId: Word, symbol: string)

  datatype OutboundMessage =
    | AcceptedMessage(clientOrderId: Word, orderId: nat)
    | CancelledMessage(clientOrderId: Word, orderId: nat)
    | RejectedMessage(rejectedId: Option<Word>, reason: RejectReason)
}
