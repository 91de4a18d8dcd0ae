/** What the codec answers, stated over the fields of a line: for every line that comes in, and for every message
    that goes out. */
module CodecAnswers {
  import opened Words
  import opened Wrappers
  import opened Types
  import opened Messages
  import opened Numerals
  import opened Tokenizing
  import opened TextCodec

  // ---------------------------------------------------------------- lines that come in

  /** A field that denotes a number from 1 to 2^64 - 1. */
  predicate GoodNumber(field: string) {
    IsNumeral(field) && 1 <= Value(field) <= 0xFFFF_FFFF_FFFF_FFFF
  }

  /** The fields of a new order are in order up to the time in force. */
  predicate GoodHead(fields: seq<string>) {
    && |fields| >= 6 && fields[0] == "N" && GoodNumber(fields[1])
    && (fields[3] == "B" || fields[3] == "S")
    && (fields[4] == "L" || fields[4] == "M")
    && (fields[5] == "GFD" || fields[5] == "IOC" || fields[5] == "FOK")
  }

  predicate GoodCancel(fields: seq<string>) {
    |fields| >= 2 && fields[0] == "C" && GoodNumber(fields[1])
  }

  /** The message is the line, or the line with a carriage return behind it. */
  predicate Carries(message: string, line: string) {
    message == line + "\r" || (message == line && (line == "" || line[|line| - 1] != '\r'))
  }

  lemma GoodNumberIsRead(field: string)
    ensures Positive(field) <==> GoodNumber(field)
    ensures GoodNumber(field) ==> Unsigned(field) == Some(Value(field))
  {
  }

  lemma CarriedBody(message: string, lead: string, fields: seq<Field>)
    requires Blanks(lead) && Separated(fields) && Carries(message, lead + Written(fields)) && |message| <= 256
    ensures Decode(message) == DecodeTokens(TokensOf(fields))
  {
    assert Body(message) == lead + Written(fields);
    SpacingIsIgnored(lead, fields);
  }

  /** MAIN RESULT. A line that is too long is refused without a client id. */
  lemma LongLineIsRefused(message: string)
    requires |message| > 256
    ensures Decode(message) == Err(RejectedMessage(None, InvalidMessage))
  {
  }

  /** MAIN RESULT. Any other line is some spacing of its fields, and they decide the answer: a bad price before a bad
      quantity before surplus or missing fields; only a cancel with a good id is refused under that id. */
  lemma LineIsAnswered(message: string, lead: string, fields: seq<Field>)
    requires Blanks(lead) && Separated(fields) && Carries(message, lead + Written(fields)) && |message| <= 256
    ensures var t := TokensOf(fields);
      Decode(message) ==
        if GoodHead(t) && |t| >= 7 && !GoodNumber(t[6]) then Err(RejectedMessage(None, InvalidPrice))
        else if GoodHead(t) && |t| >= 8 && !GoodNumber(t[7]) then Err(RejectedMessage(None, InvalidQuantity))
        else if GoodHead(t) && |t| == 8 then
          Ok(NewOrderRequest(
            clientOrderId := Value(t[1]), symbol := t[2], side := if t[3] == "B" then Buy else Sell,
            orderType := if t[4] == "L" then Limit else Market,
            tif := if t[5] == "GFD" then GFD else if t[5] == "IOC" then IOC else FOK,
            price := Value(t[6]), quantity := Value(t[7])))
        else if GoodCancel(t) && |t| == 3 then Ok(CancelOrderRequest(clientOrderId := Value(t[1]), symbol := t[2]))
        else if GoodCancel(t) then Err(RejectedMessage(Some(Value(t[1])), InvalidMessage))
        else Err(RejectedMessage(None, InvalidMessage))
  {
    var t := TokensOf(fields);
    CarriedBody(message, lead, fields);
    if |t| >= 2 {
      GoodNumberIsRead(t[1]);
    }
    if |t| >= 7 {
      GoodNumberIsRead(t[6]);
    }
    if |t| >= 8 {
      GoodNumberIsRead(t[7]);
    }
  }

  /** Every message carries some fields, so the two lemmas above leave none out. */
  lemma EveryMessageCarriesFields(message: string) returns (lead: string, fields: seq<Field>)
    ensures Blanks(lead) && Separated(fields) && Carries(message, lead + Written(fields))
  {
    lead, fields := EveryLineIsSpaced(Body(message));
    assert message == Body(message) || message == Body(message) + "\r";
  }

  // ---------------------------------------------------------------- messages that go out

  function ReasonNamed(text: string): Option<RejectReason> {
    if text == "NONE" then Some(NoReason)
    else if text == "INVALID_MESSAGE" then Some(InvalidMessage)
    else if text == "UNKNOWN_SYMBOL" then Some(UnknownSymbol)
    else if text == "INVALID_PRICE" then Some(InvalidPrice)
    else if text == "INVALID_QUANTITY" then Some(InvalidQuantity)
    else if text == "DUPLICATE_CLIENT_ORDER_ID" then Some(DuplicateClientOrderId)
    else if text == "UNKNOWN_ORDER" then Some(UnknownOrder)
    else if text == "NOT_ORDER_OWNER" then Some(NotOrderOwner)
    else if text == "UNSUPPORTED_ORDER_TYPE" then Some(UnsupportedOrderType)
    else if text == "UNSUPPORTED_TIME_IN_FORCE" then Some(UnsupportedTimeInForce)
    else if text == "GATEWAY_ERROR" then Some(GatewayError)
    else if text == "CAPACITY_EXHAUSTED" then Some(CapacityExhausted)
    else if text == "MATCHING_ENGINE_ERROR" then Some(MatchingEngineError)
    else None
  }

  /** A client's reader of outbound lines. */
  function ReadAnswer(text: string): Option<OutboundMessage> {
    var t := Tokens(text);
    if |t| != 3 then None
    else if t[0] == "REJECTED" then
      var id, reason := Unsigned(t[1]), ReasonNamed(t[2]);
      if reason.None? || (id.None? && t[1] != "-") then None else Some(RejectedMessage(id, reason.value))
    else if Unsigned(t[1]).None? || !IsNumeral(t[2]) then None
    else if t[0] == "ACCEPTED" then Some(AcceptedMessage(Unsigned(t[1]).value, Value(t[2])))
    else if t[0] == "CANCELLED" then Some(CancelledMessage(Unsigned(t[1]).value, Value(t[2])))
    else None
  }

  lemma ReasonIsRead(reason: RejectReason)
    ensures ReasonNamed(ReasonName(reason)) == Some(reason)
  {
    var read := ReasonNamed(ReasonName(reason));
    assert read.Some? && ReasonName(read.value) == ReasonName(reason);
    ReasonsDiffer(read.value, reason);
  }

  /** MAIN RESULT. Whatever is sent can be read back: verb, ids and reason. */
  lemma AnswerIsReadBack(message: OutboundMessage)
    ensures ReadAnswer(Encode(message)) == Some(message)
  {
    AnswerSplits(message);
    match message
    case RejectedMessage(id, reason) =>
      ReasonIsRead(reason);
      if id.Some? {
        PrintedIsPositive(id.value);
      }
    case _ =>
      PrintedIsPositive(message.clientOrderId);
      PrintedIsRead(message.orderId);
  }

  /** Single blanks separate the fields of an outbound line, and nothing surrounds them. */
  lemma AnswerIsPlain(message: OutboundMessage)
    ensures Encode(message) == Join(Tokens(Encode(message)))
  {
    AnswerSplits(message);
    var fields := AnswerFields(message);
    JoinThree(fields[0], fields[1], fields[2]);
    assert fields == [fields[0], fields[1], fields[2]];
    assert "ACCEPTED " == "ACCEPTED" + " " && "CANCELLED " == "CANCELLED" + " " && "REJECTED " == "REJECTED" + " ";
  }
}
