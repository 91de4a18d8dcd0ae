/** The text protocol (src/protocol/TextCodec.cpp): decoding inbound lines and encoding outbound messages. */
module TextCodec {
  import opened Words
  import opened Wrappers
  import opened Types
  import opened Messages
  import opened Numerals
  import opened Tokenizing

  const MAX_MESSAGE_LENGTH := 256

  type Decoded = Result<InboundMessage, OutboundMessage>

  function Fail(clientOrderId: Option<Word>, reason: RejectReason): Decoded {
    Err(RejectedMessage(clientOrderId, reason))
  }

  function ParseSide(token: string): Option<Side> {
    if token == "B" then Some(Buy) else if token == "S" then Some(Sell) else None
  }

  function ParseOrderType(token: string): Option<OrderType> {
    if token == "L" then Some(Limit) else if token == "M" then Some(Market) else None
  }

  function ParseTimeInForce(token: string): Option<TimeInForce> {
    if token == "GFD" then Some(GFD)
    else if token == "IOC" then Some(IOC)
    else if token == "FOK" then Some(FOK)
    else None
  }

  /** A numeral of a 64-bit number other than zero. */
  predicate Positive(token: string) {
    Unsigned(token).Some? && Unsigned(token).value >= 1
  }

  /** A line without its carriage return. */
  function Body(message: string): string {
    if message != "" && message[|message| - 1] == '\r' then message[..|message| - 1] else message
  }

  /** The fields up to the time in force are those of a new order. */
  predicate OrderHead(tokens: seq<string>) {
    && |tokens| >= 6 && tokens[0] == "N" && Positive(tokens[1])
    && ParseSide(tokens[3]).Some? && ParseOrderType(tokens[4]).Some? && ParseTimeInForce(tokens[5]).Some?
  }

  /** The meaning of a list of tokens, by the conditions under which each answer is given. */
  function DecodeTokens(tokens: seq<string>): Decoded {
    if OrderHead(tokens) then
      if |tokens| >= 7 && !Positive(tokens[6]) then Fail(None, InvalidPrice)
      else if |tokens| >= 8 && !Positive(tokens[7]) then Fail(None, InvalidQuantity)
      else if |tokens| != 8 then Fail(None, InvalidMessage)
      else Ok(NewOrderRequest(
        Unsigned(tokens[1]).value, tokens[2], ParseSide(tokens[3]).value, ParseOrderType(tokens[4]).value,
        ParseTimeInForce(tokens[5]).value, Unsigned(tokens[6]).value, Unsigned(tokens[7]).value))
    else if |tokens| >= 2 && tokens[0] == "C" && Positive(tokens[1]) then
      if |tokens| == 3 then Ok(CancelOrderRequest(Unsigned(tokens[1]).value, tokens[2]))
      else Fail(Unsigned(tokens[1]), InvalidMessage)
    else Fail(None, InvalidMessage)
  }

  function Decode(message: string): Decoded {
    if |message| > MAX_MESSAGE_LENGTH then Fail(None, InvalidMessage) else DecodeTokens(Tokens(Body(message)))
  }

  // ---------------------------------------------------------------- the decoder

  method DecodeNewOrder(tokens: TokenCursor) returns (result: Decoded)
    requires tokens.Valid() && tokens.taken == 1 && tokens.all[0] == "N"
    modifies tokens
    ensures result == DecodeTokens(tokens.all)
  {
    var clientOrderIdToken := tokens.Next();
    if clientOrderIdToken.None? {
      return Fail(None, InvalidMessage);
    }
    var clientOrderId := ParseUnsigned(clientOrderIdToken.value);
    if clientOrderId.None? || clientOrderId.value < 1 {
      return Fail(None, InvalidMessage);
    }
    var symbolToken := tokens.Next();
    if symbolToken.None? {
      return Fail(None, InvalidMessage);
    }
    var sideToken := tokens.Next();
    if sideToken.None? {
      return Fail(None, InvalidMessage);
    }
    var side := ParseSide(sideToken.value);
    if side.None? {
      return Fail(None, InvalidMessage);
    }
    var orderTypeToken := tokens.Next();
    if orderTypeToken.None? {
      return Fail(None, InvalidMessage);
    }
    var orderType := ParseOrderType(orderTypeToken.value);
    if orderType.None? {
      return Fail(None, InvalidMessage);
    }
    var tifToken := tokens.Next();
    if tifToken.None? {
      return Fail(None, InvalidMessage);
    }
    var tif := ParseTimeInForce(tifToken.value);
    if tif.None? {
      return Fail(None, InvalidMessage);
    }
    var priceToken := tokens.Next();
    if priceToken.None? {
      return Fail(None, InvalidMessage);
    }
    var price := ParseUnsigned(priceToken.value);
    if price.None? || price.value <= 0 {
      return Fail(None, InvalidPrice);
    }
    var quantityToken := tokens.Next();
    if quantityToken.None? {
      return Fail(None, InvalidMessage);
    }
    var quantity := ParseUnsigned(quantityToken.value);
    if quantity.None? || quantity.value <= 0 {
      return Fail(None, InvalidQuantity);
    }
    var empty := tokens.Empty();
    if !empty {
      return Fail(None, InvalidMessage);
    }
    result := Ok(NewOrderRequest(clientOrderId.value, symbolToken.value, side.value, orderType.value, tif.value,
                                 price.value, quantity.value));
  }

  method DecodeCancelOrder(tokens: TokenCursor) returns (result: Decoded)
    requires tokens.Valid() && tokens.taken == 1 && tokens.all[0] == "C"
    modifies tokens
    ensures result == DecodeTokens(tokens.all)
  {
    var clientOrderIdToken := tokens.Next();
    if clientOrderIdToken.None? {
      return Fail(None, InvalidMessage);
    }
    var clientOrderId := ParseUnsigned(clientOrderIdToken.value);
    if clientOrderId.None? || clientOrderId.value == 0 {
      return Fail(None, InvalidMessage);
    }
    var symbol := tokens.Next();
    if symbol.None? {
      return Fail(clientOrderId, InvalidMessage);
    }
    var empty := tokens.Empty();
    if !empty {
      return Fail(clientOrderId, InvalidMessage);
    }
    result := Ok(CancelOrderRequest(clientOrderId.value, symbol.value));
  }

  method DecodeMessage(message: string) returns (result: Decoded)
    ensures result == Decode(message)
  {
    if |message| > MAX_MESSAGE_LENGTH {
      return Fail(None, InvalidMessage);
    }
    var body := message;
    if body != "" && body[|body| - 1] == '\r' {
      body := body[..|body| - 1];
    }
    if body == "" {
      return Fail(None, InvalidMessage);
    }
    var tokens := new TokenCursor(body);
    var messageType := tokens.Next();
    if messageType == Some("N") {
      result := DecodeNewOrder(tokens);
    } else if messageType == Some("C") {
      result := DecodeCancelOrder(tokens);
    } else {
      result := Fail(None, InvalidMessage);
    }
  }

  // ---------------------------------------------------------------- round trips

  function SideName(side: Side): string {
    if side == Buy then "B" else "S"
  }

  function OrderTypeName(orderType: OrderType): string {
    if orderType == Limit then "L" else "M"
  }

  function TimeInForceName(tif: TimeInForce): string {
    match tif case GFD => "GFD" case IOC => "IOC" case FOK => "FOK"
  }

  /** The fields of the documented format. */
  function FieldsOf(request: InboundMessage): seq<string> {
    match request
    case NewOrderRequest(id, symbol, side, orderType, tif, price, quantity) =>
      ["N", Print(id), symbol, SideName(side), OrderTypeName(orderType), TimeInForceName(tif), Print(price),
       Print(quantity)]
    case CancelOrderRequest(id, symbol) => ["C", Print(id), symbol]
  }

  function Join(tokens: seq<string>): string {
    if tokens == [] then "" else if |tokens| == 1 then tokens[0] else tokens[0] + " " + Join(tokens[1..])
  }

  lemma JoinThree(a: string, b: string, c: string)
    ensures Join([a, b, c]) == a + " " + b + " " + c
  {
    assert [a, b, c][1..] == [b, c] && [b, c][1..] == [c];
    assert Join([b, c]) == b + " " + c;
    assert a + " " + (b + " " + c) == a + " " + b + " " + c;
  }

  /** The documented line of a request: its fields, one blank between them. */
  function Render(request: InboundMessage): string {
    Join(FieldsOf(request))
  }

  /** The requests that the protocol has a line for. */
  predicate Requestable(request: InboundMessage) {
    && request.clientOrderId >= 1 && IsToken(request.symbol)
    && (request.NewOrderRequest? ==> request.price >= 1 && request.quantity >= 1)
  }

  function Spaced(tokens: seq<string>): (fields: seq<Field>)
    ensures |fields| == |tokens|
    ensures forall k :: 0 <= k < |tokens| ==>
      fields[k].token == tokens[k] && fields[k].gap == if k < |tokens| - 1 then " " else ""
  {
    seq(|tokens|, k requires 0 <= k < |tokens| => Field(tokens[k], if k < |tokens| - 1 then " " else ""))
  }

  lemma {:induction false} JoinIsSpaced(tokens: seq<string>)
    ensures Join(tokens) == Written(Spaced(tokens))
  {
    if tokens != [] {
      JoinIsSpaced(tokens[1..]);
      assert Spaced(tokens)[1..] == Spaced(tokens[1..]);
    }
  }

  lemma SpacedIsSeparated(tokens: seq<string>)
    requires forall k :: 0 <= k < |tokens| ==> IsToken(tokens[k])
    ensures Separated(Spaced(tokens)) && TokensOf(Spaced(tokens)) == tokens
  {
    var fields := Spaced(tokens);
    forall k | 0 <= k < |fields|
      ensures IsToken(fields[k].token) && Blanks(fields[k].gap) && (k < |fields| - 1 ==> fields[k].gap != "")
    {
      assert fields[k].token == tokens[k];
    }
  }

  lemma JoinSplits(tokens: seq<string>)
    requires forall k :: 0 <= k < |tokens| ==> IsToken(tokens[k])
    ensures Tokens(Join(tokens)) == tokens
  {
    var fields := Spaced(tokens);
    JoinIsSpaced(tokens);
    SpacedIsSeparated(tokens);
    SpacingIsIgnored("", fields);
    assert "" + Written(fields) == Written(fields);
  }

  lemma NumeralsAreTokens(s: string)
    requires IsNumeral(s)
    ensures IsToken(s) && s[|s| - 1] != '\r'
  {
  }

  lemma PrintedIsPositive(n: Word)
    ensures IsToken(Print(n)) && Unsigned(Print(n)) == Some(n)
    ensures Positive(Print(n)) <==> n >= 1
  {
    PrintedIsRead(n);
    NumeralsAreTokens(Print(n));
  }

  lemma FieldsAreTokens(request: InboundMessage)
    requires IsToken(request.symbol)
    ensures forall k :: 0 <= k < |FieldsOf(request)| ==> IsToken(FieldsOf(request)[k])
  {
    PrintedIsPositive(request.clientOrderId);
    if request.NewOrderRequest? {
      PrintedIsPositive(request.price);
      PrintedIsPositive(request.quantity);
    }
  }

  lemma FieldsDecode(request: InboundMessage)
    requires Requestable(request)
    ensures DecodeTokens(FieldsOf(request)) == Ok(request)
  {
    PrintedIsPositive(request.clientOrderId);
    if request.NewOrderRequest? {
      PrintedIsPositive(request.price);
      PrintedIsPositive(request.quantity);
    }
  }

  /** Only requests that have a line come out of the decoder. */
  lemma DecodedIsRequestable(message: string)
    ensures Decode(message).Ok? ==> Requestable(Decode(message).value)
  {
  }

  lemma {:induction false} JoinEnds(tokens: seq<string>)
    requires tokens != [] && tokens[|tokens| - 1] != ""
    ensures var last := tokens[|tokens| - 1];
      && Join(tokens) != ""
      && Join(tokens)[|Join(tokens)| - 1] == last[|last| - 1]
      && Join(tokens)[..|Join(tokens)| - 1] == Join(tokens[..|tokens| - 1] + [last[..|last| - 1]])
  {
    var cut := tokens[..|tokens| - 1] + [tokens[|tokens| - 1][..|tokens[|tokens| - 1]| - 1]];
    if |tokens| > 1 {
      JoinEnds(tokens[1..]);
      assert cut[1..] == tokens[1..][..|tokens| - 2] + [cut[|cut| - 1]];
      assert Join(tokens) == tokens[0] + " " + Join(tokens[1..]);
    }
  }

  /** The requests whose line survives the removal of a carriage return. */
  predicate EndsPlainly(request: InboundMessage) {
    request.CancelOrderRequest? && request.symbol != "" ==> request.symbol[|request.symbol| - 1] != '\r'
  }

  lemma BlankTail(a: string, b: string)
    requires IsToken(a) && IsToken(b)
    ensures Tokens(Join([a, b, ""])) == [a, b]
  {
    var fields := [Field(a, " "), Field(b, " ")];
    JoinThree(a, b, "");
    assert fields[1..][1..] == [] && Written(fields[1..]) == b + " ";
    assert Written(fields) == a + " " + (b + " ");
    assert Join([a, b, ""]) == "" + Written(fields);
    SpacingIsIgnored("", fields);
    assert TokensOf(fields) == [a, b];
  }

  /** The last field of a cancel request is its symbol: one that ends in a carriage return loses it. */
  lemma LosesCarriageReturn(request: InboundMessage)
    requires Requestable(request) && !EndsPlainly(request) && |Render(request)| <= MAX_MESSAGE_LENGTH
    ensures Decode(Render(request)) != Ok(request)
  {
    var id, symbol := Print(request.clientOrderId), request.symbol;
    var short := symbol[..|symbol| - 1];
    JoinEnds(["C", id, symbol]);
    assert ["C", id, symbol][..2] + [short] == ["C", id, short];
    assert Body(Render(request)) == Join(["C", id, short]);
    PrintedIsPositive(request.clientOrderId);
    if short == "" {
      BlankTail("C", id);
    } else {
      JoinSplits(["C", id, short]);
    }
  }

  /** MAIN RESULT. The documented line of a request decodes to that request exactly if it is not too long,
      the request is one the protocol has a line for, and a cancelled symbol does not end in a carriage
      return. */
  lemma RoundTrip(request: InboundMessage)
    ensures Decode(Render(request)) == Ok(request)
      <==> |Render(request)| <= 256 && Requestable(request) && EndsPlainly(request)
  {
    DecodedIsRequestable(Render(request));
    if Requestable(request) && |Render(request)| <= MAX_MESSAGE_LENGTH {
      if EndsPlainly(request) {
        FieldsAreTokens(request);
        JoinSplits(FieldsOf(request));
        JoinEnds(FieldsOf(request));
        if request.NewOrderRequest? {
          PrintedIsRead(request.quantity);
        }
        assert Body(Render(request)) == Render(request);
        FieldsDecode(request);
      } else {
        LosesCarriageReturn(request);
      }
    }
  }

  /** MAIN RESULT. With a carriage return behind the line the exception for symbols is gone, but the line
      may only have 255 characters. */
  lemma RoundTripWithCarriageReturn(request: InboundMessage)
    ensures Decode(Render(request) + "\r") == Ok(request)
      <==> |Render(request)| <= 255 && Requestable(request)
  {
    DecodedIsRequestable(Render(request) + "\r");
    if Requestable(request) {
      assert Body(Render(request) + "\r") == Render(request);
      FieldsAreTokens(request);
      JoinSplits(FieldsOf(request));
      FieldsDecode(request);
    }
  }

  /** MAIN RESULT. Decoding sees the fields and not the blanks: however the fields of a request are spaced,
      and with any number of leading zeros, the line decodes to the request. */
  lemma FreeFormat(lead: string, fields: seq<Field>, request: InboundMessage)
    requires Blanks(lead) && Separated(fields) && |lead + Written(fields)| < MAX_MESSAGE_LENGTH
    ensures Decode(lead + Written(fields) + "\r") == DecodeTokens(TokensOf(fields))
    ensures TokensOf(fields) == FieldsOf(request) && Requestable(request) ==>
      Decode(lead + Written(fields) + "\r") == Ok(request)
  {
    var line := lead + Written(fields);
    assert Body(line + "\r") == line;
    SpacingIsIgnored(lead, fields);
    if TokensOf(fields) == FieldsOf(request) && Requestable(request) {
      FieldsDecode(request);
    }
  }

  // ---------------------------------------------------------------- outbound messages

  function ReasonName(reason: RejectReason): string {
    match reason
    case NoReason => "NONE"
    case InvalidMessage => "INVALID_MESSAGE"
    case UnknownSymbol => "UNKNOWN_SYMBOL"
    case InvalidPrice => "INVALID_PRICE"
    case InvalidQuantity => "INVALID_QUANTITY"
    case DuplicateClientOrderId => "DUPLICATE_CLIENT_ORDER_ID"
    case UnknownOrder => "UNKNOWN_ORDER"
    case NotOrderOwner => "NOT_ORDER_OWNER"
    case UnsupportedOrderType => "UNSUPPORTED_ORDER_TYPE"
    case UnsupportedTimeInForce => "UNSUPPORTED_TIME_IN_FORCE"
    case GatewayError => "GATEWAY_ERROR"
    case CapacityExhausted => "CAPACITY_EXHAUSTED"
    case MatchingEngineError => "MATCHING_ENGINE_ERROR"
  }

  function Encode(message: OutboundMessage): string {
    match message
    case AcceptedMessage(id, orderId) => "ACCEPTED " + Print(id) + " " + Print(orderId)
    case CancelledMessage(id, orderId) => "CANCELLED " + Print(id) + " " + Print(orderId)
    case RejectedMessage(id, reason) =>
      "REJECTED " + (if id.Some? then Print(id.value) else "-") + " " + ReasonName(reason)
  }

  /** The three fields of an outbound line. */
  function AnswerFields(message: OutboundMessage): seq<string> {
    match message
    case AcceptedMessage(id, orderId) => ["ACCEPTED", Print(id), Print(orderId)]
    case CancelledMessage(id, orderId) => ["CANCELLED", Print(id), Print(orderId)]
    case RejectedMessage(id, reason) =>
      ["REJECTED", if id.Some? then Print(id.value) else "-", ReasonName(reason)]
  }

  lemma ReasonsAreTokens(reason: RejectReason)
    ensures IsToken(ReasonName(reason))
  {
    match reason
    case NoReason => assert IsToken("NONE");
    case InvalidMessage => assert IsToken("INVALID_MESSAGE");
    case UnknownSymbol => assert IsToken("UNKNOWN_SYMBOL");
    case InvalidPrice => assert IsToken("INVALID_PRICE");
    case InvalidQuantity => assert IsToken("INVALID_QUANTITY");
    case DuplicateClientOrderId => assert IsToken("DUPLICATE_CLIENT_ORDER_ID");
    case UnknownOrder => assert IsToken("UNKNOWN_ORDER");
    case NotOrderOwner => assert IsToken("NOT_ORDER_OWNER");
    case UnsupportedOrderType => assert IsToken("UNSUPPORTED_ORDER_TYPE");
    case UnsupportedTimeInForce => assert IsToken("UNSUPPORTED_TIME_IN_FORCE");
    case GatewayError => assert IsToken("GATEWAY_ERROR");
    case CapacityExhausted => assert IsToken("CAPACITY_EXHAUSTED");
    case MatchingEngineError => assert IsToken("MATCHING_ENGINE_ERROR");
  }

  lemma ReasonsDiffer(a: RejectReason, b: RejectReason)
    requires ReasonName(a) == ReasonName(b)
    ensures a == b
  {
    assert |ReasonName(a)| == |ReasonName(b)| && ReasonName(a)[0] == ReasonName(b)[0];
  }

  lemma AnswerFieldsAreTokens(message: OutboundMessage)
    ensures forall k :: 0 <= k < 3 ==> IsToken(AnswerFields(message)[k])
  {
    if message.RejectedMessage? {
      if message.rejectedId.Some? {
        PrintedIsPositive(message.rejectedId.value);
      }
      ReasonsAreTokens(message.reason);
    } else {
      PrintedIsPositive(message.clientOrderId);
      PrintedIsRead(message.orderId);
      NumeralsAreTokens(Print(message.orderId));
    }
  }

  lemma AnswerSplits(message: OutboundMessage)
    ensures Tokens(Encode(message)) == AnswerFields(message)
  {
    var fields := AnswerFields(message);
    AnswerFieldsAreTokens(message);
    JoinSplits(fields);
    JoinThree(fields[0], fields[1], fields[2]);
    assert fields == [fields[0], fields[1], fields[2]];
    assert Encode(message) == fields[0] + " " + fields[1] + " " + fields[2] by {
      assert "ACCEPTED " == "ACCEPTED" + " " && "CANCELLED " == "CANCELLED" + " " && "REJECTED " == "REJECTED" + " ";
    }
  }

  /** MAIN RESULT. Different messages have different lines. */
  lemma EncodeIsInjective(a: OutboundMessage, b: OutboundMessage)
    requires Encode(a) == Encode(b)
    ensures a == b
  {
    AnswerSplits(a);
    AnswerSplits(b);
    assert AnswerFields(a)[0] == AnswerFields(b)[0];
    assert AnswerFields(a)[1] == AnswerFields(b)[1];
    assert AnswerFields(a)[2] == AnswerFields(b)[2];
    match a
    case RejectedMessage(id, reason) =>
      ReasonsDiffer(reason, b.reason);
      if id.Some? && b.rejectedId.Some? {
        PrintIsInjective(id.value, b.rejectedId.value);
      } else if id.Some? {
        PrintedIsRead(id.value);
      } else if b.rejectedId.Some? {
        PrintedIsRead(b.rejectedId.value);
      }
    case _ =>
      PrintIsInjective(a.clientOrderId, b.clientOrderId);
      PrintIsInjective(a.orderId, b.orderId);
  }
}
