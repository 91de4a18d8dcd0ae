/** The command-line exchange (apps/sixchange_cli.cpp): text lines in, text lines out, through the codec,
    the gateway, the engine and the book. */
module Cli {
  import opened Words
  import opened Wrappers
  import opened Types
  import opened EngineSpec
  import opened Messages
  import opened GatewaySpec
  import opened OrderGateways
  import opened TextCodec

  datatype Served = Served(gateway: Gateway, output: seq<string>)

  function EncodeAll(messages: seq<OutboundMessage>): (texts: seq<string>)
    ensures |texts| == |messages|
  {
    seq(|messages|, i requires 0 <= i < |messages| => Encode(messages[i]))
  }

  function ServeLine(g: Gateway, line: string): Served {
    match Decode(line)
    case Err(rejection) => Served(g, [Encode(rejection)])
    case Ok(request) =>
      var handled := Handle(g, request);
      Served(handled.gateway, EncodeAll(handled.messages))
  }

  /** All lines in order; nothing happens any more once the process has terminated. */
  function Serve(g: Gateway, lines: seq<string>): Served {
    if lines == [] then Served(g, [])
    else
      var before := Serve(g, lines[..|lines| - 1]);
      if before.gateway.terminated then before
      else
        var last := ServeLine(before.gateway, lines[|lines| - 1]);
        Served(last.gateway, before.output + last.output)
  }

  lemma ServeOneMore(g: Gateway, lines: seq<string>, i: nat, out: seq<string>)
    requires i < |lines| && !Serve(g, lines[..i]).gateway.terminated
    ensures var before := Serve(g, lines[..i]);
      var last := ServeLine(before.gateway, lines[i]);
      && Serve(g, lines[..i + 1]).gateway == last.gateway
      && out + Serve(g, lines[..i + 1]).output == out + before.output + last.output
  {
    assert lines[..i + 1][..i] == lines[..i];
  }

  /** The requests among the lines. */
  function RequestsIn(lines: seq<string>): seq<InboundMessage> {
    if lines == [] then []
    else
      var before, last := RequestsIn(lines[..|lines| - 1]), Decode(lines[|lines| - 1]);
      if last.Ok? then before + [last.value] else before
  }

  /** The text is what the codec writes for the answer to this line. */
  ghost predicate AnswersLine(line: string, text: string) {
    match Decode(line)
    case Err(rejection) => text == Encode(rejection)
    case Ok(request) => exists m :: text == Encode(m) && Answers(request, m)
  }

  lemma LineServed(g: Gateway, line: string)
    requires GatewaySpec.Valid(g)
    ensures GatewaySpec.Valid(ServeLine(g, line).gateway)
    ensures |ServeLine(g, line).output| == 1 && AnswersLine(line, ServeLine(g, line).output[0])
  {
    var decoded := Decode(line);
    if decoded.Ok? {
      HandleKeepsValid(g, decoded.value);
      var m := Handle(g, decoded.value).messages[0];
      assert ServeLine(g, line).output[0] == Encode(m) && Answers(decoded.value, m);
    }
  }

  lemma OneMoreLine(lines: seq<string>, output: seq<string>, last: seq<string>)
    requires lines != [] && |output| == |lines| - 1 && |last| == 1
    requires forall i :: 0 <= i < |output| ==> AnswersLine(lines[..|lines| - 1][i], output[i])
    requires AnswersLine(lines[|lines| - 1], last[0])
    ensures forall i :: 0 <= i < |lines| ==> AnswersLine(lines[i], (output + last)[i])
  {
    forall i | 0 <= i < |lines|
      ensures AnswersLine(lines[i], (output + last)[i])
    {
      assert i < |output| ==> lines[i] == lines[..|lines| - 1][i];
    }
  }

  /** MAIN RESULT. Whatever lines arrive, each is answered by exactly one line, in order, and that line is
      the codec's text for an answer to that line. */
  lemma {:induction false} EveryLineIsAnswered(config: OrderBookConfig, lines: seq<string>)
    ensures var s := Serve(FreshGateway(config), lines);
      && GatewaySpec.Valid(s.gateway)
      && |s.output| == |lines|
      && forall i :: 0 <= i < |lines| ==> AnswersLine(lines[i], s.output[i])
  {
    FreshIsValid(0, config);
    if lines != [] {
      var before, last := lines[..|lines| - 1], lines[|lines| - 1];
      EveryLineIsAnswered(config, before);
      var s := Serve(FreshGateway(config), before);
      LineServed(s.gateway, last);
      OneMoreLine(lines, s.output, ServeLine(s.gateway, last).output);
    }
  }

  /** MAIN RESULT. The exchange behind the text is the gateway session of the requests among the lines, so
      all that is proved about sessions holds of it. */
  lemma {:induction false} ServingIsSession(config: OrderBookConfig, lines: seq<string>)
    ensures Serve(FreshGateway(config), lines).gateway == Session(FreshGateway(config), RequestsIn(lines)).gateway
  {
    var g := FreshGateway(config);
    if lines != [] {
      var before, last := lines[..|lines| - 1], lines[|lines| - 1];
      ServingIsSession(config, before);
      EveryLineIsAnswered(config, before);
      var requests, decoded := RequestsIn(before), Decode(last);
      if decoded.Ok? {
        assert (requests + [decoded.value])[..|requests|] == requests;
      }
    }
  }

  /** The text is the decoder's rejection of the line, or the session's message for the request that it is. */
  ghost predicate PrintedFor(lines: seq<string>, messages: seq<OutboundMessage>, i: nat, text: string)
    requires i < |lines|
  {
    match Decode(lines[i])
    case Err(rejection) => text == Encode(rejection)
    case Ok(_) => |RequestsIn(lines[..i])| < |messages| && text == Encode(messages[|RequestsIn(lines[..i])|])
  }

  ghost predicate AllPrinted(lines: seq<string>, messages: seq<OutboundMessage>, output: seq<string>) {
    |output| == |lines| && forall i :: 0 <= i < |lines| ==> PrintedFor(lines, messages, i, output[i])
  }

  lemma PrintedLater(lines: seq<string>, messages: seq<OutboundMessage>, more: seq<OutboundMessage>, i: nat, text: string)
    requires i < |lines| - 1 && PrintedFor(lines[..|lines| - 1], messages, i, text)
    ensures PrintedFor(lines, messages + more, i, text)
  {
    assert lines[..|lines| - 1][..i] == lines[..i];
  }

  /** One more line prints its rejection, or the one message that the session adds. */
  lemma OneMorePrinted(lines: seq<string>, messages: seq<OutboundMessage>, more: seq<OutboundMessage>,
                       output: seq<string>, text: string)
    requires lines != [] && AllPrinted(lines[..|lines| - 1], messages, output)
    requires |messages| == |RequestsIn(lines[..|lines| - 1])|
    requires match Decode(lines[|lines| - 1])
      case Err(rejection) => more == [] && text == Encode(rejection)
      case Ok(_) => |more| == 1 && text == Encode(more[0])
    ensures AllPrinted(lines, messages + more, output + [text])
  {
    forall i | 0 <= i < |lines|
      ensures PrintedFor(lines, messages + more, i, (output + [text])[i])
    {
      if i < |lines| - 1 {
        PrintedLater(lines, messages, more, i, output[i]);
      }
    }
  }

  /** The session behind one more line. */
  lemma SessionOfLines(config: OrderBookConfig, lines: seq<string>)
    requires lines != []
    ensures var before, decoded := lines[..|lines| - 1], Decode(lines[|lines| - 1]);
      var s := Session(FreshGateway(config), RequestsIn(before));
      Session(FreshGateway(config), RequestsIn(lines)).messages
      == if decoded.Ok? then s.messages + Handle(s.gateway, decoded.value).messages else s.messages + []
  {
    var requests := RequestsIn(lines[..|lines| - 1]);
    SessionKeepsValid(config, requests);
    var decoded := Decode(lines[|lines| - 1]);
    if decoded.Ok? {
      assert (requests + [decoded.value])[..|requests|] == requests;
    } else {
      assert Session(FreshGateway(config), requests).messages + []
          == Session(FreshGateway(config), requests).messages;
    }
  }

  lemma ServedOneMore(config: OrderBookConfig, lines: seq<string>)
    requires lines != []
    ensures var before, last := Serve(FreshGateway(config), lines[..|lines| - 1]), lines[|lines| - 1];
      && GatewaySpec.Valid(before.gateway)
      && Serve(FreshGateway(config), lines).output == before.output + ServeLine(before.gateway, last).output
  {
    EveryLineIsAnswered(config, lines[..|lines| - 1]);
  }

  /** MAIN RESULT. What is printed is, line by line, the decoder's rejections and the session's messages, in the order
      of the session. */
  lemma {:induction false} OutputIsTheSession(config: OrderBookConfig, lines: seq<string>)
    ensures var messages := Session(FreshGateway(config), RequestsIn(lines)).messages;
      && |messages| == |RequestsIn(lines)|
      && AllPrinted(lines, messages, Serve(FreshGateway(config), lines).output)
  {
    SessionKeepsValid(config, RequestsIn(lines));
    if lines != [] {
      var before, last := lines[..|lines| - 1], lines[|lines| - 1];
      OutputIsTheSession(config, before);
      ServingIsSession(config, before);
      ServedOneMore(config, lines);
      SessionOfLines(config, lines);
      NextIsPrinted(lines, Session(FreshGateway(config), RequestsIn(before)).messages,
                    Serve(FreshGateway(config), before).output, Serve(FreshGateway(config), before).gateway);
    }
  }

  lemma NextIsPrinted(lines: seq<string>, messages: seq<OutboundMessage>, output: seq<string>, g: Gateway)
    requires lines != [] && GatewaySpec.Valid(g)
    requires |messages| == |RequestsIn(lines[..|lines| - 1])| && AllPrinted(lines[..|lines| - 1], messages, output)
    ensures var decoded := Decode(lines[|lines| - 1]);
      AllPrinted(lines, messages + (if decoded.Ok? then Handle(g, decoded.value).messages else []),
                 output + ServeLine(g, lines[|lines| - 1]).output)
  {
    var last := lines[|lines| - 1];
    var decoded := Decode(last);
    var more := if decoded.Ok? then Handle(g, decoded.value).messages else [];
    LineServed(g, last);
    var printed := ServeLine(g, last).output;
    if decoded.Ok? {
      HandleKeepsValid(g, decoded.value);
    }
    assert printed == [printed[0]];
    OneMorePrinted(lines, messages, more, output, printed[0]);
  }

  class Exchange {
    const gateway: OrderGateway
    var output: seq<string>

    ghost predicate Valid()
      reads this, gateway, gateway.engine, gateway.engine.book, gateway.engine.book.orders,
        gateway.engine.book.orders.orders, gateway.engine.book.ordersById, gateway.engine.book.ordersById.entries,
        gateway.engine.book.levelSet
    {
      gateway.Valid()
    }

    constructor (config: OrderBookConfig, hash: nat -> Word)
      requires ValidConfig(config)
      ensures Valid() && gateway.State() == FreshGateway(config) && output == []
      ensures fresh(gateway) && fresh(gateway.engine) && fresh(gateway.engine.book) && fresh(gateway.engine.book.orders)
      ensures fresh(gateway.engine.book.orders.orders) && fresh(gateway.engine.book.ordersById)
      ensures fresh(gateway.engine.book.ordersById.entries) && fresh(gateway.engine.book.levelSet)
    {
      gateway := new OrderGateway(config, hash);
      output := [];
    }

    /** The callback of the outbound sink. */
    method OnOutboundMessage(message: OutboundMessage)
      modifies this`output
      ensures output == old(output) + [Encode(message)]
    {
      output := output + [Encode(message)];
    }

    method AnswerLine(line: string)
      requires Valid()
      modifies this`output, gateway, gateway.engine, gateway.engine.book, gateway.engine.book.orders,
        gateway.engine.book.orders.orders, gateway.engine.book.ordersById, gateway.engine.book.ordersById.entries,
        gateway.engine.book.levelSet
      ensures Valid()
      ensures gateway.State() == ServeLine(old(gateway.State()), line).gateway
      ensures output == old(output) + ServeLine(old(gateway.State()), line).output
    {
      LineServed(gateway.State(), line);
      var decoded := DecodeMessage(line);
      if decoded.Err? {
        OnOutboundMessage(decoded.error);
        return;
      }
      HandleKeepsValid(gateway.State(), decoded.value);
      var sent := |gateway.outbound|;
      gateway.HandleMessage(decoded.value);
      OnOutboundMessage(gateway.outbound[sent]);
    }

    /** One round of the main loop: `i` lines are served, and then one more. */
    method ServeNext(lines: seq<string>, i: nat, ghost g: Gateway, ghost out: seq<string>)
      requires Valid() && i < |lines|
      requires gateway.State() == Serve(g, lines[..i]).gateway && output == out + Serve(g, lines[..i]).output
      modifies this`output, gateway, gateway.engine, gateway.engine.book, gateway.engine.book.orders,
        gateway.engine.book.orders.orders, gateway.engine.book.ordersById, gateway.engine.book.ordersById.entries,
        gateway.engine.book.levelSet
      ensures Valid()
      ensures gateway.State() == Serve(g, lines[..i + 1]).gateway && output == out + Serve(g, lines[..i + 1]).output
    {
      ServeOneMore(g, lines, i, out);
      AnswerLine(lines[i]);
    }

    /** The main loop. */
    method Run(lines: seq<string>)
      requires Valid()
      modifies this`output, gateway, gateway.engine, gateway.engine.book, gateway.engine.book.orders,
        gateway.engine.book.orders.orders, gateway.engine.book.ordersById, gateway.engine.book.ordersById.entries,
        gateway.engine.book.levelSet
      ensures Valid()
      ensures gateway.State() == Serve(old(gateway.State()), lines).gateway
      ensures output == old(output) + Serve(old(gateway.State()), lines).output
    {
      ghost var g, out := gateway.State(), output;
      for i := 0 to |lines|
        invariant Valid()
        invariant gateway.State() == Serve(g, lines[..i]).gateway && output == out + Serve(g, lines[..i]).output
      {
        ServeNext(lines, i, g, out);
      }
      assert lines[..|lines|] == lines;
    }
  }
}
