/** Which handlers a frame reaches, and with what, in terms of its text and of the registrations. */
module HandlerCalls {
  import opened Strings
  import opened Parsing
  import opened ParsingLaws
  import opened Wire
  import opened Framing
  import opened Dispatch
  import opened Outcomes
  import opened StreamRoundTrip
  import opened Delivery
  import opened Clients

  /** The handlers that hear of a message of each kind, if it is well formed. */
  function HandlerOf(kind: Kind): HandlerKind {
    match kind
    case Request => OnRequest
    case Response => OnResponse
    case Witness => OnWitness
    case Publish => OnPublish
    case Unknown => OnParseError
  }

  /** What a frame that is not empty is reported as. */
  ghost predicate ReportedAs(frame: Frame, kind: HandlerKind, event: Event) {
    var p := Parse(frame.line);
    if WellFormed(p) then
      kind == HandlerOf(p.kind) && event.Got? && event.raw == frame.raw && Tells(event.packet, p)
    else
      && kind == OnParseError
      && event.ParseError? && event.code == "Malformed" && event.line == frame.line && Breaks(p, event.what)
  }

  lemma FrameCallsOne(c: Client, frame: Frame)
    ensures c.FrameCalls([frame]) == c.OutcomeCalls(OutcomeOf(frame))
  {
    c.FrameCallsLast([], frame);
    NothingAdded([frame]);
    NothingAdded(c.OutcomeCalls(OutcomeOf(frame)));
  }

  lemma DeliveredHandlers(c: Client, packet: Packet, kind: HandlerKind)
    requires c.Valid() && IsFor(packet, kind)
    ensures Lists(c.HandlersFor(packet), c.registered, kind)
  {
  }

  lemma ToldFor(packet: Packet, p: Parsed)
    requires Tells(packet, p)
    ensures IsFor(packet, HandlerOf(p.kind))
  {
  }

  /** A frame is reported once to every handler then registered for it, and to no other. */
  lemma FrameReaches(c: Client, frame: Frame) returns (handlers: seq<HandlerToken>, kind: HandlerKind, event: Event)
    requires c.Valid() && frame.line != ""
    ensures ReportedAs(frame, kind, event) && Lists(handlers, c.registered, kind)
    ensures |c.FrameCalls([frame])| == |handlers|
    ensures forall i :: 0 <= i < |handlers| ==> c.FrameCalls([frame])[i] == Call(handlers[i].fn, event)
  {
    FrameCallsOne(c, frame);
    OutcomeKinds(frame);
    match OutcomeOf(frame) {
      case Delivered(packet, raw) =>
        DeliveredTells(frame);
        ToldFor(packet, Parse(frame.line));
        handlers, kind, event := c.HandlersFor(packet), HandlerOf(Parse(frame.line).kind), Got(packet, raw);
        DeliveredHandlers(c, packet, kind);
      case Rejected(code, what, line) =>
        RejectedNamesRule(frame, what);
        handlers, kind, event := c.parseErrorHandlers, OnParseError, ParseError(code, what, line);
    }
    CallsOncePerHandler(handlers, event);
  }

  lemma EmptyFrameReachesNone(c: Client, frame: Frame)
    requires frame.line == ""
    ensures c.FrameCalls([frame]) == []
  {
    FrameCallsOne(c, frame);
  }

  // ---- From one client's sends to another's handlers ----

  /** Whatever chunks they arrive in, the streamable messages that a client sent reach another's handlers in order. */
  lemma SentReachesHandlers(sender: Client, receiver: Client, chunks: seq<string>)
    requires sender.WireHolds() && Concat(UpToEnd(chunks)) == sender.sent
    requires AllStreamable(sender.messages) && AllDeliverable(sender.messages)
    ensures receiver.FrameCalls(ReceiveAll(Stream(IDLE, ""), UpToEnd(chunks)).assembly.frames)
         == StreamCalls(receiver, sender.messages, AllArrived(sender.messages))
  {
    StreamReachesHandlers(receiver, sender.messages, chunks);
  }

  /** And plain ones reach them as one-shot reading gives them. */
  lemma PlainSentReachesHandlers(sender: Client, receiver: Client, chunks: seq<string>)
    requires sender.WireHolds() && Concat(UpToEnd(chunks)) == sender.sent
    requires AllPlain(sender.messages)
    ensures receiver.FrameCalls(ReceiveAll(Stream(IDLE, ""), UpToEnd(chunks)).assembly.frames)
         == StreamCalls(receiver, sender.messages, AllReceived(sender.messages))
  {
    PlainStreamReachesHandlers(receiver, sender.messages, chunks);
  }
}
