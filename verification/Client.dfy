/** The client: handler registration, wire sends and the listen loop. */
module Clients {
  import opened Strings
  import P = Parsing
  import opened Wire
  import opened ParserObjects
  import opened Messages
  import opened Receiving
  import opened Framing
  import opened FramingLaws
  import opened Dispatch
  import opened StreamRoundTrip

  datatype HandlerKind = OnRequest | OnResponse | OnWitness | OnPublish | OnParseError

  /** One registration. */
  class HandlerToken {
    const kind: HandlerKind
    const id: int
    const fn: nat

    constructor (kind: HandlerKind, id: int, fn: nat)
      ensures this.kind == kind && this.id == id && this.fn == fn
    {
      this.kind, this.id, this.fn := kind, id, fn;
    }
  }

  /** What a callback is given. */
  datatype Event =
    | Got(packet: Packet, raw: string)
    | ParseError(code: string, what: string, line: string)

  datatype Call = Call(fn: nat, event: Event)

  /** Every handler of the list called once, in registration order. */
  function CallsOf(handlers: seq<HandlerToken>, event: Event): seq<Call> {
    if handlers == [] then [] else [Call(handlers[0].fn, event)] + CallsOf(handlers[1..], event)
  }

  /** The list without its first occurrence of h. */
  function Erase<T(==)>(list: seq<T>, h: T): seq<T> {
    if list == [] then [] else if list[0] == h then list[1..] else [list[0]] + Erase(list[1..], h)
  }

  /** Erasing takes out exactly the first occurrence and keeps the order of the rest. */
  lemma {:induction false} EraseTakesFirst<T>(before: seq<T>, h: T, after: seq<T>)
    requires h !in before
    ensures Erase(before + [h] + after, h) == before + after
    ensures Erase(before, h) == before
  {
    if before == [] {
      assert [] + [h] + after == [h] + after && ([h] + after)[1..] == after == [] + after;
    } else {
      var list := before + [h] + after;
      assert list[0] == before[0] && list[1..] == before[1..] + [h] + after;
      EraseTakesFirst(before[1..], h, after);
      assert [before[0]] + before[1..] == before;
      assert [before[0]] + (before[1..] + after) == before + after;
    }
  }

  /** Unregistering a new registration restores the list. */
  lemma UnregisterUndoesRegister<T>(list: seq<T>, h: T)
    requires h !in list
    ensures Erase(list + [h], h) == list
  {
    EraseTakesFirst(list, h, []);
    assert list + [h] + [] == list + [h] && list + [] == list;
  }

  /** How the two writes of a send went, the data's and the newline's; a failed write is taken to leave no byte. */
  datatype WriteResult = Written | DataFailed | EndFailed

  /** The kind of handler that a packet is for; both response forms are for one kind. */
  predicate IsFor(packet: Packet, kind: HandlerKind) {
    match kind
    case OnRequest => packet.RequestPacket?
    case OnResponse => packet.ResponsePacket? || packet.ErrorPacket?
    case OnWitness => packet.WitnessPacket?
    case OnPublish => packet.PublishPacket?
    case OnParseError => false
  }

  predicate OfKind(h: HandlerToken?, kind: HandlerKind) {
    h != null && h.kind == kind
  }

  /** The list holds exactly the tokens of one kind among those given, each once. */
  ghost predicate Lists(list: seq<HandlerToken>, tokens: set<HandlerToken>, kind: HandlerKind) {
    && (forall h | h in list :: h in tokens && h.kind == kind)
    && (forall h | h in tokens && h.kind == kind :: h in list)
    && (forall i, j :: 0 <= i < j < |list| ==> list[i] != list[j])
  }

  lemma ListsMore(list: seq<HandlerToken>, tokens: set<HandlerToken>, kind: HandlerKind, h: HandlerToken)
    requires Lists(list, tokens, kind) && h !in tokens
    ensures Lists(if h.kind == kind then list + [h] else list, tokens + {h}, kind)
  {
  }

  lemma {:induction false} EraseElements<T>(list: seq<T>, h: T)
    requires forall i, j :: 0 <= i < j < |list| ==> list[i] != list[j]
    ensures forall x | x in Erase(list, h) :: x in list && x != h
    ensures forall x | x in list && x != h :: x in Erase(list, h)
    ensures forall i, j :: 0 <= i < j < |Erase(list, h)| ==> Erase(list, h)[i] != Erase(list, h)[j]
  {
    if h in list {
      var i :| 0 <= i < |list| && list[i] == h;
      assert list == list[..i] + [h] + list[i + 1..];
      EraseTakesFirst(list[..i], h, list[i + 1..]);
    } else {
      EraseTakesFirst(list, h, []);
    }
  }

  lemma ListsLess(list: seq<HandlerToken>, tokens: set<HandlerToken>, kind: HandlerKind, h: HandlerToken)
    requires Lists(list, tokens, kind)
    ensures Lists(if h.kind == kind then Erase<HandlerToken>(list, h) else list, tokens - {h}, kind)
  {
    EraseElements<HandlerToken>(list, h);
  }

  /** The reads before the first that returns nothing. */
  function UpToEnd(chunks: seq<string>): seq<string> {
    if chunks == [] || chunks[0] == "" then [] else [chunks[0]] + UpToEnd(chunks[1..])
  }

  lemma {:induction false} UpToEndCuts(chunks: seq<string>)
    ensures exists n: nat :: n <= |chunks| && UpToEnd(chunks) == chunks[..n] && EndsAt(chunks, n)
  {
    if chunks == [] || chunks[0] == "" {
      assert chunks[..0] == [] && EndsAt(chunks, 0);
    } else {
      var rest := chunks[1..];
      UpToEndCuts(rest);
      var n: nat :| n <= |rest| && UpToEnd(rest) == rest[..n] && EndsAt(rest, n);
      assert chunks[..n + 1] == [chunks[0]] + rest[..n];
      assert forall i :: 0 < i < |chunks| ==> chunks[i] == rest[i - 1];
      assert EndsAt(chunks, n + 1);
    }
  }

  /** The first read that returns nothing, or the end. */
  predicate EndsAt(chunks: seq<string>, n: nat)
    requires n <= |chunks|
  {
    (forall i :: 0 <= i < n ==> chunks[i] != "") && (n < |chunks| ==> chunks[n] == "")
  }

  class Client {
    var connected: bool
    var nextId: int
    var errorCode: string
    var errorWhat: string
    var sent: string
    var requestHandlers: seq<HandlerToken>
    var responseHandlers: seq<HandlerToken>
    var witnessHandlers: seq<HandlerToken>
    var publishHandlers: seq<HandlerToken>
    var parseErrorHandlers: seq<HandlerToken>
    var calls: seq<Call>
    /** The handlers registered and not unregistered since. */
    ghost var registered: set<HandlerToken>
    /** The messages sent with their terminating newline. */
    ghost var messages: seq<Packet>

    constructor ()
      ensures !connected && nextId == 0 && errorCode == "" && errorWhat == "" && sent == "" && calls == []
      ensures Valid() && registered == {} && WireHolds() && messages == []
    {
      connected, nextId, errorCode, errorWhat, sent, calls := false, 0, "", "", "", [];
      requestHandlers, responseHandlers, witnessHandlers, publishHandlers, parseErrorHandlers := [], [], [], [], [];
      registered, messages := {}, [];
    }

    /** Every list holds exactly the registered handlers of its own kind, each once. */
    ghost predicate Valid()
      reads this`requestHandlers, this`responseHandlers, this`witnessHandlers,
            this`publishHandlers, this`parseErrorHandlers, this`registered
    {
      && Lists(requestHandlers, registered, OnRequest)
      && Lists(responseHandlers, registered, OnResponse)
      && Lists(witnessHandlers, registered, OnWitness)
      && Lists(publishHandlers, registered, OnPublish)
      && Lists(parseErrorHandlers, registered, OnParseError)
    }

    /** The bytes sent are those of the messages, whole and in order. */
    ghost predicate WireHolds()
      reads this`sent, this`messages
    {
      sent == WireOf(messages)
    }

    function ListFor(kind: HandlerKind): (list: seq<HandlerToken>)
      reads this`requestHandlers, this`responseHandlers, this`witnessHandlers,
            this`publishHandlers, this`parseErrorHandlers, this`registered
      ensures Valid() ==> Lists(list, registered, kind)
    {
      match kind
      case OnRequest => requestHandlers
      case OnResponse => responseHandlers
      case OnWitness => witnessHandlers
      case OnPublish => publishHandlers
      case OnParseError => parseErrorHandlers
    }

    // ---- Handler registration ----

    method RegisterRequestHandler(fn: nat) returns (h: HandlerToken)
      requires Valid()
      modifies this`nextId, this`requestHandlers, this`registered
      ensures Valid() && registered == old(registered) + {h}
      ensures fresh(h) && h.kind == OnRequest && h.fn == fn && h.id == old(nextId) && nextId == old(nextId) + 1
      ensures requestHandlers == old(requestHandlers) + [h]
      ensures forall kind ::
                ListFor(kind) == if kind == h.kind then old(ListFor(kind)) + [h] else old(ListFor(kind))
    {
      h := new HandlerToken(OnRequest, nextId, fn);
      nextId := nextId + 1;
      requestHandlers := requestHandlers + [h];
      registered := registered + {h};
      Added(h);
    }

    method RegisterResponseHandler(fn: nat) returns (h: HandlerToken)
      requires Valid()
      modifies this`nextId, this`responseHandlers, this`registered
      ensures Valid() && registered == old(registered) + {h}
      ensures fresh(h) && h.kind == OnResponse && h.fn == fn && h.id == old(nextId) && nextId == old(nextId) + 1
      ensures responseHandlers == old(responseHandlers) + [h]
      ensures forall kind ::
                ListFor(kind) == if kind == h.kind then old(ListFor(kind)) + [h] else old(ListFor(kind))
    {
      h := new HandlerToken(OnResponse, nextId, fn);
      nextId := nextId + 1;
      responseHandlers := responseHandlers + [h];
      registered := registered + {h};
      Added(h);
    }

    method RegisterWitnessHandler(fn: nat) returns (h: HandlerToken)
      requires Valid()
      modifies this`nextId, this`witnessHandlers, this`registered
      ensures Valid() && registered == old(registered) + {h}
      ensures fresh(h) && h.kind == OnWitness && h.fn == fn && h.id == old(nextId) && nextId == old(nextId) + 1
      ensures witnessHandlers == old(witnessHandlers) + [h]
      ensures forall kind ::
                ListFor(kind) == if kind == h.kind then old(ListFor(kind)) + [h] else old(ListFor(kind))
    {
      h := new HandlerToken(OnWitness, nextId, fn);
      nextId := nextId + 1;
      witnessHandlers := witnessHandlers + [h];
      registered := registered + {h};
      Added(h);
    }

    method RegisterPublishHandler(fn: nat) returns (h: HandlerToken)
      requires Valid()
      modifies this`nextId, this`publishHandlers, this`registered
      ensures Valid() && registered == old(registered) + {h}
      ensures fresh(h) && h.kind == OnPublish && h.fn == fn && h.id == old(nextId) && nextId == old(nextId) + 1
      ensures publishHandlers == old(publishHandlers) + [h]
      ensures forall kind ::
                ListFor(kind) == if kind == h.kind then old(ListFor(kind)) + [h] else old(ListFor(kind))
    {
      h := new HandlerToken(OnPublish, nextId, fn);
      nextId := nextId + 1;
      publishHandlers := publishHandlers + [h];
      registered := registered + {h};
      Added(h);
    }

    method RegisterParseErrorHandler(fn: nat) returns (h: HandlerToken)
      requires Valid()
      modifies this`nextId, this`parseErrorHandlers, this`registered
      ensures Valid() && registered == old(registered) + {h}
      ensures fresh(h) && h.kind == OnParseError && h.fn == fn && h.id == old(nextId) && nextId == old(nextId) + 1
      ensures parseErrorHandlers == old(parseErrorHandlers) + [h]
      ensures forall kind ::
                ListFor(kind) == if kind == h.kind then old(ListFor(kind)) + [h] else old(ListFor(kind))
    {
      h := new HandlerToken(OnParseError, nextId, fn);
      nextId := nextId + 1;
      parseErrorHandlers := parseErrorHandlers + [h];
      registered := registered + {h};
      Added(h);
    }

    twostate lemma Added(new h: HandlerToken)
      requires old(Valid()) && h !in old(registered) && registered == old(registered) + {h}
      requires forall kind ::
                 ListFor(kind) == if kind == h.kind then old(ListFor(kind)) + [h] else old(ListFor(kind))
      ensures Valid()
    {
      forall kind ensures Lists(ListFor(kind), registered, kind) {
        ListsMore(old(ListFor(kind)), old(registered), kind, h);
      }
      EveryList();
    }

    twostate lemma Removed(h: HandlerToken)
      requires old(Valid()) && registered == old(registered) - {h}
      requires forall kind :: ListFor(kind) ==
                 if kind == h.kind then Erase<HandlerToken>(old(ListFor(kind)), h) else old(ListFor(kind))
      ensures Valid()
    {
      forall kind ensures Lists(ListFor(kind), registered, kind) {
        ListsLess(old(ListFor(kind)), old(registered), kind, h);
      }
      EveryList();
    }

    lemma EveryList()
      requires forall kind :: Lists(ListFor(kind), registered, kind)
      ensures Valid()
    {
      assert Lists(ListFor(OnRequest), registered, OnRequest) && Lists(ListFor(OnResponse), registered, OnResponse);
      assert Lists(ListFor(OnWitness), registered, OnWitness) && Lists(ListFor(OnPublish), registered, OnPublish);
      assert Lists(ListFor(OnParseError), registered, OnParseError);
    }

    method UnregisterHandler(h: HandlerToken?)
      requires Valid()
      modifies this`requestHandlers, this`responseHandlers, this`witnessHandlers,
               this`publishHandlers, this`parseErrorHandlers, this`registered
      ensures Valid() && registered == if h == null then old(registered) else old(registered) - {h}
      ensures requestHandlers
           == old(if OfKind(h, OnRequest) then Erase<HandlerToken>(requestHandlers, h) else requestHandlers)
      ensures responseHandlers
           == old(if OfKind(h, OnResponse) then Erase<HandlerToken>(responseHandlers, h) else responseHandlers)
      ensures witnessHandlers
           == old(if OfKind(h, OnWitness) then Erase<HandlerToken>(witnessHandlers, h) else witnessHandlers)
      ensures publishHandlers
           == old(if OfKind(h, OnPublish) then Erase<HandlerToken>(publishHandlers, h) else publishHandlers)
      ensures parseErrorHandlers
           == old(if OfKind(h, OnParseError) then Erase<HandlerToken>(parseErrorHandlers, h) else parseErrorHandlers)
      ensures forall kind :: ListFor(kind) ==
                if h != null && h.kind == kind then Erase<HandlerToken>(old(ListFor(kind)), h) else old(ListFor(kind))
    {
      if h == null {
        return;
      }
      match h.kind {
        case OnRequest => requestHandlers := Erase<HandlerToken>(requestHandlers, h);
        case OnResponse => responseHandlers := Erase<HandlerToken>(responseHandlers, h);
        case OnWitness => witnessHandlers := Erase<HandlerToken>(witnessHandlers, h);
        case OnPublish => publishHandlers := Erase<HandlerToken>(publishHandlers, h);
        case OnParseError => parseErrorHandlers := Erase<HandlerToken>(parseErrorHandlers, h);
      }
      registered := registered - {h};
      Removed(h);
    }

    // ---- Wire sends ----

    method Error(code: string, what: string)
      modifies this`errorCode, this`errorWhat
      ensures errorCode == code && errorWhat == what
    {
      errorCode, errorWhat := code, what;
    }

    /** Every message on the wire is followed by a newline of its own. */
    method WriteRaw(data: string, result: WriteResult)
      modifies this`sent, this`errorCode, this`errorWhat
      ensures result.Written? ==>
                sent == old(sent) + data + "\n" && (errorCode, errorWhat) == old((errorCode, errorWhat))
      ensures result.DataFailed? ==> sent == old(sent) && SendFailed("failed to write to socket")
      ensures result.EndFailed? ==> sent == old(sent) + data && SendFailed("failed to write newline terminator")
    {
      if result == DataFailed {
        Error("SendFailed", "failed to write to socket");
        return;
      }
      sent := sent + data;
      if result == EndFailed {
        Error("SendFailed", "failed to write newline terminator");
        return;
      }
      sent := sent + "\n";
    }

    predicate SendFailed(what: string)
      reads this`errorCode, this`errorWhat
    {
      errorCode == "SendFailed" && errorWhat == what
    }

    /** What the attempt to send p leaves, by how its two writes went: the whole message and its newline, nothing, or
        the message without its newline. */
    twostate predicate Attempted(p: Packet, result: WriteResult)
      reads this
    {
      match result
      case Written =>
        && sent == old(sent) + WireOf([p]) && messages == old(messages) + [p]
        && errorCode == "" && errorWhat == ""
      case DataFailed =>
        && sent == old(sent) && messages == old(messages) && SendFailed("failed to write to socket")
      case EndFailed =>
        && sent == old(sent) + Serialized(p) && messages == old(messages)
        && SendFailed("failed to write newline terminator")
    }

    /** Writes p's text, and notes the message if all of it went out. */
    method WriteMessage(ghost p: Packet, data: string, result: WriteResult)
      requires data == Serialized(p) && errorCode == "" && errorWhat == ""
      modifies this`sent, this`messages, this`errorCode, this`errorWhat
      ensures Attempted(p, result)
      ensures old(WireHolds()) && !result.EndFailed? ==> WireHolds()
    {
      WriteRaw(data, result);
      if result.Written? {
        messages := messages + [p];
        WireOfOne(p);
        WireOfSends(old(messages), p);
        Assoc(old(sent), data, "\n");
      }
    }

    /** Clears the last error; false if nothing may be sent. */
    method Ready(given: bool, missing: string) returns (ready: bool)
      modifies this`errorCode, this`errorWhat
      ensures ready == (connected && given)
      ensures ready ==> errorCode == "" && errorWhat == ""
      ensures !connected ==> errorCode == "NotConnected" && errorWhat == "client is not connected"
      ensures connected && !given ==> errorCode == "NullArgument" && errorWhat == missing
    {
      errorCode, errorWhat := "", "";
      if !connected {
        Error("NotConnected", "client is not connected");
        return false;
      }
      if !given {
        Error("NullArgument", missing);
        return false;
      }
      return true;
    }

    method Send(r: Request?, result: WriteResult)
      modifies this`errorCode, this`errorWhat, this`sent, this`messages,
               (if r == null then {} else {r.base})`serialized
      ensures connected && r != null ==> Attempted(r.Packet(), result)
      ensures !connected || r == null ==> sent == old(sent) && messages == old(messages)
      ensures !connected ==> errorCode == "NotConnected" && errorWhat == "client is not connected"
      ensures connected && r == null ==> errorCode == "NullArgument" && errorWhat == "hRequest is null"
      ensures r != null ==> r.Packet() == old(r.Packet())
      ensures old(WireHolds()) && !(connected && r != null && result.EndFailed?) ==> WireHolds()
    {
      var ready := Ready(r != null, "hRequest is null");
      if ready {
        r.Serialize();
        WriteMessage(r.Packet(), r.base.serialized, result);
      }
    }

    method SendResponse(r: Response?, result: WriteResult)
      modifies this`errorCode, this`errorWhat, this`sent, this`messages,
               (if r == null then {} else {r.base})`serialized
      ensures connected && r != null ==> Attempted(r.Packet(), result)
      ensures !connected || r == null ==> sent == old(sent) && messages == old(messages)
      ensures !connected ==> errorCode == "NotConnected" && errorWhat == "client is not connected"
      ensures connected && r == null ==> errorCode == "NullArgument" && errorWhat == "hResponse is null"
      ensures r != null ==> r.Packet() == old(r.Packet())
      ensures old(WireHolds()) && !(connected && r != null && result.EndFailed?) ==> WireHolds()
    {
      var ready := Ready(r != null, "hResponse is null");
      if ready {
        r.Serialize();
        WriteMessage(r.Packet(), r.base.serialized, result);
      }
    }

    method SendResponseError(r: ResponseError?, result: WriteResult)
      modifies this`errorCode, this`errorWhat, this`sent, this`messages,
               (if r == null then {} else {r.base})`serialized
      ensures connected && r != null ==> Attempted(r.Packet(), result)
      ensures !connected || r == null ==> sent == old(sent) && messages == old(messages)
      ensures !connected ==> errorCode == "NotConnected" && errorWhat == "client is not connected"
      ensures connected && r == null ==> errorCode == "NullArgument" && errorWhat == "hError is null"
      ensures r != null ==> r.Packet() == old(r.Packet())
      ensures old(WireHolds()) && !(connected && r != null && result.EndFailed?) ==> WireHolds()
    {
      var ready := Ready(r != null, "hError is null");
      if ready {
        r.Serialize();
        WriteMessage(r.Packet(), r.base.serialized, result);
      }
    }

    method SendWitness(r: Witness?, result: WriteResult)
      modifies this`errorCode, this`errorWhat, this`sent, this`messages,
               (if r == null then {} else {r.base})`serialized
      ensures connected && r != null ==> Attempted(r.Packet(), result)
      ensures !connected || r == null ==> sent == old(sent) && messages == old(messages)
      ensures !connected ==> errorCode == "NotConnected" && errorWhat == "client is not connected"
      ensures connected && r == null ==> errorCode == "NullArgument" && errorWhat == "hWitness is null"
      ensures r != null ==> r.Packet() == old(r.Packet())
      ensures old(WireHolds()) && !(connected && r != null && result.EndFailed?) ==> WireHolds()
    {
      var ready := Ready(r != null, "hWitness is null");
      if ready {
        r.Serialize();
        WriteMessage(r.Packet(), r.base.serialized, result);
      }
    }

    method SendPublish(r: Publish?, result: WriteResult)
      modifies this`errorCode, this`errorWhat, this`sent, this`messages,
               (if r == null then {} else {r.base})`serialized
      ensures connected && r != null ==> Attempted(r.Packet(), result)
      ensures !connected || r == null ==> sent == old(sent) && messages == old(messages)
      ensures !connected ==> errorCode == "NotConnected" && errorWhat == "client is not connected"
      ensures connected && r == null ==> errorCode == "NullArgument" && errorWhat == "hPublish is null"
      ensures r != null ==> r.Packet() == old(r.Packet())
      ensures old(WireHolds()) && !(connected && r != null && result.EndFailed?) ==> WireHolds()
    {
      var ready := Ready(r != null, "hPublish is null");
      if ready {
        r.Serialize();
        WriteMessage(r.Packet(), r.base.serialized, result);
      }
    }

    method SendRaw(data: string, result: WriteResult)
      modifies this`errorCode, this`errorWhat, this`sent
      ensures connected && result.Written? ==>
                sent == old(sent) + data + "\n" && errorCode == "" && errorWhat == ""
      ensures connected && result.DataFailed? ==> sent == old(sent) && SendFailed("failed to write to socket")
      ensures connected && result.EndFailed? ==>
                sent == old(sent) + data && SendFailed("failed to write newline terminator")
      ensures !connected ==> errorCode == "NotConnected" && sent == old(sent)
    {
      errorCode, errorWhat := "", "";
      if !connected {
        Error("NotConnected", "client is not connected");
        return;
      }
      WriteRaw(data, result);
    }

    // ---- Listening ----

    /** The handlers that hear of a packet: its kind's, and both response forms share one list. */
    function HandlersFor(packet: Packet): (list: seq<HandlerToken>)
      reads this`requestHandlers, this`responseHandlers, this`witnessHandlers,
            this`publishHandlers, this`parseErrorHandlers, this`registered
      ensures Valid() ==> forall h | h in list :: h in registered && IsFor(packet, h.kind)
      ensures Valid() ==> forall h | h in registered && IsFor(packet, h.kind) :: h in list
      ensures Valid() ==> forall i, j :: 0 <= i < j < |list| ==> list[i] != list[j]
    {
      match packet
      case RequestPacket(_) => requestHandlers
      case ResponsePacket(_) => responseHandlers
      case ErrorPacket(_, _, _) => responseHandlers
      case WitnessPacket(_, _) => witnessHandlers
      case PublishPacket(_, _) => publishHandlers
    }

    function OutcomeCalls(outcome: Outcome): seq<Call>
      reads this`requestHandlers, this`responseHandlers, this`witnessHandlers,
            this`publishHandlers, this`parseErrorHandlers, this`registered
    {
      match outcome
      case Blank => []
      case Rejected(code, what, line) => CallsOf(parseErrorHandlers, ParseError(code, what, line))
      case Delivered(packet, raw) => CallsOf(HandlersFor(packet), Got(packet, raw))
    }

    ghost function FrameCalls(frames: seq<Frame>): seq<Call>
      reads this`requestHandlers, this`responseHandlers, this`witnessHandlers,
            this`publishHandlers, this`parseErrorHandlers, this`registered
    {
      if frames == [] then []
      else FrameCalls(frames[..|frames| - 1]) + OutcomeCalls(OutcomeOf(frames[|frames| - 1]))
    }

    method Notify(handlers: seq<HandlerToken>, event: Event)
      modifies this`calls
      ensures calls == old(calls) + CallsOf(handlers, event)
    {
      for i := 0 to |handlers|
        invariant calls + CallsOf(handlers[i..], event) == old(calls) + CallsOf(handlers, event)
      {
        assert handlers[i..][1..] == handlers[i + 1..];
        Assoc(calls, [Call(handlers[i].fn, event)], CallsOf(handlers[i + 1..], event));
        calls := calls + [Call(handlers[i].fn, event)];
      }
      assert handlers[|handlers|..] == [] && calls + [] == calls;
    }

    /** A completed frame, from parsing to the handlers. */
    method HandleFrame(line: string, rawLine: string)
      modifies this`calls
      ensures calls == old(calls) + OutcomeCalls(OutcomeOf(Frame(line, rawLine)))
    {
      if line == "" {
        assert calls + [] == calls;
        return;
      }
      var parser := new Parser();
      var msg := new ParsedMessage();
      parser.Parse(line, msg);
      ghost var p := parser.State(msg);
      assert p == P.Parse(line);
      parser.ValidateMessage(msg);
      if parser.HasError() {
        Notify(parseErrorHandlers, ParseError(parser.errorCode, parser.errorWhat, line));
        return;
      }
      Deliver(parser, msg, rawLine, p);
    }

    method Deliver(parser: Parser, msg: ParsedMessage, rawLine: string, ghost p: P.Parsed)
      requires parser.State(msg) == p && P.Validate(p).Accepted?
      modifies this`calls
      ensures calls == old(calls) + OutcomeCalls(Delivered(Interpret(p), rawLine))
    {
      match parser.kind {
        case Request =>
          var req := MakeRequest(msg, rawLine, p);
          Notify(requestHandlers, Got(RequestPacket(req.base.Snapshot()), req.base.raw));
        case Response =>
          var isError := "error" in msg.flags;
          if isError {
            var err := MakeError(msg, rawLine, p);
            Notify(responseHandlers, Got(ErrorPacket(err.base.Snapshot(), err.code, err.what), err.base.raw));
          } else {
            var resp := MakeResponse(msg, rawLine, p);
            Notify(responseHandlers, Got(ResponsePacket(resp.base.Snapshot()), resp.base.raw));
          }
        case Witness =>
          var wit := MakeWitness(msg, rawLine, p);
          Notify(witnessHandlers, Got(WitnessPacket(wit.base.Snapshot(), wit.body), wit.base.raw));
        case Publish =>
          var pub := MakePublish(msg, rawLine, p);
          Notify(publishHandlers, Got(PublishPacket(pub.base.Snapshot(), pub.topic), pub.base.raw));
      }
    }

    lemma FrameCallsLast(frames: seq<Frame>, frame: Frame)
      ensures FrameCalls(frames + [frame]) == FrameCalls(frames) + OutcomeCalls(OutcomeOf(frame))
    {
      assert (frames + [frame])[..|frames|] == frames;
    }

    /** What one line l does to the frame in progress; `complete` if the frame ends with it. */
    static method Reassemble(l: string, line: string, multiline: bool, ghost raw: string, ghost frames: seq<Frame>)
      returns (line': string, multiline': bool, complete: bool)
      ensures TakeLine(Assembly(line, raw, multiline, frames), l)
           == if complete then Complete(Assembly(line, raw, multiline, frames), line', raw + (l + "\n"))
              else Assembly(line', raw + (l + "\n"), multiline', frames)
      ensures complete ==> !multiline'
    {
      var currentLine := l;
      // a line may end in a carriage return of its own
      if currentLine != "" && currentLine[|currentLine| - 1] == '\r' {
        currentLine := currentLine[..|currentLine| - 1];
      }
      if !multiline {
        var openPos := FindPair(currentLine, '<', 0);
        var selfClosed := openPos != |currentLine|
                          && FindPair(currentLine, '>', openPos + 2) != |currentLine|;
        if openPos != |currentLine| && !selfClosed {
          return currentLine + "\n", true, false;
        }
        return currentLine, false, true;
      }
      // only a line that begins with >> closes a block
      var isClose := currentLine == ">>" || (|currentLine| >= 3 && currentLine[..3] == ">> ");
      if !isClose {
        return line + (currentLine + "\n"), true, false;
      }
      // the frame goes on if the closing line opens another block
      if FindPair(currentLine, '<', 0) != |currentLine| {
        return line + currentLine, true, false;
      }
      return line + currentLine, false, true;
    }

    lemma HandledFrame(base: seq<Call>, frames: seq<Frame>, frame: Frame)
      ensures base + FrameCalls(frames) + OutcomeCalls(OutcomeOf(frame)) == base + FrameCalls(frames + [frame])
    {
      FrameCallsLast(frames, frame);
      Assoc(base, FrameCalls(frames), OutcomeCalls(OutcomeOf(frame)));
    }

    /** One line out of the buffer, to the handlers if it completes a frame. */
    method TakeOneLine(l: string, line0: string, rawLine0: string, multiline0: bool,
                       ghost frames0: seq<Frame>, ghost base: seq<Call>)
      returns (line: string, rawLine: string, multiline: bool, ghost frames: seq<Frame>)
      requires calls == base + FrameCalls(frames0)
      modifies this`calls
      ensures Assembly(line, rawLine, multiline, frames) == TakeLine(Assembly(line0, rawLine0, multiline0, frames0), l)
      ensures calls == base + FrameCalls(frames)
    {
      var complete;
      frames := frames0;
      line, multiline, complete := Reassemble(l, line0, multiline0, rawLine0, frames0);
      rawLine := rawLine0 + (l + "\n");
      if complete {
        HandleFrame(line, rawLine);
        HandledFrame(base, frames, Frame(line, rawLine));
        frames := frames + [Frame(line, rawLine)];
        rawLine := "";
      }
    }

    /** Takes every complete line out of the buffer. */
    method DrainBuffer(buf0: string, line0: string, rawLine0: string, multiline0: bool,
                       ghost frames0: seq<Frame>, ghost base: seq<Call>)
      returns (buf: string, line: string, rawLine: string, multiline: bool, ghost frames: seq<Frame>)
      requires calls == base + FrameCalls(frames0)
      modifies this`calls
      ensures Stream(Assembly(line, rawLine, multiline, frames), buf)
           == Drained(Assembly(line0, rawLine0, multiline0, frames0), buf0)
      ensures calls == base + FrameCalls(frames)
    {
      buf, line, rawLine, multiline, frames := buf0, line0, rawLine0, multiline0, frames0;
      ghost var a := Assembly(line0, rawLine0, multiline0, frames0);
      ghost var target := Drained(a, buf0);
      var pos := IndexOf(buf, '\n');
      while pos != |buf|
        invariant pos == IndexOf(buf, '\n')
        invariant a == Assembly(line, rawLine, multiline, frames)
        invariant Drained(a, buf) == target
        invariant calls == base + FrameCalls(frames)
        decreases |buf|
      {
        FirstLineOut(a, buf);
        a := TakeLine(a, buf[..pos]);
        line, rawLine, multiline, frames := TakeOneLine(buf[..pos], line, rawLine, multiline, frames, base);
        buf := buf[pos + 1..];
        pos := IndexOf(buf, '\n');
      }
    }

    /** Reads until the connection ends, delivering every frame as soon as it is complete. */
    method Listen(chunks: seq<string>)
      modifies this`errorCode, this`errorWhat, this`calls
      ensures !connected ==> errorCode == "NotConnected" && calls == old(calls)
      ensures connected ==> errorCode == ""
      ensures connected ==>
                calls == old(calls) + FrameCalls(ReceiveAll(Stream(IDLE, ""), UpToEnd(chunks)).assembly.frames)
    {
      errorCode, errorWhat := "", "";
      if !connected {
        Error("NotConnected", "client is not connected");
        return;
      }
      var buf, line, rawLine, multiline := "", "", "", false;
      ghost var frames: seq<Frame>, base := [], calls;
      assert calls + [] == calls;
      for i := 0 to |chunks|
        invariant errorCode == ""
        invariant ReceiveAll(Stream(Assembly(line, rawLine, multiline, frames), buf), UpToEnd(chunks[i..]))
               == ReceiveAll(Stream(IDLE, ""), UpToEnd(chunks))
        invariant calls == base + FrameCalls(frames)
      {
        if |chunks[i]| <= 0 {
          break;
        }
        FirstChunkIn(Stream(Assembly(line, rawLine, multiline, frames), buf), chunks[i..]);
        assert chunks[i..][1..] == chunks[i + 1..];
        buf := buf + chunks[i];
        buf, line, rawLine, multiline, frames := DrainBuffer(buf, line, rawLine, multiline, frames, base);
      }
    }
  }

  /** The state once every complete line of buf is taken. */
  function Drained(a: Assembly, buf: string): Stream {
    Stream(TakeLines(a, Lines(buf)), Rest(buf))
  }

  lemma FirstLineOut(a: Assembly, buf: string)
    requires IndexOf(buf, '\n') < |buf|
    ensures var pos := IndexOf(buf, '\n');
            Drained(a, buf) == Drained(TakeLine(a, buf[..pos]), buf[pos + 1..])
  {
    var pos := IndexOf(buf, '\n');
    SplitAt(buf, '\n', pos);
    DrainedLine(a, buf[..pos], buf[pos + 1..]);
  }

  lemma DrainedLine(a: Assembly, l: string, more: string)
    requires Lacks(l, '\n')
    ensures Drained(a, l + "\n" + more) == Drained(TakeLine(a, l), more)
  {
    LinesCons(l, more);
    TakeFirst(a, l, Lines(more));
  }

  lemma TakeFirst(a: Assembly, l: string, lines: seq<string>)
    ensures TakeLines(a, [l] + lines) == TakeLines(TakeLine(a, l), lines)
  {
    assert ([l] + lines)[1..] == lines;
  }

  lemma FirstChunkIn(st: Stream, chunks: seq<string>)
    requires chunks != [] && chunks[0] != ""
    ensures ReceiveAll(st, UpToEnd(chunks)) == ReceiveAll(Receive(st, chunks[0]), UpToEnd(chunks[1..]))
  {
    assert ([chunks[0]] + UpToEnd(chunks[1..]))[1..] == UpToEnd(chunks[1..]);
  }
}
