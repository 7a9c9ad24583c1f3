/** From the sender's messages to the receiver's handlers, and the one way a message can change on the way. */
module Delivery {
  import opened Strings
  import opened Ordered
  import opened Parsing
  import opened Wire
  import opened Items
  import opened Forms
  import opened Rendering
  import opened PacketParse
  import opened RoundTrip
  import opened Framing
  import opened FramingLaws
  import opened Dispatch
  import opened MessageFraming
  import opened StreamMessages
  import opened StreamRoundTrip
  import opened MessageTokens
  import opened StreamExact
  import opened Clients

  /** A call list holds each handler's callback once, in registration order, with the event. */
  lemma {:induction false} CallsOncePerHandler(handlers: seq<HandlerToken>, event: Event)
    ensures |CallsOf(handlers, event)| == |handlers|
    ensures forall i :: 0 <= i < |handlers| ==> CallsOf(handlers, event)[i] == Call(handlers[i].fn, event)
  {
    if handlers != [] {
      CallsOncePerHandler(handlers[1..], event);
    }
  }

  /** What the receiver's handlers are called with when p's bytes arrive as q. */
  ghost function MessageCalls(c: Client, p: Packet, q: Packet): seq<Call>
    reads c
  {
    CallsOf(c.HandlersFor(q), Got(q, Serialized(p)))
  }

  ghost function StreamCalls(c: Client, ps: seq<Packet>, qs: seq<Packet>): seq<Call>
    requires |qs| == |ps|
    reads c
  {
    if ps == [] then [] else MessageCalls(c, ps[0], qs[0]) + StreamCalls(c, ps[1..], qs[1..])
  }

  /** The messages as the listener delivers them. */
  ghost function AllArrived(ps: seq<Packet>): (qs: seq<Packet>)
    ensures |qs| == |ps| && forall i :: 0 <= i < |ps| ==> qs[i] == Arrived(ps[i])
  {
    if ps == [] then [] else [Arrived(ps[0])] + AllArrived(ps[1..])
  }

  /** The messages as one-shot reading gives them. */
  function AllReceived(ps: seq<Packet>): (qs: seq<Packet>)
    ensures |qs| == |ps| && forall i :: 0 <= i < |ps| ==> qs[i] == Received(ps[i])
  {
    if ps == [] then [] else [Received(ps[0])] + AllReceived(ps[1..])
  }

  lemma {:induction false} FrameCallsAppend(c: Client, a: seq<Frame>, b: seq<Frame>)
    ensures c.FrameCalls(a + b) == c.FrameCalls(a) + c.FrameCalls(b)
    decreases |b|
  {
    if b == [] {
      assert a + b == a;
      assert c.FrameCalls(a) + [] == c.FrameCalls(a);
    } else {
      var init, last := b[..|b| - 1], b[|b| - 1];
      assert b == init + [last];
      FrameCallsAppend(c, a, init);
      c.FrameCallsLast(a + init, last);
      c.FrameCallsLast(init, last);
      Assoc(a, init, [last]);
      Assoc(c.FrameCalls(a), c.FrameCalls(init), c.OutcomeCalls(OutcomeOf(last)));
    }
  }

  lemma BlankAfter(c: Client, shown: Frame)
    ensures c.FrameCalls([shown, Frame("", "\n")]) == c.OutcomeCalls(OutcomeOf(shown))
  {
    var blank, calls := Frame("", "\n"), c.OutcomeCalls(OutcomeOf(shown));
    c.FrameCallsLast([], shown);
    c.FrameCallsLast([shown], blank);
    assert [] + [shown] == [shown] && [shown] + [blank] == [shown, blank];
    assert [] + calls == calls == calls + [];
  }

  ghost predicate AllDeliverable(ps: seq<Packet>) {
    forall i :: 0 <= i < |ps| ==> Deliverable(ps[i])
  }

  /** The frame of p makes the calls of q. */
  ghost predicate CallsRight(c: Client, p: Packet, q: Packet)
    reads c
  {
    c.OutcomeCalls(OutcomeOf(Frame(ShownLine(p), Serialized(p)))) == MessageCalls(c, p, q)
  }

  lemma StreamableCallsRight(c: Client, p: Packet)
    requires Streamable(p) && Deliverable(p)
    ensures CallsRight(c, p, Arrived(p))
  {
    FrameArrives(p);
  }

  lemma IntactCallsRight(c: Client, p: Packet)
    requires Clear(p) && IntactMessage(p)
    ensures CallsRight(c, p, Received(p))
  {
    IntactDelivers(p);
  }

  lemma MoreCalls(c: Client, p: Packet, q: Packet, frames: seq<Frame>)
    requires CallsRight(c, p, q)
    ensures c.FrameCalls(MessageFrames(p) + frames) == MessageCalls(c, p, q) + c.FrameCalls(frames)
  {
    FrameCallsAppend(c, MessageFrames(p), frames);
    BlankAfter(c, Frame(ShownLine(p), Serialized(p)));
  }

  ghost predicate AllCallsRight(c: Client, ps: seq<Packet>, qs: seq<Packet>)
    reads c
  {
    |qs| == |ps| && forall i :: 0 <= i < |ps| ==> CallsRight(c, ps[i], qs[i])
  }

  lemma AllCallsRightTail(c: Client, ps: seq<Packet>, qs: seq<Packet>)
    requires ps != [] && AllCallsRight(c, ps, qs)
    ensures CallsRight(c, ps[0], qs[0]) && AllCallsRight(c, ps[1..], qs[1..])
  {
    forall i | 0 <= i < |ps| - 1 ensures CallsRight(c, ps[1..][i], qs[1..][i]) {
      assert CallsRight(c, ps[i + 1], qs[i + 1]);
    }
  }

  lemma {:induction false} StreamFrameCalls(c: Client, ps: seq<Packet>, qs: seq<Packet>)
    requires AllCallsRight(c, ps, qs)
    ensures c.FrameCalls(StreamFrames(ps)) == StreamCalls(c, ps, qs)
    decreases ps
  {
    if ps != [] {
      AllCallsRightTail(c, ps, qs);
      StreamFrameCalls(c, ps[1..], qs[1..]);
      MoreCalls(c, ps[0], qs[0], StreamFrames(ps[1..]));
    }
  }

  /** Listening to a stream of deliverable messages, in any chunks, calls every handler with each message in order. */
  lemma StreamReachesHandlers(c: Client, ps: seq<Packet>, chunks: seq<string>)
    requires AllStreamable(ps) && AllDeliverable(ps)
    requires Concat(UpToEnd(chunks)) == WireOf(ps)
    ensures c.FrameCalls(ReceiveAll(Stream(IDLE, ""), UpToEnd(chunks)).assembly.frames)
         == StreamCalls(c, ps, AllArrived(ps))
  {
    StreamableFramed(ps);
    StreamCompletes(ps, UpToEnd(chunks));
    forall i | 0 <= i < |ps| ensures CallsRight(c, ps[i], AllArrived(ps)[i]) {
      StreamableCallsRight(c, ps[i]);
    }
    StreamFrameCalls(c, ps, AllArrived(ps));
  }

  /** A deliverable message whose lines are one frame that shows it intact. */
  ghost predicate Carried(p: Packet) {
    Clear(p) && IntactMessage(p)
  }

  ghost predicate AllCarried(ps: seq<Packet>) {
    forall i :: 0 <= i < |ps| ==> Carried(ps[i])
  }

  /** Listening to a stream of such messages calls every handler with each message as one-shot reading gives it. */
  lemma CarriedReachHandlers(c: Client, ps: seq<Packet>, chunks: seq<string>)
    requires AllCarried(ps) && Concat(UpToEnd(chunks)) == WireOf(ps)
    ensures c.FrameCalls(ReceiveAll(Stream(IDLE, ""), UpToEnd(chunks)).assembly.frames)
         == StreamCalls(c, ps, AllReceived(ps))
  {
    forall i | 0 <= i < |ps| ensures Framed(ps[i]) {
      assert Carried(ps[i]);
    }
    StreamCompletes(ps, UpToEnd(chunks));
    forall i | 0 <= i < |ps| ensures CallsRight(c, ps[i], AllReceived(ps)[i]) {
      assert Carried(ps[i]);
      IntactCallsRight(c, ps[i]);
    }
    StreamFrameCalls(c, ps, AllReceived(ps));
  }

  /** A message free of newlines and "<<" outside its multi-line values, of ">>" in them, and of newlines at the
      beginning of all but the first, is carried. */
  lemma PlainIsCarried(p: Packet)
    requires Sendable(p) && Deliverable(p) && WireSafe(p) && LaterBlocksFlush(p.content.args)
    ensures Carried(p)
  {
    WireSafeStreamable(p);
    OrderlyIntactIff(p);
  }

  ghost predicate AllPlain(ps: seq<Packet>) {
    forall i :: 0 <= i < |ps| ==>
      Sendable(ps[i]) && Deliverable(ps[i]) && WireSafe(ps[i]) && LaterBlocksFlush(ps[i].content.args)
  }

  /** Of such messages, in any chunks, handlers hear each once, in order and as one-shot reading has it. */
  lemma PlainStreamReachesHandlers(c: Client, ps: seq<Packet>, chunks: seq<string>)
    requires AllPlain(ps) && Concat(UpToEnd(chunks)) == WireOf(ps)
    ensures c.FrameCalls(ReceiveAll(Stream(IDLE, ""), UpToEnd(chunks)).assembly.frames)
         == StreamCalls(c, ps, AllReceived(ps))
  {
    forall i | 0 <= i < |ps| ensures Carried(ps[i]) {
      PlainIsCarried(ps[i]);
    }
    CarriedReachHandlers(c, ps, chunks);
  }

  /** The calls made while listening depend on the bytes received, not on how the reads cut them. */
  lemma CallsIgnoreChunking(c: Client, xs: seq<string>, ys: seq<string>)
    requires Concat(UpToEnd(xs)) == Concat(UpToEnd(ys))
    ensures c.FrameCalls(ReceiveAll(Stream(IDLE, ""), UpToEnd(xs)).assembly.frames)
         == c.FrameCalls(ReceiveAll(Stream(IDLE, ""), UpToEnd(ys)).assembly.frames)
  {
    ChunkingIndependent(Stream(IDLE, ""), UpToEnd(xs));
    ChunkingIndependent(Stream(IDLE, ""), UpToEnd(ys));
  }

  // ---- Messages the stream changes, stalls on and keeps ----

  /** Two block arguments, the second beginning with a newline. */
  const TWO_BLOCKS := RequestPacket(Content("c", "h", [("a", "x\ny"), ("b", "\nz")], []))

  lemma LetterWord(s: string)
    requires |s| == 1 && 'a' <= s[0] <= 'z'
    ensures PlainWord(s) && LineSafe(s)
  {
    SimpleWord(s);
    NoCharNoPair(s, '<');
  }

  lemma BlockValueSafe(k: string, v: string)
    requires |k| == 1 && 'a' <= k[0] <= 'z'
    requires Multi(v) && Lacks(v, '>') && Lacks(v, '\r')
    ensures SafeArg((k, v)) && StreamArg((k, v))
  {
    LetterWord(k);
    NoCharNoPair(v, '>');
    assert FindPair(v, '>', 0) == |v|;
  }

  /** The head of a request of letters. */
  lemma LetterHead(p: Packet)
    requires p.RequestPacket? && p.content.command == "c" && p.content.handle == "h"
    ensures Head(p) == "c ~h" && LineSafe(Head(p))
  {
    assert " ~" + "h" == " ~h" && "c" + " ~h" == "c ~h";
    NoCharNoPair("c ~h", '<');
  }

  lemma TwoBlocksValues()
    ensures SafeArg(("a", "x\ny")) && StreamArg(("a", "x\ny")) && SafeArg(("b", "\nz")) && StreamArg(("b", "\nz"))
  {
    assert Multi("x\ny") by { assert "x\ny"[1] == '\n'; }
    assert Multi("\nz") by { assert "\nz"[0] == '\n'; }
    BlockValueSafe("a", "x\ny");
    BlockValueSafe("b", "\nz");
  }

  lemma TwoBlocksProper()
    ensures Proper(TWO_BLOCKS) && ValuesFit(TWO_BLOCKS) && ReturnFree(TWO_BLOCKS) && Deliverable(TWO_BLOCKS)
  {
    LetterWord("c");
    LetterWord("h");
    TwoBlocksValues();
    assert Before("a", "b");
  }

  lemma TwoBlocksSafe()
    ensures Sendable(TWO_BLOCKS) && WireSafe(TWO_BLOCKS) && Deliverable(TWO_BLOCKS)
  {
    TwoBlocksProper();
    TwoBlocksValues();
    ReturnFreeText(TWO_BLOCKS);
    LetterHead(TWO_BLOCKS);
  }

  /** It reads back exactly in one shot, but is heard on a stream with the second value one newline short. */
  lemma StreamLosesNewline()
    ensures Sendable(TWO_BLOCKS) && Deliverable(TWO_BLOCKS)
    ensures FromRaw(TWO_BLOCKS, Serialized(TWO_BLOCKS)) == Some(TWO_BLOCKS)
    ensures Heard(TWO_BLOCKS)
         == [Delivered(RequestPacket(Content("c", "h", [("a", "x\ny"), ("b", "z")], [])), Serialized(TWO_BLOCKS))]
  {
    TwoBlocksSafe();
    OneShotRoundTrip(TWO_BLOCKS);
    WireSafeStreamable(TWO_BLOCKS);
    HeardArrives(TWO_BLOCKS);
    OrderlyArrived(TWO_BLOCKS);
    TwoBlocksTrimmed();
  }

  lemma TwoBlocksTrimmed()
    ensures TrimmedArgs(TWO_BLOCKS.content.args, false) == [("a", "x\ny"), ("b", "z")]
  {
    var args := TWO_BLOCKS.content.args;
    assert Multi("x\ny") by { assert "x\ny"[1] == '\n'; }
    assert Multi("\nz") by { assert "\nz"[0] == '\n'; }
    TrimmedKeys(args, false);
    TrimmedAt(args, false, 0);
    TrimmedAt(args, false, 1);
    assert Multi(args[0].1) && BlockBefore(args, 1);
    assert "\nz"[1..] == "z";
  }

  /** A request with one argument, its value written in double quotes. */
  function Quoting(v: string): Packet {
    RequestPacket(Content("c", "h", [("k", v)], []))
  }

  /** A value that is written in double quotes on one line. */
  ghost predicate Quotable(v: string) {
    Lacks(v, '\n') && Lacks(v, '"') && Lacks(v, '\r') && ' ' in v && !Wrapped(v)
  }

  lemma QuotingProper(v: string)
    requires Quotable(v)
    ensures Proper(Quoting(v)) && ValuesFit(Quoting(v)) && ReturnFree(Quoting(v)) && Deliverable(Quoting(v))
  {
    LetterWord("c");
    LetterWord("h");
    LetterWord("k");
  }

  lemma QuotingSendable(v: string)
    requires Quotable(v)
    ensures Sendable(Quoting(v)) && Deliverable(Quoting(v))
    ensures FromRaw(Quoting(v), Serialized(Quoting(v))) == Some(Quoting(v))
  {
    QuotingProper(v);
    ReturnFreeText(Quoting(v));
    OneShotRoundTrip(Quoting(v));
  }

  lemma OneArgText(k: string, v: string)
    ensures Tail(ArgItems([(k, v)]) + FlagItems([])) == " " + ArgItem(k, v).Text()
  {
    assert [(k, v)][1..] == [];
    assert ArgItems([(k, v)]) + FlagItems([]) == [ArgItem(k, v)];
    TailOne(ArgItem(k, v));
  }

  /** What is written before the quoted value. */
  const LEAD := "c ~h k=\""

  lemma QuoteForm(head: string, lead: string, v: string, quote: string)
    ensures head + (lead + (quote + v + quote)) == head + lead + quote + v + quote
  {
  }

  lemma ArgItemText(k: string, v: string)
    requires Quotable(v)
    ensures " " + ArgItem(k, v).Text() == " " + (k + "=") + ("\"" + v + "\"")
  {
    Assoc(" ", k + "=", "\"" + v + "\"");
  }

  lemma QuotingText(v: string)
    requires Quotable(v)
    ensures MessageText(Quoting(v)) == LEAD + v + "\"" && Lacks(MessageText(Quoting(v)), '\n')
  {
    var p := Quoting(v);
    LetterHead(p);
    TextFromHead(p, ArgItems(p.content.args));
    OneArgText("k", v);
    ArgItemText("k", v);
    QuoteForm("c ~h", " " + ("k" + "="), v, "\"");
    LeadText();
    LeadLine(v);
  }

  lemma LeadLine(v: string)
    requires Lacks(v, '\n')
    ensures Lacks(LEAD + v + "\"", '\n')
  {
  }

  lemma LeadText()
    ensures "c ~h" + (" " + ("k" + "=")) + "\"" == LEAD
  {
  }

  lemma SplitQuoted(lead: string, a: string, b: string, quote: string)
    ensures lead + (a + "<<" + b) + quote == lead + a + "<<" + (b + quote)
  {
  }

  lemma SplitClosed(lead: string, a: string, body: string, b: string, quote: string)
    ensures lead + (a + "<<" + body + ">>" + b) + quote == lead + a + "<<" + body + ">>" + (b + quote)
  {
  }

  /** A line with "<<" and no ">>" after it. */
  lemma UnclosedOpens(a: string, b: string)
    requires Lacks(a, '<') && Lacks(b, '>')
    ensures Opens(a + "<<" + b)
  {
    var l := a + "<<" + b;
    assert PairAt(l, '<', |a|);
    FindPairUnique(l, '<', 0, |a|);
    forall j | |a| + 2 <= j < |l| ensures !PairAt(l, '>', j) {
      assert l[j] == b[j - |a| - 2];
    }
    FindPairUnique(l, '>', |a| + 2, |l|);
  }

  lemma ClosedOpensNot(a: string, body: string, b: string)
    requires Lacks(a, '<')
    ensures !Opens(a + "<<" + body + ">>" + b)
  {
    var l := a + "<<" + body + ">>" + b;
    assert PairAt(l, '<', |a|) && PairAt(l, '>', |a| + 2 + |body|);
    FindPairUnique(l, '<', 0, |a|);
  }

  lemma UnclosedText(a: string, b: string)
    requires Lacks(a, '<') && Lacks(b, '>') && Quotable(a + "<<" + b)
    ensures var l := MessageText(Quoting(a + "<<" + b)); Lacks(l, '\n') && Opens(l)
  {
    QuotingText(a + "<<" + b);
    SplitQuoted(LEAD, a, b, "\"");
    UnclosedOpens(LEAD + a, b + "\"");
  }

  lemma ClosedText(a: string, body: string, b: string)
    requires Lacks(a, '<') && Quotable(a + "<<" + body + ">>" + b)
    ensures var l := MessageText(Quoting(a + "<<" + body + ">>" + b)); Lacks(l, '\n') && !Opens(l)
  {
    QuotingText(a + "<<" + body + ">>" + b);
    SplitClosed(LEAD, a, body, b, "\"");
    ClosedOpensNot(LEAD + a, body, b + "\"");
  }

  /** A quoted "<<" without ">>" reads back in one shot, but the listener takes its line for the start of a block. */
  lemma UnclosedPairStalls(a: string, b: string)
    requires Lacks(a, '<') && Lacks(b, '>') && Quotable(a + "<<" + b)
    ensures var p := Quoting(a + "<<" + b);
            && Sendable(p) && Deliverable(p)
            && FromRaw(p, Serialized(p)) == Some(p)
            && LaterBlocksFlush(p.content.args)
            && Heard(p) == []
  {
    QuotingSendable(a + "<<" + b);
    UnclosedText(a, b);
    OneLineArrivesIff(Quoting(a + "<<" + b));
  }

  /** Closed on the same line, it arrives. */
  lemma ClosedPairArrives(a: string, body: string, b: string)
    requires Lacks(a, '<') && Quotable(a + "<<" + body + ">>" + b)
    ensures var p := Quoting(a + "<<" + body + ">>" + b);
            Sendable(p) && Deliverable(p) && Heard(p) == [Delivered(p, Serialized(p))]
  {
    QuotingSendable(a + "<<" + body + ">>" + b);
    ClosedText(a, body, b);
    OneLineArrivesIff(Quoting(a + "<<" + body + ">>" + b));
  }

  /** The value `a <<b c` is never heard of. */
  lemma UnclosedExample()
    ensures var p := Quoting("a <<b c");
            Sendable(p) && Deliverable(p) && LaterBlocksFlush(p.content.args) && Heard(p) == []
  {
    var a, b := "a ", "b c";
    var v := a + "<<" + b;
    assert v == "a <<b c" && v[1] == ' ';
    UnclosedPairStalls(a, b);
  }

  /** The value `a <<b>> c` is delivered. */
  lemma ClosedExample()
    ensures var p := Quoting("a <<b>> c"); Heard(p) == [Delivered(p, Serialized(p))]
  {
    var a, body, b := "a ", "b", " c";
    var v := a + "<<" + body + ">>" + b;
    assert v == "a <<b>> c" && v[1] == ' ';
    ClosedPairArrives(a, body, b);
  }
}
