/** A stream of messages, cut anywhere, arrives as exactly those messages. */
module StreamRoundTrip {
  import opened Strings
  import opened Ordered
  import opened Parsing
  import opened ParsingLaws
  import opened Wire
  import opened Items
  import opened Rendering
  import opened PacketParse
  import opened RoundTrip
  import opened Framing
  import opened FramingLaws
  import opened FrameGrammar
  import opened Dispatch
  import opened MessageFraming
  import opened StreamMessages

  // ---- Which messages pass validation, and as what they arrive ----

  /** What a receiver's validation asks of a message of each kind. */
  predicate Deliverable(p: Packet) {
    var c := p.content;
    match p
    case RequestPacket(_) => '=' !in c.command && c.handle != ""
    case ResponsePacket(_) => c.command != "" && "error" !in c.flags
    case ErrorPacket(_, code, what) => c.command != "" && "ok" !in c.flags && code != "" && what != ""
    case WitnessPacket(_, body) => body != ""
    case PublishPacket(_, topic) => topic != "" && '=' !in topic && topic[0] != '~'
  }

  /** The arguments as they arrive: whole if no close line reopens a block, else each later block trimmed. */
  ghost function ArrivedArgs(p: Packet): Args {
    if KeepsNewlines(p) then p.content.args else TrimmedArgs(p.content.args, false)
  }

  /** The packet handed to the receiver's handlers. */
  ghost function Arrived(p: Packet): Packet {
    Received(WithArgs(p, ArrivedArgs(p)))
  }

  lemma TrimmedKeepsKey(args: Args, key: string)
    ensures HasKey(TrimmedArgs(args, false), key) <==> HasKey(args, key)
  {
    TrimmedKeys(args, false);
    var trimmed := TrimmedArgs(args, false);
    assert forall i :: 0 <= i < |args| ==> trimmed[i].0 == args[i].0;
  }

  lemma TrimmedApart(p: Packet)
    requires Sendable(p)
    ensures SortedKeys(TrimmedArgs(p.content.args, false))
    ensures OwnFieldsApart(p, TrimmedArgs(p.content.args, false))
  {
    TrimmedKeys(p.content.args, false);
    TrimmedKeepsKey(p.content.args, "code");
    TrimmedKeepsKey(p.content.args, "what");
    TrimmedKeepsKey(p.content.args, "body");
  }

  lemma ArrivedApart(p: Packet)
    requires Sendable(p)
    ensures SortedKeys(ArrivedArgs(p)) && OwnFieldsApart(p, ArrivedArgs(p)) && Sorted(p.content.flags)
  {
    SendableApart(p);
    TrimmedApart(p);
  }

  lemma TrimmedParses(p: Packet)
    requires Sendable(p)
    ensures SansProps(Parse(TrimmedText(p))) == ParsedAs(p, TrimmedArgs(p.content.args, false))
  {
    var args := p.content.args;
    assert forall i :: 0 <= i < |args| ==> SafeArg(args[i]);
    FramedArgsRead(args, false);
    PacketParses(p, FramedItems(ArgItems(args), false), TrimmedArgs(args, false));
  }

  lemma TextParses(p: Packet)
    requires Sendable(p)
    ensures SansProps(Parse(MessageText(p))) == ParsedAs(p, p.content.args)
  {
    var args := p.content.args;
    assert forall i :: 0 <= i < |args| ==> SafeArg(args[i]);
    ArgItemsRead(args);
    PacketParses(p, ArgItems(args), args);
  }

  /** The text of the frame parses to the message's fields with the arguments that arrive. */
  lemma ShownParses(p: Packet)
    requires Streamable(p)
    ensures SansProps(Parse(ShownLine(p))) == ParsedAs(p, ArrivedArgs(p))
  {
    if KeepsNewlines(p) {
      ShownWhole(p);
      TextParses(p);
    } else {
      ShownTrimmed(p);
      TrimmedParses(p);
    }
  }

  lemma NamedHasKey(name: string, value: string, others: seq<(string, string)>, key: string)
    ensures HasKey(Named(name, value) + others, key) <==> (value != "" && key == name) || HasKey(others, key)
  {
    var all, n := Named(name, value) + others, |Named(name, value)|;
    assert forall i :: 0 <= i < |others| ==> all[i + n] == others[i];
    assert forall i :: 0 <= i < n ==> all[i] == Named(name, value)[i];
    assert value != "" ==> all[0] == (name, value);
    assert forall i :: n <= i < |all| ==> all[i] == others[i - n];
  }

  lemma {:induction false} InWithout(flags: Flags, f: string, g: string)
    ensures g in Without(flags, f) <==> g in flags && g != f
  {
    WithoutElements(flags, f);
    assert g in Without(flags, f) <==> g in Elements(Without(flags, f));
    assert g in flags <==> g in Elements(flags);
  }

  lemma ErrorWellFormed(p: Packet, args: Args)
    requires p.ErrorPacket? && p.content.handle != ""
    requires !HasKey(args, "code") && !HasKey(args, "what")
    ensures WellFormed(ParsedAs(p, args)) <==> Deliverable(p)
  {
    var c, w := Named("code", p.code), Named("what", p.what);
    NamedHasKey("what", p.what, args, "code");
    NamedHasKey("what", p.what, args, "what");
    NamedHasKey("code", p.code, w + args, "code");
    NamedHasKey("code", p.code, w + args, "what");
    Assoc(c, w, args);
    ErrorFlagsIn(p.content.flags);
  }

  lemma ErrorFlagsIn(flags: seq<string>)
    ensures var all := ["error"] + (flags + ["node_error"]);
            "error" in all && ("ok" in all <==> "ok" in flags)
  {
    var all := ["error"] + (flags + ["node_error"]);
    assert all[0] == "error" && "ok" != "node_error";
  }

  lemma OkFlagsIn(flags: seq<string>)
    ensures var all := ["ok"] + Without(flags, "ok") + [];
            "ok" in all && ("error" in all <==> "error" in flags)
  {
    var all := ["ok"] + Without(flags, "ok") + [];
    assert all[0] == "ok";
    InWithout(flags, "ok", "error");
  }

  /** A sendable message is well formed to its receiver exactly when it is deliverable. */
  lemma WellFormedIffDeliverable(p: Packet, args: Args)
    requires Sendable(p) && OwnFieldsApart(p, args)
    ensures WellFormed(ParsedAs(p, args)) <==> Deliverable(p)
  {
    match p
    case RequestPacket(_) =>
    case ResponsePacket(c) => OkFlagsIn(c.flags);
    case ErrorPacket(_, _, _) => ErrorWellFormed(p, args);
    case WitnessPacket(_, body) => NamedHasKey("body", body, args, "body");
    case PublishPacket(_, _) =>
  }

  lemma SansPropsWellFormed(p: Parsed)
    ensures WellFormed(SansProps(p)) <==> WellFormed(p)
  {
  }

  lemma InterpretIsKind(p: Packet, q: Parsed, args: Args)
    requires Sendable(p) && Deliverable(p) && SansProps(q) == ParsedAs(p, args)
    ensures Interpret(q) == OfKind(p, q)
  {
    assert q.kind == SansProps(q).kind && q.flags == SansProps(q).flags;
    match p
    case ResponsePacket(c) => OkFlagsIn(c.flags);
    case ErrorPacket(c, _, _) => ErrorFlagsIn(c.flags);
    case _ =>
  }

  /** The frame of a message is delivered as the message, or rejected if validation has grounds to. */
  ghost predicate Arrives(outcome: Outcome, p: Packet) {
    if Deliverable(p) then outcome == Delivered(Arrived(p), Serialized(p))
    else outcome.Rejected? && outcome.line == ShownLine(p)
  }

  /** A text that parses to p's fields with the given arguments is delivered as p with them. */
  lemma ParsedIsDelivered(p: Packet, args: Args, line: string)
    requires Sendable(p) && SortedKeys(args) && OwnFieldsApart(p, args)
    requires SansProps(Parse(line)) == ParsedAs(p, args)
    ensures Validate(Parse(line)).Accepted? <==> Deliverable(p)
    ensures Deliverable(p) ==> Interpret(Parse(line)) == Received(WithArgs(p, args))
  {
    var q := Parse(line);
    SendableApart(p);
    ValidateIsGrammar(line);
    SansPropsWellFormed(q);
    WellFormedIffDeliverable(p, args);
    if Deliverable(p) {
      InterpretIsKind(p, q, args);
      PropsDoNotMatter(p, q);
      FieldsReadBack(p, args);
    }
  }

  lemma FrameArrives(p: Packet)
    requires Streamable(p)
    ensures ShownLine(p) != ""
    ensures Arrives(OutcomeOf(Frame(ShownLine(p), Serialized(p))), p)
  {
    LineNotEmpty(p);
    ShownParses(p);
    ArrivedApart(p);
    ParsedIsDelivered(p, ArrivedArgs(p), ShownLine(p));
  }

  lemma LineNotEmpty(p: Packet)
    requires Streamable(p)
    ensures ShownLine(p) != ""
  {
    FirstItemGood(p);
    if KeepsNewlines(p) {
      ShownWhole(p);
    } else {
      ShownTrimmed(p);
    }
  }

  // ---- The stream ----

  /** What the sender writes: each message's text and the newline every send adds. */
  function WireOf(ps: seq<Packet>): string {
    if ps == [] then "" else Serialized(ps[0]) + "\n" + WireOf(ps[1..])
  }

  /** One more send appends one more message to the wire. */
  lemma {:induction false} WireOfSends(ps: seq<Packet>, p: Packet)
    ensures WireOf(ps + [p]) == WireOf(ps) + (Serialized(p) + "\n")
  {
    if ps == [] {
      assert [] + [p] == [p] && [p][1..] == [];
      assert Serialized(p) + "\n" + "" == "" + (Serialized(p) + "\n");
    } else {
      assert (ps + [p])[1..] == ps[1..] + [p];
      WireOfSends(ps[1..], p);
      Assoc(Serialized(ps[0]) + "\n", WireOf(ps[1..]), Serialized(p) + "\n");
    }
  }

  lemma WireOfOne(p: Packet)
    ensures WireOf([p]) == Serialized(p) + "\n"
  {
    assert Serialized(p) + "\n" + "" == Serialized(p) + "\n";
  }

  function StreamFrames(ps: seq<Packet>): seq<Frame> {
    if ps == [] then [] else MessageFrames(ps[0]) + StreamFrames(ps[1..])
  }

  ghost predicate AllStreamable(ps: seq<Packet>) {
    forall i :: 0 <= i < |ps| ==> Streamable(ps[i])
  }

  /** A message whose lines are one frame. */
  ghost predicate Framed(p: Packet) {
    Sendable(p) && IsFrame(MessageLines(p))
  }

  ghost predicate AllFramed(ps: seq<Packet>) {
    forall i :: 0 <= i < |ps| ==> Framed(ps[i])
  }

  lemma {:induction false} ReceiveStream(st: Stream, ps: seq<Packet>)
    requires IsIdle(st) && AllFramed(ps)
    ensures var next := Receive(st, WireOf(ps));
            IsIdle(next) && next.assembly.frames == st.assembly.frames + StreamFrames(ps)
    decreases ps
  {
    if ps == [] {
      ReceiveText(st, "");
      assert st.assembly.frames + [] == st.assembly.frames;
    } else {
      var p, rest := ps[0], ps[1..];
      assert Framed(p);
      ReceiveMessage(st, p);
      ReceiveSplit(st, Serialized(p) + "\n", WireOf(rest));
      ReceiveStream(Receive(st, Serialized(p) + "\n"), rest);
      Assoc(st.assembly.frames, MessageFrames(p), StreamFrames(rest));
    }
  }

  /** The outcomes a handler hears of, in order. */
  ghost function Reports(frames: seq<Frame>): seq<Outcome> {
    if frames == [] then []
    else (if OutcomeOf(frames[0]).Blank? then [] else [OutcomeOf(frames[0])]) + Reports(frames[1..])
  }

  lemma ReportsCons(frame: Frame, frames: seq<Frame>)
    ensures Reports([frame] + frames)
         == (if OutcomeOf(frame).Blank? then [] else [OutcomeOf(frame)]) + Reports(frames)
  {
    assert ([frame] + frames)[1..] == frames;
  }

  lemma ReportsThenBlank(shown: Frame, frames: seq<Frame>)
    requires shown.line != ""
    ensures Reports([shown, Frame("", "\n")] + frames) == [OutcomeOf(shown)] + Reports(frames)
  {
    var blank := Frame("", "\n");
    ReportsCons(blank, frames);
    ReportsCons(shown, [blank] + frames);
    Assoc([shown], [blank], frames);
    assert [shown] + [blank] == [shown, blank] && [] + Reports(frames) == Reports(frames);
  }

  lemma ReportsOfMessage(p: Packet, frames: seq<Frame>)
    requires Streamable(p)
    ensures var outcome := OutcomeOf(Frame(ShownLine(p), Serialized(p)));
            Arrives(outcome, p) && Reports(MessageFrames(p) + frames) == [outcome] + Reports(frames)
  {
    FrameArrives(p);
    ReportsThenBlank(Frame(ShownLine(p), Serialized(p)), frames);
  }

  /** One report for each message, in order. */
  ghost predicate AllArrive(reports: seq<Outcome>, ps: seq<Packet>) {
    |reports| == |ps| && forall i :: 0 <= i < |ps| ==> Arrives(reports[i], ps[i])
  }

  lemma ArriveCons(outcome: Outcome, p: Packet, reports: seq<Outcome>, ps: seq<Packet>)
    requires Arrives(outcome, p) && AllArrive(reports, ps)
    ensures AllArrive([outcome] + reports, [p] + ps)
  {
  }

  lemma ReportsFirst(p: Packet, rest: seq<Packet>)
    requires Streamable(p)
    ensures var outcome := OutcomeOf(Frame(ShownLine(p), Serialized(p)));
            Arrives(outcome, p) && Reports(StreamFrames([p] + rest)) == [outcome] + Reports(StreamFrames(rest))
  {
    assert ([p] + rest)[1..] == rest;
    ReportsOfMessage(p, StreamFrames(rest));
  }

  lemma AllStreamableTail(ps: seq<Packet>)
    requires ps != [] && AllStreamable(ps)
    ensures Streamable(ps[0]) && AllStreamable(ps[1..])
  {
  }

  lemma {:induction false} ReportsOfStream(ps: seq<Packet>)
    requires AllStreamable(ps)
    ensures AllArrive(Reports(StreamFrames(ps)), ps)
  {
    if ps != [] {
      var p, rest := ps[0], ps[1..];
      AllStreamableTail(ps);
      ReportsFirst(p, rest);
      ReportsOfStream(rest);
      ArriveCons(OutcomeOf(Frame(ShownLine(p), Serialized(p))), p, Reports(StreamFrames(rest)), rest);
      assert ps == [p] + rest;
    }
  }

  /** Whatever the chunks, messages whose lines are each one frame complete those frames and leave nothing over. */
  lemma StreamCompletes(ps: seq<Packet>, chunks: seq<string>)
    requires AllFramed(ps) && Concat(chunks) == WireOf(ps)
    ensures var st := ReceiveAll(Stream(IDLE, ""), chunks);
            IsIdle(st) && st.assembly.frames == StreamFrames(ps)
  {
    ChunkingIndependent(Stream(IDLE, ""), chunks);
    ReceiveStream(Stream(IDLE, ""), ps);
    assert [] + StreamFrames(ps) == StreamFrames(ps);
  }

  lemma StreamableFramed(ps: seq<Packet>)
    requires AllStreamable(ps)
    ensures AllFramed(ps)
  {
    forall i | 0 <= i < |ps| ensures Framed(ps[i]) {
      assert Streamable(ps[i]);
    }
  }

  /** Whatever the chunks, the receiver hears of exactly the messages sent, in order, and nothing is left over. */
  lemma StreamArrives(ps: seq<Packet>, chunks: seq<string>)
    requires AllStreamable(ps) && Concat(chunks) == WireOf(ps)
    ensures var st := ReceiveAll(Stream(IDLE, ""), chunks);
            IsIdle(st) && AllArrive(Reports(st.assembly.frames), ps)
  {
    StreamableFramed(ps);
    StreamCompletes(ps, chunks);
    ReportsOfStream(ps);
  }

  // ---- When the stream delivers the message unchanged ----

  predicate Multi(v: string) {
    '\n' in v
  }

  predicate BlockBefore(args: Args, j: nat)
    requires j <= |args|
  {
    exists i :: 0 <= i < j && Multi(args[i].1)
  }

  lemma {:induction false} TrimmedAt(args: Args, seen: bool, j: nat)
    requires j < |args|
    ensures |TrimmedArgs(args, seen)| == |args|
    ensures TrimmedArgs(args, seen)[j]
         == (args[j].0, if Multi(args[j].1) && (seen || BlockBefore(args, j)) then TrimFront(args[j].1) else args[j].1)
    decreases args
  {
    TrimmedKeys(args, seen);
    if j > 0 {
      var rest, seen' := args[1..], seen || Multi(args[0].1);
      TrimmedAt(rest, seen', j - 1);
      assert forall i :: 0 < i < j ==> args[i] == rest[i - 1];
      assert forall i :: 0 <= i < j - 1 ==> rest[i] == args[i + 1];
      assert BlockBefore(args, j) <==> Multi(args[0].1) || BlockBefore(rest, j - 1);
    }
  }

  /** No block after another begins with a newline. */
  ghost predicate LaterBlocksFlush(args: Args) {
    forall i, j :: 0 <= i < j < |args| && Multi(args[i].1) && Multi(args[j].1) ==> args[j].1[0] != '\n'
  }

  lemma TrimmedUnchanged(args: Args)
    ensures TrimmedArgs(args, false) == args <==> LaterBlocksFlush(args)
  {
    var trimmed := TrimmedArgs(args, false);
    TrimmedKeys(args, false);
    forall j | 0 <= j < |args|
      ensures trimmed[j] == args[j] <==> (Multi(args[j].1) && BlockBefore(args, j) ==> args[j].1[0] != '\n')
    {
      TrimmedAt(args, false, j);
      assert Multi(args[j].1) ==> args[j].1 != "";
    }
    assert trimmed == args <==> forall j :: 0 <= j < |args| ==> trimmed[j] == args[j];
  }

  /** What a listener's handlers hear when p alone is sent. */
  ghost function Heard(p: Packet): seq<Outcome> {
    Reports(Receive(Stream(IDLE, ""), Serialized(p) + "\n").assembly.frames)
  }

  lemma {:induction false} ReportedFrom(frames: seq<Frame>, outcome: Outcome) returns (frame: Frame)
    requires outcome in Reports(frames)
    ensures frame in frames && OutcomeOf(frame) == outcome
  {
    if OutcomeOf(frames[0]) == outcome {
      frame := frames[0];
    } else {
      frame := ReportedFrom(frames[1..], outcome);
    }
  }

  lemma DeliveredRaw(frame: Frame, q: Packet, raw: string)
    requires OutcomeOf(frame) == Delivered(q, raw)
    ensures frame.raw == raw
  {
  }

  lemma TextNeedsFrame(s: string, outcome: Outcome, q: Packet)
    requires outcome == Delivered(q, s + "\n")
    requires outcome in Reports(Receive(Stream(IDLE, ""), s + "\n" + "\n").assembly.frames)
    ensures IsFrame(Lines(s + "\n"))
  {
    var frame := ReportedFrom(Receive(Stream(IDLE, ""), s + "\n" + "\n").assembly.frames, outcome);
    DeliveredRaw(frame, q, s + "\n");
    NoFrameOfText(s, frame);
  }

  /** Only a message whose lines are one frame is delivered from its own bytes. */
  lemma HeardNeedsFrame(p: Packet, q: Packet)
    requires Sendable(p) && Delivered(q, Serialized(p)) in Heard(p)
    ensures IsFrame(MessageLines(p))
  {
    MessageIsText(p);
    TextNeedsFrame(MessageText(p), Delivered(q, Serialized(p)), q);
  }

  lemma HeardArrives(p: Packet)
    requires Streamable(p) && Deliverable(p)
    ensures Heard(p) == [Delivered(Arrived(p), Serialized(p))]
  {
    ReceiveMessage(Stream(IDLE, ""), p);
    ReportsOfOne(p);
    NothingAdded(MessageFrames(p));
  }

  lemma NothingAdded<T>(s: seq<T>)
    ensures [] + s == s && s + [] == s
  {
  }

  lemma ReportsOfOne(p: Packet)
    requires Streamable(p) && Deliverable(p)
    ensures Reports(MessageFrames(p)) == [Delivered(Arrived(p), Serialized(p))]
  {
    ReportsOfMessage(p, []);
    NothingAdded(MessageFrames(p));
    NothingAdded([Delivered(Arrived(p), Serialized(p))]);
  }

  lemma ArrivedIsReceived(p: Packet)
    ensures Arrived(p) == Received(p) <==> KeepsNewlines(p) || LaterBlocksFlush(p.content.args)
  {
    TrimmedUnchanged(p.content.args);
    assert WithArgs(p, p.content.args) == p;
  }

  /** An orderly message arrives with every later block trimmed. */
  lemma OrderlyArrived(p: Packet)
    requires Sendable(p) && Orderly(p)
    ensures Arrived(p) == Received(WithArgs(p, TrimmedArgs(p.content.args, false)))
  {
    if KeepsNewlines(p) {
      ShownWhole(p);
      ShownTrimmed(p);
      TextParses(p);
      TrimmedParses(p);
      SameParsedArgs(p, p.content.args, TrimmedArgs(p.content.args, false));
    }
  }

  lemma SameParsedArgs(p: Packet, args: Args, args': Args)
    requires ParsedAs(p, args) == ParsedAs(p, args')
    ensures args == args'
  {
    var before := AfterNext(p).args;
    assert (before + args)[|before|..] == args && (before + args')[|before|..] == args';
  }

  /** Among messages whose frames are orderly or keep every newline: the listener delivers what one-shot reading would
      give if and only if the lines are one frame and either every newline is kept, or no block after another begins
      with one. */
  lemma OrderlyKeepsIff(p: Packet)
    requires Sendable(p) && Deliverable(p)
    requires IsFrame(MessageLines(p)) ==> KeepsNewlines(p) || Orderly(p)
    ensures Delivered(Received(p), Serialized(p)) in Heard(p)
       <==> IsFrame(MessageLines(p)) && (KeepsNewlines(p) || LaterBlocksFlush(p.content.args))
  {
    if IsFrame(MessageLines(p)) {
      HeardArrives(p);
      ArrivedIsReceived(p);
    } else if Delivered(Received(p), Serialized(p)) in Heard(p) {
      HeardNeedsFrame(p, Received(p));
    }
  }

  // ---- Messages of one line ----

  lemma OneLineKeeps(p: Packet)
    requires Sendable(p) && Lacks(MessageText(p), '\n')
    ensures MessageLines(p) == [MessageText(p)] && KeepsNewlines(p)
    ensures IsFrame(MessageLines(p)) <==> !Opens(MessageText(p))
  {
    MessageIsText(p);
    OneLineFrame(MessageText(p));
    assert [MessageText(p)][1..] == [];
  }

  /** A message of one line arrives unless the line opens a block it does not close; then nothing is heard of it. */
  lemma OneLineArrivesIff(p: Packet)
    requires Sendable(p) && Deliverable(p) && Lacks(MessageText(p), '\n')
    ensures Heard(p) == if Opens(MessageText(p)) then [] else [Delivered(Received(p), Serialized(p))]
  {
    OneLineKeeps(p);
    if Opens(MessageText(p)) {
      OpenLineStalls(p);
    } else {
      HeardArrives(p);
      ArrivedIsReceived(p);
    }
  }

  lemma OpenLineStalls(p: Packet)
    requires Sendable(p) && MessageLines(p) == [MessageText(p)] && Opens(MessageText(p))
    ensures Receive(Stream(IDLE, ""), Serialized(p) + "\n").assembly.frames == []
  {
    var l := MessageText(p);
    MessageIsText(p);
    ReceiveLines(Stream(IDLE, ""), l);
    assert TakeLines(IDLE, [l]) == TakeLine(IDLE, l) && StripCr(l) == l;
  }
}
