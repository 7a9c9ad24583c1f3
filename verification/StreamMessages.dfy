/** One message on a stream: its lines, the frame they make, and what that frame shows. */
module StreamMessages {
  import opened Strings
  import opened Ordered
  import opened BareText
  import opened Parsing
  import opened Wire
  import opened Items
  import opened Forms
  import opened Rendering
  import opened RoundTrip
  import opened Framing
  import opened FramingLaws
  import opened FrameGrammar
  import opened Dispatch
  import opened MessageFraming

  // ---- A message's lines ----

  function MessageLines(p: Packet): seq<string> {
    Lines(Serialized(p))
  }

  /** The text of a message, without its newline. */
  function MessageText(p: Packet): string {
    Line(PacketItems(p, ArgItems(p.content.args)))
  }

  lemma TextLines(s: string)
    ensures var lines := Lines(s + "\n");
            lines != [] && OneLiners(lines) && Unlines(lines) == s + "\n" && Lines(s + "\n" + "\n") == lines + [""]
  {
    var text := s + "\n";
    LinesConserve(text);
    LinesSplit(s, "\n");
    LinesConserve(s);
    LinesCons(Rest(s), "");
    assert Rest(s) + "\n" + "" == Rest(s) + "\n";
    LinesSplit(text, "\n");
    LinesCons("", "");
    assert Rest(text) == "" && "" + "\n" == "\n" && "\n" + "" == "\n" && [""] + [] == [""];
    assert Unlines(Lines(text)) + "" == Unlines(Lines(text));
  }

  lemma MessageIsText(p: Packet)
    requires Sendable(p)
    ensures Serialized(p) == MessageText(p) + "\n" && CrClean(MessageText(p)) && MessageLines(p) != []
  {
    SendableApart(p);
    SerializedIsLine(p);
    MessageCrClean(MessageText(p));
    TextLines(MessageText(p));
  }

  predicate IsIdle(st: Stream) {
    st.buf == "" && !st.assembly.multiline && st.assembly.raw == ""
  }

  lemma ReceiveLines(st: Stream, s: string)
    requires st.buf == ""
    ensures Receive(st, s + "\n" + "\n") == Stream(TakeLine(TakeLines(st.assembly, Lines(s + "\n")), ""), "")
  {
    var lines, wire := Lines(s + "\n"), s + "\n" + "\n";
    TextLines(s);
    assert st.buf + wire == wire;
    RestOfEnded(s + "\n");
    TakeLinesSplit(st.assembly, lines, [""]);
    var a := TakeLines(st.assembly, lines);
    assert TakeLines(a, [""]) == TakeLine(a, "");
  }

  lemma TakeBlank(a: Assembly)
    requires !a.multiline && a.raw == ""
    ensures TakeLine(a, "") == Complete(a, "", "\n")
  {
    assert "" + ("" + "\n") == "\n";
  }

  lemma ReceiveFrame(st: Stream, s: string)
    requires IsIdle(st) && IsFrame(Lines(s + "\n"))
    ensures var shown, next := Frame(Join(Lines(s + "\n")), s + "\n"), Receive(st, s + "\n" + "\n");
            IsIdle(next) && next.assembly.frames == st.assembly.frames + [shown, Frame("", "\n")]
  {
    var lines := Lines(s + "\n");
    ReceiveLines(st, s);
    TextLines(s);
    OneFrame(st.assembly, lines);
    TakeBlank(TakeLines(st.assembly, lines));
    BothFrames(st.assembly.frames, Frame(Join(lines), s + "\n"), Frame("", "\n"));
  }

  lemma BothFrames(frames: seq<Frame>, a: Frame, b: Frame)
    ensures frames + [a] + [b] == frames + [a, b]
  {
  }

  lemma RestOfEnded(s: string)
    ensures Rest(s + "\n") == ""
  {
    LinesSplit(s, "\n");
    LinesConserve(s);
    LinesCons(Rest(s), "");
    assert Rest(s) + "\n" + "" == Rest(s) + "\n";
  }

  /** If the lines of a text are not one frame, no frame is completed from exactly its bytes. */
  lemma NoFrameOfText(s: string, frame: Frame)
    requires frame in Receive(Stream(IDLE, ""), s + "\n" + "\n").assembly.frames && frame.raw == s + "\n"
    ensures IsFrame(Lines(s + "\n"))
  {
    var lines, wire := Lines(s + "\n"), s + "\n" + "\n";
    TextLines(s);
    assert "" + wire == wire;
    var groups, tail := LoopOnLines(lines + [""]);
    var group := FrameGroup(groups, frame);
    FlatOneLiners(groups, tail);
    SameLines(group, lines);
  }

  lemma SameLines(a: seq<string>, b: seq<string>)
    requires OneLiners(a) && OneLiners(b) && Unlines(a) == Unlines(b)
    ensures a == b
  {
    LinesOfUnlines(a, "");
    LinesOfUnlines(b, "");
  }

  // ---- What the frame shows ----

  /** The arguments as they arrive: a block after another block loses one leading newline. */
  function TrimmedArgs(args: Args, seen: bool): Args {
    if args == [] then []
    else
      var (k, v) := args[0];
      if '\n' in v then [(k, if seen then TrimFront(v) else v)] + TrimmedArgs(args[1..], true)
      else [args[0]] + TrimmedArgs(args[1..], seen)
  }

  lemma {:induction false} TrimmedKeys(args: Args, seen: bool)
    ensures |TrimmedArgs(args, seen)| == |args|
    ensures forall i :: 0 <= i < |args| ==> TrimmedArgs(args, seen)[i].0 == args[i].0
    decreases args
  {
    if args != [] {
      TrimmedKeys(args[1..], true);
      TrimmedKeys(args[1..], seen);
    }
  }

  lemma {:induction false} FramedFlags(items: seq<Item>, flags: seq<string>, seen: bool)
    ensures FramedItems(items + FlagItems(flags), seen) == FramedItems(items, seen) + FlagItems(flags)
    decreases |items| + |flags|
  {
    if items != [] {
      assert (items + FlagItems(flags))[1..] == items[1..] + FlagItems(flags);
      FramedFlags(items[1..], flags, true);
      FramedFlags(items[1..], flags, seen);
      var head := FramedItems(items, seen)[..1];
      Assoc(head, FramedItems(items[1..], true), FlagItems(flags));
      Assoc(head, FramedItems(items[1..], seen), FlagItems(flags));
    } else {
      assert [] + FlagItems(flags) == FlagItems(flags);
      if flags != [] {
        assert FlagItems(flags)[1..] == FlagItems(flags[1..]);
        FramedFlags([], flags[1..], seen);
        assert [] + FlagItems(flags[1..]) == FlagItems(flags[1..]);
      }
    }
  }

  lemma ReopenedReads(k: string, v: string)
    requires Bare(k) && Lacks(k, '=') && '\n' in v && Representable(v)
    ensures ReopenedItem(k, v).Good() && ReadsAs(ReopenedItem(k, v).Tok(), (k, TrimFront(v)))
  {
    BlockVerbatimIff("", v);
    NoLead(v);
    VerbatimArgReads(k, "<<" + v + "\n>>");
    StripReopened(v);
  }

  lemma NoLead(v: string)
    ensures "<<" + "" + v + "\n>>" == "<<" + v + "\n>>"
  {
  }

  lemma StripReopened(v: string)
    requires v != ""
    ensures StripBlock("<<" + v + "\n>>") == TrimFront(v)
  {
    var form := "<<" + v + "\n>>";
    assert form[2..|form| - 2] == v + "\n";
    assert (v + "\n")[1..] == v[1..] + "\n";
    assert (v + "\n")[..|v|] == v && (v[1..] + "\n")[..|v| - 1] == v[1..];
  }

  lemma {:induction false} FramedArgsRead(args: Args, seen: bool)
    requires forall i :: 0 <= i < |args| ==> SafeArg(args[i])
    ensures AllGood(FramedItems(ArgItems(args), seen))
    ensures AllReadAs(Toks(FramedItems(ArgItems(args), seen)), TrimmedArgs(args, seen))
    decreases args
  {
    if args != [] {
      var (k, v) := args[0];
      var multi := '\n' in v;
      var rest := FramedItems(ArgItems(args[1..]), seen || multi);
      var it := if multi && seen then ReopenedItem(k, v) else ArgItem(k, v);
      var arg := (k, if multi && seen then TrimFront(v) else v);
      assert SafeArg(args[0]);
      ArgItemGood(k, v);
      if multi {
        ReopenedReads(k, v);
      }
      FramedArgsRead(args[1..], seen || multi);
      assert ArgItems(args)[1..] == ArgItems(args[1..]);
      assert FramedItems(ArgItems(args), seen) == [it] + rest;
      GoodCons(it, rest);
      ReadCons(it.Tok(), arg, Toks(rest), TrimmedArgs(args[1..], seen || multi));
      ConsText(it, rest);
    }
  }

  /** The text the listener hands to the parser for p's lines. */
  function ShownLine(p: Packet): string {
    if MessageLines(p) == [] then "" else Join(MessageLines(p))
  }

  /** p's text with the opening newline of every block but the first left out. */
  function TrimmedText(p: Packet): string {
    Line(PacketItems(p, FramedItems(ArgItems(p.content.args), false)))
  }

  /** What is written before the first argument. */
  function Head(p: Packet): string {
    FirstItem(p).Text() + NextText(p)
  }

  /** An argument that only its block breaks into lines, none of which begins with ">>". */
  ghost predicate OrderlyArg(arg: (string, string)) {
    Lacks(arg.0, '\n') && ('\n' in arg.1 ==> CloseFree("\n" + arg.1))
  }

  /** A message in which only the blocks' own ">>" begin a line, and only blocks break lines once one has come. */
  ghost predicate Orderly(p: Packet) {
    && CloseFree(Head(p))
    && (forall i :: 0 <= i < |p.content.args| ==> OrderlyArg(p.content.args[i]))
    && (forall i :: 0 <= i < |p.content.flags| ==> Lacks(p.content.flags[i], '\n'))
  }

  lemma EncodeOneLine(k: string, v: string)
    requires Lacks(k, '\n') && '\n' !in v
    ensures Lacks(k + "=" + Encode(v), '\n')
  {
  }

  lemma {:induction false} ArgItemsOrderly(args: Args)
    requires forall i :: 0 <= i < |args| ==> OrderlyArg(args[i])
    ensures AllOrderly(ArgItems(args))
  {
    if args != [] {
      assert OrderlyArg(args[0]);
      if '\n' !in args[0].1 {
        EncodeOneLine(args[0].0, args[0].1);
      }
      ArgItemsOrderly(args[1..]);
    }
  }

  lemma {:induction false} FlagItemsOrderly(flags: seq<string>)
    requires forall i :: 0 <= i < |flags| ==> Lacks(flags[i], '\n')
    ensures AllOrderly(FlagItems(flags))
  {
    if flags != [] {
      FlagItemsOrderly(flags[1..]);
    }
  }

  lemma TextFromHead(p: Packet, argItems: seq<Item>)
    ensures Line(PacketItems(p, argItems)) == Head(p) + Tail(argItems + FlagItems(TailFlags(p)))
  {
    PacketItemsLine(p, argItems);
    FlagItemsText(TailFlags(p));
    TailAppend(argItems, FlagItems(TailFlags(p)));
    Assoc(Head(p), Tail(argItems), FlagsText(TailFlags(p)));
  }

  lemma BeginKeeps(head: string)
    requires CloseFree(head)
    ensures Along(BEGIN, head).shown == head && Under(Along(BEGIN, head), false)
  {
    assert "" + "" + head == head;
    AlongKeeps(BEGIN, head);
    assert "" + head == head;
  }

  lemma ItemsOrderly(p: Packet)
    requires Orderly(p)
    ensures AllOrderly(ArgItems(p.content.args) + FlagItems(TailFlags(p)))
  {
    ArgItemsOrderly(p.content.args);
    TailFlagsOneLine(p);
    FlagItemsOrderly(TailFlags(p));
    OrderlyAppend(ArgItems(p.content.args), FlagItems(TailFlags(p)));
  }

  lemma TailFlagsOneLine(p: Packet)
    requires forall i :: 0 <= i < |p.content.flags| ==> Lacks(p.content.flags[i], '\n')
    ensures forall i :: 0 <= i < |TailFlags(p)| ==> Lacks(TailFlags(p)[i], '\n')
  {
  }

  lemma OrderlyAppend(a: seq<Item>, b: seq<Item>)
    requires AllOrderly(a) && AllOrderly(b)
    ensures AllOrderly(a + b)
  {
  }

  lemma WalkMessage(p: Packet)
    requires Orderly(p)
    ensures Along(BEGIN, MessageText(p)).shown == TrimmedText(p)
  {
    var head, args := Head(p), ArgItems(p.content.args);
    var items := args + FlagItems(TailFlags(p));
    BeginKeeps(head);
    ItemsOrderly(p);
    AlongItems(Along(BEGIN, head), items, false);
    AlongSplit(BEGIN, head, Tail(items));
    TextFromHead(p, args);
    FramedFlags(args, TailFlags(p), false);
    TextFromHead(p, FramedItems(args, false));
  }

  /** The frame of an orderly message shows every later block without its opening newline, and all else as sent. */
  lemma ShownTrimmed(p: Packet)
    requires Sendable(p) && Orderly(p)
    ensures ShownLine(p) == TrimmedText(p)
  {
    MessageIsText(p);
    WalkFrames(MessageText(p));
    WalkMessage(p);
  }

  /** No close line of the message reopens a block. */
  ghost predicate KeepsNewlines(p: Packet) {
    MessageLines(p) != [] && NoneReopens(MessageLines(p)[1..])
  }

  /** If no close line reopens a block, the frame shows the message as it was sent. */
  lemma ShownWhole(p: Packet)
    requires Sendable(p) && KeepsNewlines(p)
    ensures ShownLine(p) == MessageText(p)
  {
    var lines := MessageLines(p);
    MessageIsText(p);
    TextLines(MessageText(p));
    NormaliseLine(MessageText(p));
    NormaliseFrame(lines);
    if |lines| > 1 {
      assert lines[1..][|lines| - 2] == lines[|lines| - 1];
      JoinRestLosesNewlines(lines[1..]);
    }
  }

  // ---- The messages that arrive ----

  /** A message whose lines make one frame that shows it whole, or orderly enough to say what is lost. */
  ghost predicate Streamable(p: Packet) {
    Sendable(p) && IsFrame(MessageLines(p)) && (KeepsNewlines(p) || Orderly(p))
  }

  function MessageFrames(p: Packet): seq<Frame> {
    [Frame(ShownLine(p), Serialized(p)), Frame("", "\n")]
  }

  /** One message with its terminating newline becomes its frame and a blank one. */
  lemma ReceiveMessage(st: Stream, p: Packet)
    requires Sendable(p) && IsFrame(MessageLines(p)) && IsIdle(st)
    ensures var next := Receive(st, Serialized(p) + "\n");
            IsIdle(next) && next.assembly.frames == st.assembly.frames + MessageFrames(p)
  {
    MessageIsText(p);
    ReceiveFrame(st, MessageText(p));
  }

  // ---- Messages known to arrive by their fields ----

  ghost predicate StreamArg(arg: (string, string)) {
    LineSafe(arg.0) && if '\n' in arg.1 then !HasPair(arg.1, '>') else !HasPair(arg.1, '<')
  }

  /** Outside its multi-line values the message neither breaks lines nor shows "<<". */
  ghost predicate WireSafe(p: Packet) {
    && LineSafe(Head(p))
    && (forall i :: 0 <= i < |p.content.args| ==> StreamArg(p.content.args[i]))
    && (forall i :: 0 <= i < |p.content.flags| ==> LineSafe(p.content.flags[i]))
  }

  lemma EncodeLineSafe(v: string)
    requires LineSafe(v)
    ensures LineSafe(Encode(v))
  {
    NoCharNoPair("'", '<');
    NoCharNoPair("\"", '<');
    NoPairConcat("'", v, '<');
    NoPairConcat("'" + v, "'", '<');
    NoPairConcat("\"", v, '<');
    NoPairConcat("\"" + v, "\"", '<');
  }

  lemma ArgItemFramable(k: string, v: string)
    requires StreamArg((k, v))
    ensures Framable(ArgItem(k, v))
  {
    if '\n' !in v {
      EncodeLineSafe(v);
      NoCharNoPair("=", '<');
      NoPairConcat(k, "=", '<');
      NoPairConcat(k + "=", Encode(v), '<');
    }
  }

  lemma {:induction false} ArgItemsFramable(args: Args)
    requires forall i :: 0 <= i < |args| ==> StreamArg(args[i])
    ensures AllFramable(ArgItems(args))
  {
    if args != [] {
      assert StreamArg(args[0]);
      ArgItemFramable(args[0].0, args[0].1);
      ArgItemsFramable(args[1..]);
    }
  }

  lemma {:induction false} FlagItemsFramable(flags: seq<string>)
    requires forall i :: 0 <= i < |flags| ==> LineSafe(flags[i])
    ensures AllFramable(FlagItems(flags))
  {
    if flags != [] {
      FlagItemsFramable(flags[1..]);
    }
  }

  lemma TailFlagsLineSafe(p: Packet)
    requires forall i :: 0 <= i < |p.content.flags| ==> LineSafe(p.content.flags[i])
    ensures forall i :: 0 <= i < |TailFlags(p)| ==> LineSafe(TailFlags(p)[i])
  {
    NoCharNoPair("node_error", '<');
  }

  lemma StreamArgOrderly(arg: (string, string))
    requires StreamArg(arg)
    ensures OrderlyArg(arg)
  {
    if '\n' in arg.1 {
      FramableOrderly(BlockArg(arg.0, arg.1));
    }
  }

  lemma FramableAppend(a: seq<Item>, b: seq<Item>)
    requires AllFramable(a) && AllFramable(b)
    ensures AllFramable(a + b)
  {
  }

  lemma WireSafeFrame(p: Packet)
    requires Sendable(p) && WireSafe(p)
    ensures IsFrame(MessageLines(p))
  {
    var args, flags := ArgItems(p.content.args), FlagItems(TailFlags(p));
    MessageIsText(p);
    TextFromHead(p, args);
    ArgItemsFramable(p.content.args);
    TailFlagsLineSafe(p);
    FlagItemsFramable(TailFlags(p));
    FramableAppend(args, flags);
    FramableIsFrame(Head(p), args + flags);
  }

  lemma WireSafeOrderly(p: Packet)
    requires WireSafe(p)
    ensures Orderly(p)
  {
    forall i | 0 <= i < |p.content.args| ensures OrderlyArg(p.content.args[i]) {
      assert StreamArg(p.content.args[i]);
      StreamArgOrderly(p.content.args[i]);
    }
  }

  /** Every such message is streamable. */
  lemma WireSafeStreamable(p: Packet)
    requires Sendable(p) && WireSafe(p)
    ensures Streamable(p) && Orderly(p)
  {
    WireSafeFrame(p);
    WireSafeOrderly(p);
  }
}
