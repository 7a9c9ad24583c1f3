/** A message as items and tokens, and what its receiver must hold if it arrives. */
module MessageTokens {
  import opened Strings
  import opened Ordered
  import opened Scanner
  import opened ScannerLaws
  import opened Parsing
  import opened BareText
  import opened ParsingLaws
  import opened Wire
  import opened Items
  import opened Forms
  import opened Rendering
  import opened PacketParse
  import opened RoundTrip
  import opened Canonical
  import opened Framing
  import opened Dispatch
  import opened MessageFraming
  import opened StreamMessages
  import opened StreamRoundTrip
  import opened LostNewlines
  import opened ThinScan
  import opened TokenReads
  import opened IntactItems

  function MessageItems(p: Packet): seq<Item> {
    PacketItems(p, ArgItems(p.content.args))
  }

  /** Every item is shown as written, but for newlines at the ends of blocks whose values have none there. */
  ghost predicate IntactMessage(p: Packet) {
    AllIntact(MessageItems(p), ShownAll(MessageItems(p)))
  }

  // ---- Every item of a message is fit ----

  lemma NamedFit(name: string, value: string, it: Item)
    requires Lacks(name, '=') && !Wrapped(value) && it.Good() && it.Flat?
    requires it.token == Token(name + "=" + value, Arg)
    ensures Fit(it)
  {
    var text := name + "=" + value;
    assert text[|name|] == '=' && text[|name| + 1..] == value;
    IndexOfUnique(text, '=', |name|);
  }

  lemma ArgItemFit(k: string, v: string)
    requires SafeArg((k, v))
    ensures Fit(ArgItem(k, v))
  {
    ArgItemGood(k, v);
    if '\n' !in v {
      NamedFit(k, v, ArgItem(k, v));
    }
  }

  lemma {:induction false} ArgItemsFit(args: Args)
    requires forall i :: 0 <= i < |args| ==> SafeArg(args[i])
    ensures AllFit(ArgItems(args)) && NoHandle(Toks(ArgItems(args)))
  {
    if args != [] {
      assert SafeArg(args[0]);
      ArgItemFit(args[0].0, args[0].1);
      ArgItemsFit(args[1..]);
      FitCons(ArgItem(args[0].0, args[0].1), ArgItems(args[1..]));
    }
  }

  lemma FitCons(it: Item, items: seq<Item>)
    requires Fit(it) && it.Tok().kind != Handle && AllFit(items) && NoHandle(Toks(items))
    ensures AllFit([it] + items) && NoHandle(Toks([it] + items))
  {
    ConsText(it, items);
  }

  lemma FitAppend(a: seq<Item>, b: seq<Item>)
    requires AllFit(a) && AllFit(b)
    ensures AllFit(a + b)
    ensures NoHandle(Toks(a)) && NoHandle(Toks(b)) ==> NoHandle(Toks(a + b))
  {
    ToksAppend(a, b);
  }

  lemma {:induction false} FlagItemsFit(flags: seq<string>)
    requires forall i :: 0 <= i < |flags| ==> PlainWord(flags[i])
    ensures AllFit(FlagItems(flags)) && NoHandle(Toks(FlagItems(flags)))
  {
    if flags != [] {
      WordItem(flags[0]);
      FlagItemsFit(flags[1..]);
      FitCons(FlagItem(flags[0]), FlagItems(flags[1..]));
    }
  }

  lemma OptFit(name: string, it: Item)
    requires Fit(it) && it.Tok().kind != Handle
    ensures AllFit(OptItem(name, it)) && NoHandle(Toks(OptItem(name, it)))
  {
    FitCons(it, []);
    assert [it] + [] == [it];
  }

  lemma BodyFit(body: string)
    requires SafeQuoted(body)
    ensures AllFit(OptItem(body, QuotedItem("body", body))) && NoHandle(Toks(OptItem(body, QuotedItem("body", body))))
  {
    SimpleWord("body");
    QuotedItemGood("body", body);
    NamedFit("body", body, QuotedItem("body", body));
    OptFit(body, QuotedItem("body", body));
  }

  lemma CodeWhatFit(code: string, what: string)
    requires SafeBare(code) && SafeQuoted(what)
    ensures var items := OptItem(code, BareItem("code", code)) + OptItem(what, QuotedItem("what", what));
            AllFit(items) && NoHandle(Toks(items))
  {
    SimpleWord("code");
    SimpleWord("what");
    BareItemGood("code", code);
    QuotedItemGood("what", what);
    NamedFit("code", code, BareItem("code", code));
    NamedFit("what", what, QuotedItem("what", what));
    OptFit(code, BareItem("code", code));
    OptFit(what, QuotedItem("what", what));
    FitAppend(OptItem(code, BareItem("code", code)), OptItem(what, QuotedItem("what", what)));
  }

  lemma ErrorNextFit(code: string, what: string)
    requires SafeBare(code) && SafeQuoted(what)
    ensures var items := [FlagItem("error")]
                         + (OptItem(code, BareItem("code", code)) + OptItem(what, QuotedItem("what", what)));
            AllFit(items) && NoHandle(Toks(items))
  {
    SimpleWord("error");
    WordItem("error");
    CodeWhatFit(code, what);
    FitCons(FlagItem("error"), OptItem(code, BareItem("code", code)) + OptItem(what, QuotedItem("what", what)));
  }

  lemma ResponseNextFit(flags: Flags)
    requires SafeFlags(flags)
    ensures var items := [FlagItem("ok")] + FlagItems(Without(flags, "ok"));
            AllFit(items) && NoHandle(Toks(items))
  {
    SimpleWord("ok");
    WordItem("ok");
    WithoutSafe(flags, "ok");
    FlagItemsFit(Without(flags, "ok"));
    FitCons(FlagItem("ok"), FlagItems(Without(flags, "ok")));
  }

  /** The number of tokens that go to fields by their place. */
  function Placed(p: Packet): nat {
    if p.RequestPacket? || p.PublishPacket? then 2 else 1
  }

  lemma PlainPlaced(text: string)
    requires PlacedItem(text).Good() && Lacks(text, '=')
    ensures Fit(PlacedItem(text))
  {
    RunKeeps(text);
  }

  lemma RunKeeps(text: string)
    requires PlacedItem(text).Good()
    ensures PlacedItem(text).token.kind == Arg ==> !Lacks(text, '=')
  {
  }

  lemma HandleFit(handle: string)
    requires Atom(handle)
    ensures AllFit([HandleWord(handle)]) && Toks([HandleWord(handle)])[1..] == []
  {
    HandleItem(handle);
    OneToken(HandleWord(handle));
  }

  lemma TopicFit(topic: string)
    requires Bare(topic) && topic != "" && Lacks(topic, '=')
    ensures AllFit([PlacedItem(topic)]) && Toks([PlacedItem(topic)])[1..] == []
  {
    PlacedItemGood(topic);
    PlainPlaced(topic);
    OneToken(PlacedItem(topic));
  }

  /** What comes after the first token, up to the arguments. */
  lemma NextFit(p: Packet)
    requires Sendable(p) && Deliverable(p)
    ensures AllFit(NextItems(p)) && |NextItems(p)| >= Placed(p) - 1
    ensures NoHandle(Toks(NextItems(p))[Placed(p) - 1..])
  {
    NextPlaced(p);
    ToksLength(NextItems(p));
    match p
    case RequestPacket(c) => HandleFit(c.handle);
    case ResponsePacket(c) => ResponseNextFit(c.flags);
    case ErrorPacket(_, code, what) => ErrorNextFit(code, what);
    case WitnessPacket(_, body) => BodyFit(body);
    case PublishPacket(_, topic) => TopicFit(topic);
  }

  lemma OneToken(it: Item)
    ensures Toks([it]) == [it.Tok()] && [it.Tok()][1..] == []
  {
    assert [it][1..] == [];
  }

  lemma FirstFit(p: Packet)
    requires Sendable(p) && Deliverable(p)
    ensures Fit(FirstItem(p))
  {
    FirstItemGood(p);
    if p.RequestPacket? {
      PlainPlaced(p.content.command);
    }
  }

  /** The items after the first, and their tokens after those that have their place. */
  function Later(p: Packet): seq<Item> {
    NextItems(p) + (ArgItems(p.content.args) + FlagItems(TailFlags(p)))
  }

  lemma DropPlaced(a: seq<Token>, b: seq<Token>, n: nat)
    requires n <= |a| && NoHandle(a[n..]) && NoHandle(b)
    ensures NoHandle((a + b)[n..])
  {
    assert (a + b)[n..] == a[n..] + b;
  }

  lemma LaterFit(p: Packet)
    requires Sendable(p) && Deliverable(p)
    ensures AllFit(Later(p)) && |Later(p)| >= Placed(p) - 1
    ensures |Toks(Later(p))| == |Later(p)| && NoHandle(Toks(Later(p))[Placed(p) - 1..])
  {
    var args, flags := ArgItems(p.content.args), FlagItems(TailFlags(p));
    NextFit(p);
    ArgItemsFit(p.content.args);
    TailFlagsSafe(p);
    FlagItemsFit(TailFlags(p));
    FitAppend(args, flags);
    FitAppend(NextItems(p), args + flags);
    ToksAppend(NextItems(p), args + flags);
    ToksLength(Later(p));
    ToksLength(NextItems(p));
    DropPlaced(Toks(NextItems(p)), Toks(args + flags), Placed(p) - 1);
  }

  lemma MessageFit(p: Packet)
    requires Sendable(p) && Deliverable(p)
    ensures AllFit(MessageItems(p)) && AllGood(MessageItems(p))
    ensures Toks(MessageItems(p)) == [FirstItem(p).Tok()] + Toks(Later(p))
  {
    FirstFit(p);
    LaterFit(p);
    FitFirst(FirstItem(p), Later(p));
    FitGood(MessageItems(p));
    ConsText(FirstItem(p), Later(p));
  }

  lemma FitFirst(it: Item, items: seq<Item>)
    requires Fit(it) && AllFit(items)
    ensures AllFit([it] + items)
  {
  }

  // ---- Tokens by place ----

  ghost function HeadOf(toks: seq<Token>, n: nat): Parsed
    requires AllWellTyped(toks) && 1 <= n <= 2 && n <= |toks|
  {
    assert WellTyped(toks[0]);
    var first := BuildFirst(FRESH, toks[0]);
    if n == 1 then first
    else
      assert WellTyped(toks[1]);
      BuildToken(first, 1, toks[1])
  }

  lemma RestTyped(toks: seq<Token>, n: nat)
    requires AllWellTyped(toks) && n <= |toks|
    ensures AllWellTyped(toks[n..])
  {
  }

  lemma BuildHeadThen(toks: seq<Token>, n: nat)
    requires AllWellTyped(toks) && 1 <= n <= 2 && n <= |toks|
    ensures AllWellTyped(toks[n..])
    ensures Build(FRESH, 0, toks) == Build(HeadOf(toks, n), n, toks[n..])
  {
    RestTyped(toks, n);
    RestTyped(toks, 1);
    assert Build(FRESH, 0, toks) == Build(BuildFirst(FRESH, toks[0]), 1, toks[1..]);
    if n == 2 {
      assert toks[1..][0] == toks[1] && toks[1..][1..] == toks[2..];
    }
  }

  /** What a line's tokens build: the placed fields, then every argument and flag in order. */
  lemma BuildPlaced(toks: seq<Token>, n: nat)
    requires AllWellTyped(toks) && 1 <= n <= 2 && n <= |toks|
    requires n == 1 ==> HeadOf(toks, n).kind != Publish
    requires HeadOf(toks, n).args == [] && HeadOf(toks, n).flags == []
    ensures AllWellTyped(toks[n..])
    ensures var q, head := Build(FRESH, 0, toks), HeadOf(toks, n);
            && q.kind == head.kind && q.capability == head.capability
            && (NoHandle(toks[n..]) ==> q.handle == head.handle)
            && q.args == ArgsOf(toks[n..]) && q.flags == FlagsOf(toks[n..])
  {
    BuildHeadThen(toks, n);
    BuildRest(HeadOf(toks, n), n, toks[n..]);
    assert [] + ArgsOf(toks[n..]) == ArgsOf(toks[n..]) && [] + FlagsOf(toks[n..]) == FlagsOf(toks[n..]);
  }

  /** Kind, command and handle are settled by the placed tokens. */
  lemma HeadKept(toks: seq<Token>, n: nat)
    requires AllWellTyped(toks) && 1 <= n <= 2 && n <= |toks| && NoHandle(toks[n..])
    ensures var q, head := Build(FRESH, 0, toks), HeadOf(toks, n);
            q.kind == head.kind
            && (n == 2 || head.kind != Publish ==> q.capability == head.capability && q.handle == head.handle)
  {
    BuildHeadThen(toks, n);
    BuildKeepsKind(HeadOf(toks, n), n, toks[n..]);
    if n == 2 || HeadOf(toks, n).kind != Publish {
      BuildRest(HeadOf(toks, n), n, toks[n..]);
    }
  }

  ghost predicate PlacedSame(toks: seq<Token>, toks': seq<Token>, n: nat)
    requires n <= |toks| && n <= |toks'|
  {
    forall i :: 0 <= i < n ==> toks'[i] == toks[i]
  }

  lemma SameHeadKind(toks: seq<Token>, toks': seq<Token>, n: nat)
    requires AllWellTyped(toks) && AllWellTyped(toks') && 1 <= n <= 2 && n <= |toks| && n <= |toks'|
    requires PlacedSame(toks, toks', n)
    ensures HeadOf(toks, n) == HeadOf(toks', n)
  {
    assert toks'[0] == toks[0];
    if n == 2 {
      assert toks'[1] == toks[1];
    }
  }

  lemma {:induction false} TokAt(items: seq<Item>, i: nat)
    requires i < |items|
    ensures |Toks(items)| == |items| && Toks(items)[i] == items[i].Tok()
  {
    ToksLength(items);
    if i > 0 {
      TokAt(items[1..], i - 1);
    }
  }

  lemma GoodText(it: Item)
    requires it.Good()
    ensures it.Text() != ""
  {
  }

  lemma PlacedItems(p: Packet)
    requires Sendable(p) && Deliverable(p)
    ensures var items := MessageItems(p);
            Placed(p) <= |items| && items[0].Flat? && (Placed(p) == 2 ==> items[1].Flat?)
  {
    NextPlaced(p);
  }

  /** The placed tokens of the message. */
  ghost predicate PlacedBy(p: Packet, toks: seq<Token>) {
    && AllWellTyped(toks) && Placed(p) <= |toks| && NoHandle(toks[Placed(p)..])
    && toks[0] == FirstItem(p).Tok()
    && (p.RequestPacket? ==> toks[1] == HandleWord(p.content.handle).Tok())
    && (p.PublishPacket? ==> toks[1] == PlacedItem(p.topic).Tok())
    && HeadOf(toks, Placed(p)).args == [] && HeadOf(toks, Placed(p)).flags == []
    && HeadOf(toks, Placed(p)).kind == KindOf(p)
    && SansProps(Build(FRESH, 0, toks)) == ParsedAs(p, p.content.args)
  }

  lemma NextPlaced(p: Packet)
    requires Sendable(p) && Deliverable(p)
    ensures p.RequestPacket? ==> NextItems(p) == [HandleWord(p.content.handle)]
    ensures p.PublishPacket? ==> NextItems(p) == [PlacedItem(p.topic)]
  {
  }

  lemma SecondToken(p: Packet, it: Item)
    requires NextItems(p) == [it]
    ensures |Toks(Later(p))| >= 1 && Toks(Later(p))[0] == it.Tok()
  {
    var rest := ArgItems(p.content.args) + FlagItems(TailFlags(p));
    ConsText(it, rest);
  }

  /** The tokens of a message, each in its place. */
  lemma MessageShape(p: Packet)
    requires Sendable(p) && Deliverable(p)
    ensures var toks := Toks(MessageItems(p));
            && AllWellTyped(toks) && Placed(p) <= |toks| && NoHandle(toks[Placed(p)..])
            && toks[0] == FirstItem(p).Tok()
            && (p.RequestPacket? ==> toks[1] == HandleWord(p.content.handle).Tok())
            && (p.PublishPacket? ==> toks[1] == PlacedItem(p.topic).Tok())
  {
    var toks := Toks(MessageItems(p));
    MessageFit(p);
    LaterFit(p);
    ToksWellTyped(MessageItems(p));
    NextPlaced(p);
    if p.RequestPacket? {
      SecondToken(p, HandleWord(p.content.handle));
    }
    if p.PublishPacket? {
      SecondToken(p, PlacedItem(p.topic));
    }
    assert toks[1..] == Toks(Later(p));
    if Placed(p) == 2 {
      assert toks[2..] == Toks(Later(p))[1..];
    }
  }

  lemma MessageParses(p: Packet)
    requires Sendable(p) && Deliverable(p) && AllWellTyped(Toks(MessageItems(p)))
    ensures SansProps(Build(FRESH, 0, Toks(MessageItems(p)))) == ParsedAs(p, p.content.args)
  {
    MessageFit(p);
    TextParses(p);
    LineTokens(MessageItems(p));
  }

  lemma MessagePlaced(p: Packet)
    requires Sendable(p) && Deliverable(p)
    ensures PlacedBy(p, Toks(MessageItems(p)))
  {
    MessageShape(p);
    MessageParses(p);
    FirstBuilt(p);
  }

  lemma FirstKind(p: Packet, toks: seq<Token>)
    requires Sendable(p) && PlacedBy(p, toks)
    ensures BuildFirst(FRESH, toks[0]).kind == Publish ==> p.PublishPacket?
  {
    FirstBuilt(p);
  }

  /** The frame's text is the line of the items as shown. */
  lemma ShownIsLine(p: Packet)
    requires Sendable(p)
    ensures |ShownAll(MessageItems(p))| == |MessageItems(p)| && ShownLine(p) == Line(ShownAll(MessageItems(p)))
  {
    MessageIsText(p);
    WalkFrames(MessageText(p));
    ShownLineText(MessageItems(p));
  }

  lemma ShownNotEmpty(p: Packet)
    requires Sendable(p)
    ensures ShownLine(p) != ""
  {
    MessageIsText(p);
    WalkFrames(MessageText(p));
    FirstItemGood(p);
    AlongAdds(BEGIN, MessageText(p));
    SomethingShown(MessageText(p));
  }

  lemma SomethingShown(text: string)
    requires text != ""
    ensures Adds(BEGIN, text) != ""
  {
  }

  // ---- Words without a newline ----

  lemma ThinPlain(x: string, y: string)
    requires Thin(x, y) && Lacks(x, '\n')
    ensures y == x
  {
    ThinCount(x, y);
    NoNewlines(x);
  }

  lemma {:induction false} NoNewlines(x: string)
    requires Lacks(x, '\n')
    ensures Newlines(x) == 0
    decreases |x|
  {
    if x != "" {
      NoNewlines(x[1..]);
    }
  }

  lemma FixedWords()
    ensures Lacks("witness", '\n') && Lacks("publish", '\n')
  {
  }

  lemma WordPlaced(toks: seq<Token>, toks': seq<Token>)
    requires toks != [] && ThinTokens(toks, toks') && Lacks(toks[0].value, '\n')
    ensures PlacedSame(toks, toks', 1)
  {
    assert ThinToken(toks[0], toks'[0]);
    ThinPlain(toks[0].value, toks'[0].value);
  }

  lemma SplitAtColon(name: string, handle: string, command: string)
    requires var pos := IndexOf(name, ':');
             pos < |name| && name[..pos] == handle && name[pos + 1..] == command
    ensures name == handle + ":" + command
  {
    SplitAt(name, ':', IndexOf(name, ':'));
  }

  lemma NotHandleToken(command: string)
    requires Bare(command) && command != "" && command[0] != '~'
    ensures PlacedItem(command).Tok().kind != Handle
  {
    BareIsVerbatim(command);
    RunNotHandle(START, command, LookOther);
  }

  // ---- The fields of what arrives ----

  lemma SortedDistinct(args: Args)
    requires SortedKeys(args)
    ensures DistinctKeys(args)
  {
    forall i, j | 0 <= i < j < |args| ensures args[i].0 != args[j].0 {
      BeforeTotal(args[i].0, args[j].0);
      assert Before(args[i].0, args[j].0);
    }
  }

  lemma NamedDistinct(name: string, value: string, args: seq<(string, string)>)
    requires DistinctKeys(args) && !HasKey(args, name)
    ensures DistinctKeys(Named(name, value) + args)
  {
  }

  /** Arguments under different keys, each of them among args'. */
  ghost predicate Found(args: seq<(string, string)>, args': seq<(string, string)>) {
    DistinctKeys(args) && forall i :: 0 <= i < |args| ==> args[i] in args'
  }

  lemma FoundCovers(m: ((string, string)) -> nat, args: seq<(string, string)>, args': seq<(string, string)>)
    requires Found(args, args')
    ensures Covers(m, args, args')
  {
  }

  lemma KeptArgs(args: Args, args': seq<(string, string)>, names: set<string>)
    requires PutAll([], Others(args', names)) == args
    ensures forall i :: 0 <= i < |args| ==> args[i] in args'
  {
    forall i | 0 <= i < |args| ensures args[i] in args' {
      PutAllFrom([], Others(args', names), args[i]);
      OthersFrom(args', names, args[i]);
    }
  }

  lemma NamedKept(name: string, value: string, args: seq<(string, string)>, args': seq<(string, string)>)
    requires LastValue(args', name) == value
    requires forall i :: 0 <= i < |args| ==> args[i] in args'
    ensures forall i :: 0 <= i < |Named(name, value) + args| ==> (Named(name, value) + args)[i] in args'
  {
    if value != "" {
      LastValueFrom(args', name);
    }
  }

  lemma TwoNamedArrive(one: string, x: string, two: string, y: string, args: Args, args': seq<(string, string)>)
    requires SortedKeys(args) && !HasKey(args, one) && !HasKey(args, two) && one != two
    requires PutAll([], Others(args', {one, two})) == args
    requires LastValue(args', one) == x && LastValue(args', two) == y
    ensures Found(Named(one, x) + Named(two, y) + args, args')
  {
    SortedDistinct(args);
    KeptArgs(args, args', {one, two});
    NamedKept(two, y, args, args');
    NamedKept(one, x, Named(two, y) + args, args');
    NamedDistinct(two, y, args);
    NamedHasKey(two, y, args, one);
    NamedDistinct(one, x, Named(two, y) + args);
    Assoc(Named(one, x), Named(two, y), args);
  }

  lemma OneNamedArrives(name: string, value: string, args: Args, args': seq<(string, string)>)
    requires SortedKeys(args) && !HasKey(args, name)
    requires PutAll([], Others(args', {name})) == args && LastValue(args', name) == value
    ensures Found(Named(name, value) + args, args')
  {
    SortedDistinct(args);
    KeptArgs(args, args', {name});
    NamedKept(name, value, args, args');
    NamedDistinct(name, value, args);
  }

  lemma PlainArgsArrive(args: Args, args': seq<(string, string)>)
    requires SortedKeys(args) && PutAll([], Others(args', {})) == args
    ensures Found([] + args, args')
  {
    SortedDistinct(args);
    KeptArgs(args, args', {});
    assert [] + args == args;
  }

  /** What is delivered as the message is of its kind. */
  lemma InterpretedKind(p: Packet, q: Parsed)
    requires q.kind != Unknown && Interpret(q) == Received(p)
    ensures q.kind == KindOf(p) && OfKind(p, q) == Received(p)
  {
  }

  /** What arrives has every argument of the message, its own fields among them. */
  lemma ArgsArrive(p: Packet, q: Parsed)
    requires Proper(p) && OfKind(p, q) == Received(p)
    ensures Found(ParsedAs(p, p.content.args).args, q.args)
  {
    var args := p.content.args;
    SendableApart(p);
    match p
    case ErrorPacket(_, code, what) => TwoNamedArrive("code", code, "what", what, args, q.args);
    case WitnessPacket(_, body) => OneNamedArrives("body", body, args, q.args);
    case _ => PlainArgsArrive(args, q.args);
  }

  predicate NoLineEnd(s: string) {
    Lacks(s, '\n') && Lacks(s, '\r')
  }

  /** Flags all found among flags'; only words without a line ending are repeated. */
  ghost predicate FlagsFound(flags: seq<string>, flags': seq<string>) {
    && (forall i, j :: 0 <= i < j < |flags| && flags[i] == flags[j] ==> NoLineEnd(flags[i]))
    && Elements(flags) <= Elements(flags')
  }

  lemma FlagsCovered(flags: seq<string>, flags': seq<string>)
    requires FlagsFound(flags, flags')
    ensures Covers(Newlines, flags, flags')
  {
    forall i, j | 0 <= i < j < |flags| && Newlines(flags[i]) > 0 ensures flags[i] != flags[j] {
      if flags[i] == flags[j] {
        NoNewlines(flags[i]);
      }
    }
    forall i | 0 <= i < |flags| ensures flags[i] in flags' {
      assert flags[i] in Elements(flags);
    }
  }

  lemma SortedOnce(flags: Flags)
    requires Sorted(flags)
    ensures forall i, j :: 0 <= i < j < |flags| ==> flags[i] != flags[j]
  {
    forall i, j | 0 <= i < j < |flags| ensures flags[i] != flags[j] {
      BeforeTotal(flags[i], flags[i]);
      assert Before(flags[i], flags[j]);
    }
  }

  /** Words without a line ending around flags that do not repeat. */
  lemma AroundCovered(before: string, flags: seq<string>, after: seq<string>, flags': seq<string>)
    requires NoLineEnd(before) && forall i :: 0 <= i < |after| ==> NoLineEnd(after[i])
    requires forall i, j :: 0 <= i < j < |flags| ==> flags[i] != flags[j]
    requires before in flags' && Elements(flags) <= Elements(flags') && Elements(after) <= Elements(flags')
    ensures FlagsFound([before] + (flags + after), flags')
  {
    var all := [before] + (flags + after);
    forall i, j | 0 <= i < j < |all| && all[i] == all[j] ensures NoLineEnd(all[i]) {
    }
    forall f | f in Elements(all) ensures f in Elements(flags') {
      assert f == before || f in Elements(flags) || f in Elements(after);
    }
  }

  lemma PlainFlagsArrive(flags: Flags, flags': seq<string>)
    requires Sorted(flags) && InsertAll([], flags') == flags
    ensures FlagsFound(flags, flags')
  {
    InsertAllSorted([], flags');
    SortedOnce(flags);
  }

  lemma OkFlagsArrive(flags: Flags, flags': seq<string>)
    requires Sorted(flags) && InsertAll([], flags') == Insert(flags, "ok")
    ensures FlagsFound(["ok"] + Without(flags, "ok") + [], flags')
  {
    InsertAllSorted([], flags');
    InsertSorted(flags, "ok");
    WithoutSorted(flags, "ok");
    WithoutElements(flags, "ok");
    SortedOnce(Without(flags, "ok"));
    assert "ok" in Elements(flags');
    AroundCovered("ok", Without(flags, "ok"), [], flags');
    Assoc(["ok"], Without(flags, "ok"), []);
  }

  lemma ErrorFlagsArrive(flags: Flags, flags': seq<string>)
    requires Sorted(flags) && InsertAll([], flags') == Insert(Insert(flags, "error"), "node_error")
    ensures FlagsFound(["error"] + (flags + ["node_error"]), flags')
  {
    TwoInserted(flags, flags', "error", "node_error");
    ErrorFlagsCovered(flags, flags', "error", "node_error");
  }

  lemma TwoInserted(flags: Flags, flags': seq<string>, error: string, node: string)
    requires Sorted(flags) && InsertAll([], flags') == Insert(Insert(flags, error), node)
    ensures Elements(flags') == Elements(flags) + {error} + {node}
  {
    InsertAllSorted([], flags');
    InsertSorted(flags, error);
    InsertSorted(Insert(flags, error), node);
    assert Elements([]) + Elements(flags') == Elements(flags');
  }

  lemma ErrorFlagsCovered(flags: Flags, flags': seq<string>, error: string, node: string)
    requires Sorted(flags) && Elements(flags') == Elements(flags) + {error} + {node}
    requires NoLineEnd(error) && NoLineEnd(node)
    ensures FlagsFound([error] + (flags + [node]), flags')
  {
    SortedOnce(flags);
    assert error in Elements(flags') && node in Elements(flags');
    AroundCovered(error, flags, [node], flags');
  }

  /** What arrives has every flag of the message, and those its kind adds. */
  lemma FlagsArrive(p: Packet, q: Parsed)
    requires Proper(p) && OfKind(p, q) == Received(p)
    ensures FlagsFound(ParsedAs(p, p.content.args).flags, q.flags)
  {
    var flags := p.content.flags;
    SendableApart(p);
    match p
    case ResponsePacket(_) => OkFlagsArrive(flags, q.flags);
    case ErrorPacket(_, _, _) => ErrorFlagsArrive(flags, q.flags);
    case _ =>
      PlainFlagsArrive(flags, q.flags);
      assert [] + flags == flags;
  }

  lemma TopicArrives(p: Packet, q: Parsed)
    requires p.PublishPacket? && Interpret(q) == Received(p)
    ensures q.capability == p.topic
  {
  }

  lemma DeliveredParse(p: Packet, line: string, raw: string)
    requires OutcomeOf(Frame(line, raw)) == Delivered(Received(p), raw)
    ensures Parse(line).kind != Unknown && Interpret(Parse(line)) == Received(p)
  {
  }
}
