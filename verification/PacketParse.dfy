/** The line of a sendable message parses to exactly its fields. */
module PacketParse {
  import opened Strings
  import opened Ordered
  import opened Scanner
  import opened ScannerLaws
  import opened Verbatims
  import opened BareText
  import opened Parsing
  import opened ParsingLaws
  import opened Wire
  import opened Items
  import opened Forms
  import opened Rendering

  // ---- Every item of a sendable message is one good token ----

  lemma SimpleWord(s: string)
    requires s != "" && s[0] != '~' && (forall i :: 0 <= i < |s| ==> Ordinary(s[i]) && s[i] != '=')
    ensures PlainWord(s)
  {
    PlainBare(s);
  }

  lemma AddressBare(c: Content)
    requires Atom(c.handle) && Atom(c.command)
    ensures Bare(c.handle + ":" + c.command) && Lacks(c.handle + ":" + c.command, '=')
  {
    PlainVerbatim(":");
    BareIsVerbatim(c.handle);
    BareIsVerbatim(c.command);
    VerbatimConcat(c.handle, ":");
    VerbatimConcat(c.handle + ":", c.command);
    BareIsVerbatim(c.handle + ":" + c.command);
  }

  lemma FirstItemGood(p: Packet)
    requires Proper(p)
    ensures FirstItem(p).Good()
  {
    match p
    case RequestPacket(c) => CommandBuilt(c.command);
    case ResponsePacket(c) =>
      AddressBare(c);
      HandleItem(c.handle + ":" + c.command);
    case ErrorPacket(c, _, _) =>
      AddressBare(c);
      HandleItem(c.handle + ":" + c.command);
    case WitnessPacket(_, _) =>
      SimpleWord("witness");
      WordItem("witness");
    case PublishPacket(_, _) =>
      SimpleWord("publish");
      WordItem("publish");
  }

  lemma BareItemGood(name: string, value: string)
    requires Bare(name) && Lacks(name, '=') && SafeBare(value)
    ensures BareItem(name, value).Good() && ReadsAs(BareItem(name, value).Tok(), (name, value))
  {
    RunKey(name);
    LookMattersNot(name);
    RunSplit(START, name + "=", value, LookOther);
    BareIsVerbatim(value);
    RunVerbatim(Scan(Plain, name + "=", Arg, []), value, LookOther);
    ReadArgAt(name, value);
  }

  lemma QuotedItemGood(name: string, value: string)
    requires Bare(name) && Lacks(name, '=') && SafeQuoted(value)
    ensures QuotedItem(name, value).Good() && ReadsAs(QuotedItem(name, value).Tok(), (name, value))
  {
    var quoted := ['"'] + value + ['"'];
    RunKey(name);
    LookMattersNot(name);
    RunSplit(START, name + "=", quoted, LookOther);
    RunQuoted(Scan(Plain, name + "=", Arg, []), '"', value, LookOther);
    QuotedText(name, value);
    ReadArgAt(name, value);
  }

  lemma QuotedText(name: string, value: string)
    ensures QuotedItem(name, value).Text() == name + "=" + (['"'] + value + ['"'])
  {
  }

  lemma PlacedItemGood(text: string)
    requires Bare(text) && text != ""
    ensures PlacedItem(text).Good()
  {
    BareIsVerbatim(text);
    RunKeepsAll(START, text, LookOther);
    RunSound(START, text, LookOther);
    assert "" + text == text;
  }

  /** Text that does not begin with '~' never becomes a handle. */
  lemma {:induction false} RunNotHandle(st: Scan, s: string, look: Look)
    requires Kept(st.mode, s, look) == s && st.kind != Handle
    requires st.value == "" && s != "" ==> s[0] != '~'
    ensures Run(st, s, look).kind != Handle
    decreases |s|
  {
    if s != "" {
      KeptHead(st.mode, s, look);
      RunNotHandle(Step(st, s[0], Peek(s[1..], look)), s[1..], look);
    }
  }

  lemma CommandBuilt(command: string)
    requires Bare(command) && command != "" && command[0] != '~' && command != "witness" && command != "publish"
    ensures PlacedItem(command).Good()
    ensures BuildFirst(FRESH, PlacedItem(command).Tok()) == Parsed(Request, command, "", [], [], NO_PROPS)
  {
    PlacedItemGood(command);
    BareIsVerbatim(command);
    RunNotHandle(START, command, LookOther);
  }

  lemma OptGood(name: string, it: Item)
    requires name != "" ==> it.Good()
    ensures AllGood(OptItem(name, it))
  {
  }

  lemma GoodAppend(a: seq<Item>, b: seq<Item>)
    requires AllGood(a) && AllGood(b)
    ensures AllGood(a + b)
  {
  }

  lemma ResponseNextGood(flags: Flags)
    requires SafeFlags(flags)
    ensures AllGood([FlagItem("ok")] + FlagItems(Without(flags, "ok")))
  {
    SimpleWord("ok");
    WordItem("ok");
    WithoutSafe(flags, "ok");
    FlagItemsGood(Without(flags, "ok"));
    GoodCons(FlagItem("ok"), FlagItems(Without(flags, "ok")));
  }

  lemma CodeWhatGood(code: string, what: string)
    requires SafeBare(code) && SafeQuoted(what)
    ensures AllGood(OptItem(code, BareItem("code", code)) + OptItem(what, QuotedItem("what", what)))
  {
    PlainBare("code");
    PlainBare("what");
    BareItemGood("code", code);
    QuotedItemGood("what", what);
    OptGood(code, BareItem("code", code));
    OptGood(what, QuotedItem("what", what));
    GoodAppend(OptItem(code, BareItem("code", code)), OptItem(what, QuotedItem("what", what)));
  }

  lemma ErrorNextGood(code: string, what: string)
    requires SafeBare(code) && SafeQuoted(what)
    ensures AllGood([FlagItem("error")]
                    + (OptItem(code, BareItem("code", code)) + OptItem(what, QuotedItem("what", what))))
  {
    SimpleWord("error");
    WordItem("error");
    CodeWhatGood(code, what);
    GoodCons(FlagItem("error"), OptItem(code, BareItem("code", code)) + OptItem(what, QuotedItem("what", what)));
  }

  lemma NextItemsGood(p: Packet)
    requires Sendable(p)
    ensures AllGood(NextItems(p))
  {
    match p
    case RequestPacket(c) =>
      HandleItem(c.handle);
      OptGood(c.handle, HandleWord(c.handle));
    case ResponsePacket(c) => ResponseNextGood(c.flags);
    case ErrorPacket(_, code, what) => ErrorNextGood(code, what);
    case WitnessPacket(_, body) =>
      PlainBare("body");
      QuotedItemGood("body", body);
      OptGood(body, QuotedItem("body", body));
    case PublishPacket(_, topic) =>
      if topic != "" {
        PlacedItemGood(topic);
      }
      OptGood(topic, PlacedItem(topic));
  }

  lemma TailFlagsSafe(p: Packet)
    requires SafeFlags(p.content.flags)
    ensures forall i :: 0 <= i < |TailFlags(p)| ==> PlainWord(TailFlags(p)[i])
  {
    NodeErrorWord();
  }

  lemma NodeErrorWord()
    ensures PlainWord("node_error")
  {
    SimpleWord("node_error");
  }

  lemma PacketItemsGood(p: Packet, argItems: seq<Item>)
    requires Sendable(p) && AllGood(argItems)
    ensures AllGood(PacketItems(p, argItems))
  {
    FirstItemGood(p);
    NextItemsGood(p);
    TailFlagsSafe(p);
    FlagItemsGood(TailFlags(p));
  }

  // ---- What the builder makes of them ----

  function AfterFirst(p: Packet): Parsed {
    match p
    case RequestPacket(c) => Parsed(Request, c.command, "", [], [], NO_PROPS)
    case ResponsePacket(c) => Parsed(Response, c.command, c.handle, [], [], NO_PROPS)
    case ErrorPacket(c, _, _) => Parsed(Response, c.command, c.handle, [], [], NO_PROPS)
    case WitnessPacket(_, _) => Parsed(Witness, "witness", "", [], [], NO_PROPS)
    case PublishPacket(_, _) => Parsed(Publish, "", "", [], [], NO_PROPS)
  }

  function AfterNext(p: Packet): Parsed {
    match p
    case RequestPacket(c) => AfterFirst(p).(handle := c.handle)
    case ResponsePacket(c) => AfterFirst(p).(flags := ["ok"] + Without(c.flags, "ok"))
    case ErrorPacket(_, code, what) =>
      AfterFirst(p).(flags := ["error"], args := Named("code", code) + Named("what", what))
    case WitnessPacket(_, body) => AfterFirst(p).(args := Named("body", body))
    case PublishPacket(_, topic) => AfterFirst(p).(capability := topic)
  }

  /** The parsed form of p when its arguments read as args. */
  function ParsedAs(p: Packet, args: seq<(string, string)>): Parsed {
    var head := AfterNext(p);
    head.(args := head.args + args, flags := head.flags + TailFlags(p))
  }

  lemma AddressBuilt(c: Content)
    requires Lacks(c.handle, ':')
    ensures BuildFirst(FRESH, AddressItem(c).Tok()) == Parsed(Response, c.command, c.handle, [], [], NO_PROPS)
  {
    var name := c.handle + ":" + c.command;
    assert ("~" + name)[1..] == name;
    assert name[..|c.handle|] == c.handle && name[|c.handle| + 1..] == c.command;
    IndexOfUnique(name, ':', |c.handle|);
  }

  lemma FirstBuilt(p: Packet)
    requires Proper(p)
    ensures WellTyped(FirstItem(p).Tok())
    ensures BuildFirst(FRESH, FirstItem(p).Tok()) == AfterFirst(p)
  {
    match p
    case RequestPacket(c) => CommandBuilt(c.command);
    case ResponsePacket(c) => AddressBuilt(c);
    case ErrorPacket(c, _, _) => AddressBuilt(c);
    case _ =>
  }

  lemma NamedBuilt(name: string, value: string, it: Item)
    requires ReadsAs(it.Tok(), (name, value))
    ensures AllReadAs(Toks(OptItem(value, it)), Named(name, value))
  {
    assert Toks([it]) == [it.Tok()] + [];
  }

  lemma ErrorNextBuilt(p: Parsed, code: string, what: string)
    requires p.kind == Response && SafeBare(code) && SafeQuoted(what)
    ensures var toks := Toks([FlagItem("error")]
                             + (OptItem(code, BareItem("code", code)) + OptItem(what, QuotedItem("what", what))));
            && AllWellTyped(toks)
            && SansProps(Build(p, 1, toks))
            == SansProps(p.(flags := p.flags + ["error"], args := p.args + (Named("code", code) + Named("what", what))))
  {
    var items, args := OptItem(code, BareItem("code", code)) + OptItem(what, QuotedItem("what", what)),
                       Named("code", code) + Named("what", what);
    CodeWhatRead(code, what);
    var t := Token("error", Word);
    ConsText(FlagItem("error"), items);
    BuildArgs(BuildToken(p, 1, t), 2, Toks(items), args);
    BuildCons(p, 1, t, Toks(items));
  }

  lemma CodeRead(code: string)
    requires SafeBare(code)
    ensures AllReadAs(Toks(OptItem(code, BareItem("code", code))), Named("code", code))
  {
    PlainBare("code");
    BareItemGood("code", code);
    NamedBuilt("code", code, BareItem("code", code));
  }

  lemma WhatRead(what: string)
    requires SafeQuoted(what)
    ensures AllReadAs(Toks(OptItem(what, QuotedItem("what", what))), Named("what", what))
  {
    PlainBare("what");
    QuotedItemGood("what", what);
    NamedBuilt("what", what, QuotedItem("what", what));
  }

  lemma CodeWhatRead(code: string, what: string)
    requires SafeBare(code) && SafeQuoted(what)
    ensures AllReadAs(Toks(OptItem(code, BareItem("code", code)) + OptItem(what, QuotedItem("what", what))),
                      Named("code", code) + Named("what", what))
  {
    var a, b := OptItem(code, BareItem("code", code)), OptItem(what, QuotedItem("what", what));
    CodeRead(code);
    WhatRead(what);
    ToksAppend(a, b);
    ReadAppend(Toks(a), Named("code", code), Toks(b), Named("what", what));
  }

  lemma ReadAppend(a: seq<Token>, x: seq<(string, string)>, b: seq<Token>, y: seq<(string, string)>)
    requires AllReadAs(a, x) && AllReadAs(b, y)
    ensures AllReadAs(a + b, x + y)
  {
  }

  lemma RequestNextBuilt(p: Parsed, handle: string)
    requires p.kind == Request && p.handle == ""
    ensures var toks := Toks(OptItem(handle, HandleWord(handle)));
            AllWellTyped(toks) && Build(p, 1, toks) == p.(handle := handle)
  {
    var t := HandleWord(handle).Tok();
    assert ("~" + handle)[1..] == handle;
    assert Toks([HandleWord(handle)]) == [t];
    BuildCons(p, 1, t, []);
    assert [t] + [] == [t];
  }

  lemma ResponseNextBuilt(p: Parsed, flags: seq<string>)
    requires p.kind == Response && p.flags == []
    ensures var toks := Toks([FlagItem("ok")] + FlagItems(flags));
            AllWellTyped(toks) && SansProps(Build(p, 1, toks)) == SansProps(p.(flags := ["ok"] + flags))
  {
    var all := ["ok"] + flags;
    assert all[1..] == flags;
    assert FlagItems(all) == [FlagItem("ok")] + FlagItems(flags);
    BuildFlags(p, 1, all);
    assert [] + all == all;
  }

  lemma WitnessNextBuilt(p: Parsed, body: string)
    requires p.kind == Witness && p.args == [] && SafeQuoted(body)
    ensures var toks := Toks(OptItem(body, QuotedItem("body", body)));
            AllWellTyped(toks) && SansProps(Build(p, 1, toks)) == SansProps(p.(args := Named("body", body)))
  {
    PlainBare("body");
    QuotedItemGood("body", body);
    NamedBuilt("body", body, QuotedItem("body", body));
    BuildArgs(p, 1, Toks(OptItem(body, QuotedItem("body", body))), Named("body", body));
    assert [] + Named("body", body) == Named("body", body);
  }

  lemma PublishNextBuilt(p: Parsed, topic: string)
    requires p.kind == Publish && p.capability == "" && Bare(topic)
    ensures var toks := Toks(OptItem(topic, PlacedItem(topic)));
            AllWellTyped(toks) && Build(p, 1, toks) == p.(capability := topic)
  {
    if topic != "" {
      PlacedItemGood(topic);
      var t := PlacedItem(topic).Tok();
      BuildCons(p, 1, t, []);
      assert Toks([PlacedItem(topic)]) == [t] == [t] + [];
    }
  }

  lemma NextBuilt(p: Packet)
    requires Sendable(p)
    ensures AllWellTyped(Toks(NextItems(p)))
    ensures SansProps(Build(AfterFirst(p), 1, Toks(NextItems(p)))) == AfterNext(p)
  {
    var q := AfterFirst(p);
    match p
    case RequestPacket(c) => RequestNextBuilt(q, c.handle);
    case ResponsePacket(c) => ResponseNextBuilt(q, Without(c.flags, "ok"));
    case ErrorPacket(_, code, what) =>
      ErrorNextBuilt(q, code, what);
      assert [] + ["error"] == ["error"];
      assert [] + (Named("code", code) + Named("what", what)) == Named("code", code) + Named("what", what);
    case WitnessPacket(_, body) => WitnessNextBuilt(q, body);
    case PublishPacket(_, topic) => PublishNextBuilt(q, topic);
  }

  /** The line of a sendable message parses to its fields, with its arguments as the items read. */
  lemma PacketParses(p: Packet, argItems: seq<Item>, args: seq<(string, string)>)
    requires Sendable(p) && AllGood(argItems) && AllReadAs(Toks(argItems), args)
    requires p.content.args == [] ==> argItems == []
    ensures SansProps(Parse(Line(PacketItems(p, argItems)))) == ParsedAs(p, args)
  {
    var first, next, flags := FirstItem(p), NextItems(p), TailFlags(p);
    var items := PacketItems(p, argItems);
    PacketItemsGood(p, argItems);
    LineTokens(items);
    FirstBuilt(p);
    NextBuilt(p);
    ToksParts(first, next, argItems, FlagItems(flags));
    BuildParts(p, argItems, args);
  }

  lemma ToksParts(first: Item, a: seq<Item>, b: seq<Item>, c: seq<Item>)
    ensures Toks([first] + (a + (b + c))) == [first.Tok()] + (Toks(a) + (Toks(b) + Toks(c)))
  {
    assert ([first] + (a + (b + c)))[1..] == a + (b + c);
    ToksAppend(a, b + c);
    ToksAppend(b, c);
  }

  lemma BuildParts(p: Packet, argItems: seq<Item>, args: seq<(string, string)>)
    requires AllReadAs(Toks(argItems), args)
    requires p.PublishPacket? && p.topic == "" ==> argItems == [] && p.content.flags == []
    requires WellTyped(FirstItem(p).Tok()) && BuildFirst(FRESH, FirstItem(p).Tok()) == AfterFirst(p)
    requires AllWellTyped(Toks(NextItems(p)))
    requires SansProps(Build(AfterFirst(p), 1, Toks(NextItems(p)))) == AfterNext(p)
    ensures var tokens := [FirstItem(p).Tok()]
                          + (Toks(NextItems(p)) + (Toks(argItems) + Toks(FlagItems(TailFlags(p)))));
            && AllWellTyped(tokens)
            && SansProps(Build(FRESH, 0, tokens)) == ParsedAs(p, args)
  {
    var next, argToks, flagToks := Toks(NextItems(p)), Toks(argItems), Toks(FlagItems(TailFlags(p)));
    var q := Build(AfterFirst(p), 1, next);
    assert SansProps(q).kind == q.kind;
    ToksLength(NextItems(p));
    if p.PublishPacket? && p.topic == "" {
      assert argToks + flagToks == [] && args == [];
      assert AfterNext(p).args + [] == AfterNext(p).args && AfterNext(p).flags + [] == AfterNext(p).flags;
    } else {
      BuildTail(q, 1 + |next|, argToks, args, TailFlags(p));
    }
    BuildHead(FirstItem(p).Tok(), next, argToks + flagToks);
  }

  lemma BuildHead(first: Token, a: seq<Token>, b: seq<Token>)
    requires WellTyped(first) && AllWellTyped(a) && AllWellTyped(b)
    ensures AllWellTyped([first] + (a + b))
    ensures Build(FRESH, 0, [first] + (a + b)) == Build(Build(BuildFirst(FRESH, first), 1, a), 1 + |a|, b)
  {
    BuildSplit(BuildFirst(FRESH, first), 1, a, b);
    BuildCons(FRESH, 0, first, a + b);
  }

  lemma BuildTail(q: Parsed, i: nat, argToks: seq<Token>, args: seq<(string, string)>, flags: seq<string>)
    requires Settled(q, i) && AllReadAs(argToks, args)
    ensures var tokens := argToks + Toks(FlagItems(flags));
            && AllWellTyped(tokens)
            && SansProps(Build(q, i, tokens)) == SansProps(q.(args := q.args + args, flags := q.flags + flags))
  {
    var r := Build(q, i, argToks);
    BuildArgs(q, i, argToks, args);
    assert r.kind == SansProps(r).kind;
    BuildFlags(r, i + |argToks|, flags);
    BuildSplit(q, i, argToks, Toks(FlagItems(flags)));
  }

  lemma {:induction false} ToksLength(items: seq<Item>)
    ensures |Toks(items)| == |items|
  {
    if items != [] {
      ToksLength(items[1..]);
    }
  }
}
