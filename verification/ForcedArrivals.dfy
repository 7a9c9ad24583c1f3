/** Without clean seams: messages that, if they arrive, must have been shown intact all the same. */
module ForcedArrivals {
  import opened Strings
  import opened Ordered
  import opened Scanner
  import opened ScannerLaws
  import opened Verbatims
  import opened BareText
  import opened Parsing
  import opened ParsingLaws
  import opened Wire
  import opened Items
  import opened Forms
  import opened Rendering
  import opened PacketParse
  import opened Canonical
  import opened Dispatch
  import opened MessageFraming
  import opened StreamMessages
  import opened StreamRoundTrip
  import opened LostNewlines
  import opened ThinScan
  import opened TokenReads
  import opened IntactItems
  import opened MessageTokens
  import opened ParseWeights
  import opened MessageWeights
  import opened ForcedReads

  // ---- One item after another ----

  function NameOf(t: Token): string {
    t.value[..IndexOf(t.value, '=')]
  }

  function ValueOf(t: Token): string {
    if '=' in t.value && IndexOf(t.value, '=') < |t.value| then t.value[IndexOf(t.value, '=') + 1..] else ""
  }

  /** An item on one line, or one of the arguments a with its name on one line, its value a block, bare or quoted. */
  ghost predicate Steady(it: Item, a: seq<(string, string)>) {
    && Fit(it)
    && (Lacks(it.Text(), '\n')
        || match it
           case BlockArg(key, body) => Lacks(key, '\n') && (key, body) in a
           case Flat(text, t) =>
             && t.kind == Arg && Bare(NameOf(t)) && Lacks(NameOf(t), '\n') && (NameOf(t), ValueOf(t)) in a
             && t.value == NameOf(t) + "=" + ValueOf(t)
             && (text == t.value
                 || (Lacks(ValueOf(t), '"') && text == NameOf(t) + "=" + (['"'] + ValueOf(t) + ['"']))))
  }

  ghost predicate AllSteady(items: seq<Item>, a: seq<(string, string)>) {
    forall i :: 0 <= i < |items| ==> Steady(items[i], a)
  }

  lemma SteadyName(it: Item, a: seq<(string, string)>)
    requires it.Flat? && Steady(it, a) && !Lacks(it.Text(), '\n')
    ensures var name, v := NameOf(it.Tok()), ValueOf(it.Tok());
            && it.Tok() == Token(name + "=" + v, Arg)
            && Bare(name) && Lacks(name, '=') && Lacks(name, '\n') && !Wrapped(v) && (name, v) in a
  {
    var t := it.Tok();
    var name, v := NameOf(t), ValueOf(t);
    assert t.value[|name|] == '=' && t.value[|name| + 1..] == v;
  }

  lemma FlatForced(it: Item, s: string, z: string, a: seq<(string, string)>)
    requires it.Flat? && Steady(it, a) && !Lacks(it.Text(), '\n') && Thin(it.Text(), s) && Separated(z)
    requires DistinctKeys(a) && Only(a, Tokens(s + z))
    ensures Taken(it, s, it.Tok())
  {
    var name, v := NameOf(it.Tok()), ValueOf(it.Tok());
    SteadyName(it, a);
    if it.Text() == it.Tok().value {
      BareForced(name, v, s, z, a);
    } else {
      QuotedForced(name, v, s, z, a);
    }
  }

  /** What is shown of a steady item is intact, if every argument read from there on is one of a. */
  lemma StepForced(w: Walk, it: Item, z: string, a: seq<(string, string)>)
    requires Steady(it, a) && Separated(z) && DistinctKeys(a) && Only(a, Tokens(Adds(w, it.Text()) + z))
    ensures Intact(it, Adds(w, it.Text())) && SameRead(it.Tok(), ShownItem(w, it).Tok())
    ensures Tokens(Adds(w, it.Text()) + z) == [ShownItem(w, it).Tok()] + Tokens(z)
  {
    var s := Adds(w, it.Text());
    AddsThin(w, it.Text());
    var t := it.Tok();
    if Lacks(it.Text(), '\n') {
      AddsText(w, it.Text());
      LineIntact(it);
    } else if it.BlockArg? {
      BlockForced(it.key, it.body, s, z, a);
      t := Token(s, Arg);
    } else {
      FlatForced(it, s, z, a);
    }
    Advance(s, z, t);
  }

  lemma LineIntact(it: Item)
    requires Fit(it) && Lacks(it.Text(), '\n')
    ensures Taken(it, it.Text(), it.Tok())
  {
    if it.BlockArg? {
      BlockBreaks(it.key, it.body);
    }
  }

  lemma BlockBreaks(key: string, body: string)
    ensures !Lacks(BlockArg(key, body).Text(), '\n')
  {
    var text := BlockArg(key, body).Text();
    assert text == key + "=<<" + "\n" + (body + "\n>>");
    assert text[|key + "=<<"|] == '\n';
  }

  lemma OnlyAfter(a: seq<(string, string)>, t: Token, toks: seq<Token>)
    requires Only(a, [t] + toks)
    ensures Only(a, toks)
  {
    var all := [t] + toks;
    assert all[0] == t && all[1..] == toks;
    assert forall x :: x in toks ==> x in all;
    var n := |ArgsOf(all)| - |ArgsOf(toks)|;
    assert forall i :: 0 <= i < |ArgsOf(toks)| ==> ArgsOf(toks)[i] == ArgsOf(all)[n + i];
  }

  lemma SpaceFirst(w: Walk, items: seq<Item>, z: string)
    requires Separated(z)
    ensures Separated(Adds(w, Tail(items)) + z)
  {
    if items != [] {
      AfterSpace(w, items[0].Text() + Tail(items[1..]));
      Assoc(" ", items[0].Text(), Tail(items[1..]));
    } else {
      assert "" + z == z;
    }
  }

  lemma NextItem(w: Walk, it: Item, rest: seq<Item>, z: string)
    ensures var w', s := Along(w, " "), Adds(Along(w, " "), it.Text());
            && Adds(w, Tail([it] + rest)) + z == " " + (s + (Adds(Along(w, " " + it.Text()), Tail(rest)) + z))
            && Tokens(Adds(w, Tail([it] + rest)) + z) == Tokens(s + (Adds(Along(w, " " + it.Text()), Tail(rest)) + z))
  {
    var text := " " + it.Text();
    var s, more := Adds(Along(w, " "), it.Text()), Adds(Along(w, text), Tail(rest));
    assert ([it] + rest)[1..] == rest;
    AddsSplit(w, text, Tail(rest));
    AfterSpace(w, it.Text());
    Assoc(" " + s, more, z);
    Assoc(" ", s, more + z);
    ExtraSpaces("", s + (more + z));
  }

  /** Steady items are all shown intact, if every argument read from there on is one of a. */
  lemma {:induction false} ItemsForced(w: Walk, items: seq<Item>, z: string, a: seq<(string, string)>)
    requires AllSteady(items, a) && Separated(z) && DistinctKeys(a) && Only(a, Tokens(Adds(w, Tail(items)) + z))
    ensures AllIntact(items, ShownItems(w, items)) && AllSameRead(Toks(items), Toks(ShownItems(w, items)))
    ensures Tokens(Adds(w, Tail(items)) + z) == Toks(ShownItems(w, items)) + Tokens(z)
    decreases items
  {
    ShownItemsText(w, items);
    if items == [] {
      assert "" + z == z && [] + Tokens(z) == Tokens(z);
    } else {
      var it, rest := items[0], items[1..];
      var w', next := Along(w, " "), Along(w, " " + it.Text());
      var more := Adds(next, Tail(rest)) + z;
      SteadyTail(items, a);
      NextItem(w, it, rest, z);
      SpaceFirst(next, rest, z);
      StepForced(w', it, more, a);
      OnlyAfter(a, ShownItem(w', it).Tok(), Tokens(more));
      ItemsForced(next, rest, z, a);
      ShownItemsText(next, rest);
      IntactCons(it, rest, ShownItem(w', it), ShownItems(next, rest));
      ConsText(ShownItem(w', it), ShownItems(next, rest));
      Assoc([ShownItem(w', it).Tok()], Toks(ShownItems(next, rest)), Tokens(z));
    }
  }

  lemma SteadyTail(items: seq<Item>, a: seq<(string, string)>)
    requires items != [] && AllSteady(items, a)
    ensures Steady(items[0], a) && AllSteady(items[1..], a) && items == [items[0]] + items[1..]
  {
    forall i | 0 <= i < |items| - 1 ensures Steady(items[1..][i], a) {
      assert Steady(items[i + 1], a);
    }
  }

  // ---- Flags at the end ----

  lemma {:induction false} FlagsNewlines(flags: seq<string>)
    ensures Count(Tail(FlagItems(flags)), '\n') == SumOf(Newlines, flags)
  {
    if flags != [] {
      FlagsNewlines(flags[1..]);
      CountTail(FlagItem(flags[0]), FlagItems(flags[1..]), '\n');
      assert FlagItems(flags) == [FlagItem(flags[0])] + FlagItems(flags[1..]);
    }
  }

  lemma {:induction false} WordsCount(toks: seq<Token>)
    ensures SumOf(Newlines, FlagsOf(toks)) <= TokensCount(toks, '\n')
  {
    if toks != [] {
      WordsCount(toks[1..]);
      var rest := FlagsOf(toks[1..]);
      assert [] + rest == rest && ([toks[0].value] + rest)[1..] == rest;
    }
  }

  /** If the flags are all found in what is shown of them, none has lost a newline. */
  lemma FlagsForced(w: Walk, flags: seq<string>)
    requires Covers(Newlines, flags, FlagsOf(Tokens(Adds(w, Tail(FlagItems(flags))))))
    ensures Adds(w, Tail(FlagItems(flags))) == Tail(FlagItems(flags))
  {
    var text := Tail(FlagItems(flags));
    var shown := Adds(w, text);
    FlagsNewlines(flags);
    CoverSum(Newlines, flags, FlagsOf(Tokens(shown)));
    WordsCount(Tokens(shown));
    TokensHold(shown, '\n');
    AddsThin(w, text);
    ThinCount(text, shown);
  }

  lemma AllShown(w: Walk, a: string, b: string)
    requires Adds(w, a + b) == a + b
    ensures Adds(w, a) == a && Adds(Along(w, a), b) == b
  {
    AddsSplit(w, a, b);
    AddsThin(w, a);
    AddsThin(Along(w, a), b);
    ThinCount(a, Adds(w, a));
    ThinCount(b, Adds(Along(w, a), b));
  }

  lemma ShownWholeIntact(w: Walk, it: Item)
    requires Fit(it) && Adds(w, it.Text()) == it.Text()
    ensures Intact(it, ShownItem(w, it).Text())
  {
    if it.BlockArg? {
      WrittenIntact(it.key, it.body);
    }
  }

  lemma WrittenIntact(key: string, body: string)
    requires body != ""
    ensures Intact(BlockArg(key, body), BlockArg(key, body).Text())
  {
    assert BlockArg(key, body).Text() == BlockText(key, body, true, true);
  }

  /** Items that lose no newline are intact. */
  lemma {:induction false} WholeIntact(w: Walk, items: seq<Item>)
    requires AllFit(items) && Adds(w, Tail(items)) == Tail(items)
    ensures AllIntact(items, ShownItems(w, items))
    decreases items
  {
    if items != [] {
      var it, rest := items[0], items[1..];
      FitTail(items);
      AllShown(w, " " + it.Text(), Tail(rest));
      AfterSpace(w, it.Text());
      assert (" " + Adds(Along(w, " "), it.Text()))[1..] == (" " + it.Text())[1..];
      ShownWholeIntact(Along(w, " "), it);
      WholeIntact(Along(w, " " + it.Text()), rest);
      IntactSplit(it, rest, ShownItem(Along(w, " "), it), ShownItems(Along(w, " " + it.Text()), rest));
    }
  }

  lemma {:induction false} ShownItemsAppend(w: Walk, a: seq<Item>, b: seq<Item>)
    ensures ShownItems(w, a + b) == ShownItems(w, a) + ShownItems(Along(w, Tail(a)), b)
    decreases a
  {
    if a == [] {
      assert a + b == b;
    } else {
      assert (a + b)[1..] == a[1..] + b;
      var text := " " + a[0].Text();
      ShownItemsAppend(Along(w, text), a[1..], b);
      AlongSplit(w, text, Tail(a[1..]));
      Assoc([ShownItem(Along(w, " "), a[0])], ShownItems(Along(w, text), a[1..]), ShownItems(Along(w, Tail(a)), b));
    }
  }

  lemma IntactAppend(a: seq<Item>, a': seq<Item>, b: seq<Item>, b': seq<Item>)
    requires AllIntact(a, a') && AllIntact(b, b')
    ensures AllIntact(a + b, a' + b')
  {
    forall i | 0 <= i < |a + b| ensures Intact((a + b)[i], (a' + b')[i].Text()) {
      if i < |a| {
        assert Intact(a[i], a'[i].Text());
      } else {
        assert Intact(b[i - |a|], b'[i - |a|].Text());
      }
    }
  }

  lemma TextOfItems(p: Packet)
    ensures MessageText(p) == FirstItem(p).Text() + Tail(Later(p))
  {
    assert MessageItems(p)[1..] == Later(p);
  }

  // ---- Messages without blocks ----

  /** Without a block every newline belongs to a field, so that none can be missing if the fields arrive. */
  lemma NoBlocksForced(p: Packet, q: Parsed)
    requires Sendable(p) && Deliverable(p) && NoBlocks(p)
    requires q == Parse(ShownLine(p)) && q.kind != Unknown && Interpret(q) == Received(p)
    ensures ShownLine(p) == MessageText(p)
  {
    var m := ParsedAs(p, p.content.args);
    TextWeight(p, ArgNewlines, Newlines, '\n');
    ParseWeight(ArgNewlines, Newlines, '\n', ShownLine(p));
    InterpretedKind(p, q);
    ArgsArrive(p, q);
    FoundCovers(ArgNewlines, m.args, q.args);
    CoverSum(ArgNewlines, m.args, q.args);
    FlagsArrive(p, q);
    FlagsCovered(m.flags, q.flags);
    CoverSum(Newlines, m.flags, q.flags);
    PlacedFieldsArrive(p, q);
    ShownThin(p);
    ThinCount(MessageText(p), ShownLine(p));
  }

  lemma PlacedFieldsArrive(p: Packet, q: Parsed)
    requires q.kind != Unknown && Interpret(q) == Received(p)
    ensures var m := ParsedAs(p, p.content.args);
            Newlines(m.capability) + Newlines(m.handle) <= Newlines(q.capability) + Newlines(q.handle)
  {
    FixedCounts('\n');
  }

  lemma ShownThin(p: Packet)
    requires Sendable(p)
    ensures ShownLine(p) == Adds(BEGIN, MessageText(p)) && Thin(MessageText(p), ShownLine(p))
  {
    MessageIsText(p);
    WalkFrames(MessageText(p));
    FromBegin(MessageText(p));
    AddsThin(BEGIN, MessageText(p));
  }

  lemma FromBegin(text: string)
    ensures Along(BEGIN, text).shown == Adds(BEGIN, text)
  {
    AlongAdds(BEGIN, text);
    assert "" + Adds(BEGIN, text) == Adds(BEGIN, text);
  }

  /** A message that loses no newline is intact. */
  lemma WholeIsIntact(p: Packet)
    requires Sendable(p) && Deliverable(p) && ShownLine(p) == MessageText(p)
    ensures IntactMessage(p)
  {
    var first, later := FirstItem(p), Later(p);
    MessageFit(p);
    FirstFit(p);
    LaterFit(p);
    ShownThin(p);
    assert MessageItems(p)[1..] == later;
    AllShown(BEGIN, first.Text(), Tail(later));
    ShownWholeIntact(BEGIN, first);
    WholeIntact(Along(BEGIN, first.Text()), later);
    IntactSplit(first, later, ShownItem(BEGIN, first), ShownItems(Along(BEGIN, first.Text()), later));
  }

  // ---- Messages with names on one line ----

  /** No key, no handle that is sent and no flag before the arguments holds a newline. */
  ghost predicate PlainNames(p: Packet) {
    && (forall i :: 0 <= i < |p.content.args| ==> Lacks(p.content.args[i].0, '\n'))
    && (p.WitnessPacket? || p.PublishPacket? || Lacks(p.content.handle, '\n'))
    && (p.ResponsePacket? ==> forall i :: 0 <= i < |p.content.flags| ==> Lacks(p.content.flags[i], '\n'))
  }

  lemma PlacedLack(p: Packet)
    requires Sendable(p) && Deliverable(p)
    ensures var m := ParsedAs(p, p.content.args); Count(m.capability, '=') == 0 && Count(m.handle, '=') == 0
  {
    var m := ParsedAs(p, p.content.args);
    NoneCounted(m.capability, '=');
    NoneCounted(m.handle, '=');
  }

  /** As '=' is neither made nor lost, what arrives holds no other argument than the message's. */
  lemma ArgsOnly(p: Packet, q: Parsed)
    requires Sendable(p) && Deliverable(p)
    requires q == Parse(ShownLine(p)) && q.kind != Unknown && Interpret(q) == Received(p)
    ensures var a := ParsedAs(p, p.content.args).args;
            DistinctKeys(a) && forall i :: 0 <= i < |q.args| ==> q.args[i] in a
  {
    var m := ParsedAs(p, p.content.args);
    TextWeight(p, ArgEquals, TextEquals, '=');
    PlacedLack(p);
    FlagsLack(p);
    ParseWeight(ArgEquals, TextEquals, '=', ShownLine(p));
    ShownThin(p);
    ThinKeeps(MessageText(p), ShownLine(p), '=');
    InterpretedKind(p, q);
    ArgsArrive(p, q);
    FoundCovers(ArgEquals, m.args, q.args);
    CoverAll(ArgEquals, m.args, q.args);
  }

  // ---- Placed tokens ----

  lemma AddsHead(w: Walk, x: string)
    requires w.first && x != ""
    ensures Adds(w, x) != "" && Adds(w, x)[0] == x[0]
  {
  }

  /** A placed item whose value arrives is shown as written. */
  lemma PlacedForced(w: Walk, it: Item, z: string)
    requires it.Flat? && Fit(it) && it.Text() == it.Tok().value && w.first && Separated(z)
    requires var toks := Tokens(Adds(w, it.Text()) + z); toks != [] && toks[0].value == it.Text()
    ensures Intact(it, Adds(w, it.Text())) && ShownItem(w, it).Tok() == it.Tok()
    ensures Tokens(Adds(w, it.Text()) + z) == [it.Tok()] + Tokens(z)
  {
    var text := it.Text();
    var s := Adds(w, text);
    GoodKept(it);
    KeptHead(Plain, text, LookOther);
    AddsHead(w, text);
    AddsThin(w, text);
    forall c | c != '\n' ensures Count(text, c) == Count(s, c) {
      ThinKeeps(text, s, c);
    }
    WholeToken(s, z);
    Advance(s, z, it.Tok());
  }

  /** A placed item on one line is always shown as written. */
  lemma PlacedLine(w: Walk, it: Item, z: string)
    requires it.Flat? && Fit(it) && Lacks(it.Text(), '\n') && Separated(z)
    ensures Intact(it, Adds(w, it.Text())) && ShownItem(w, it).Tok() == it.Tok()
    ensures Tokens(Adds(w, it.Text()) + z) == [it.Tok()] + Tokens(z)
  {
    AddsText(w, it.Text());
    Advance(it.Text(), z, it.Tok());
  }

  lemma HandleLead(handle: string, look: Look)
    requires Atom(handle)
    ensures Run(START, "~" + (handle + ":"), look) == Scan(Plain, "~" + (handle + ":"), Handle, [])
  {
    var lead := "~" + (handle + ":");
    PlainVerbatim(":");
    BareIsVerbatim(handle);
    VerbatimConcat(handle, ":");
    BareIsVerbatim(handle + ":");
    HandleItem(handle + ":");
    SeamLook(START, lead, look);
  }

  lemma AddressLead(handle: string, rest: string, z: string) returns (y: string)
    requires Atom(handle)
    ensures var toks := Tokens("~" + (handle + ":") + rest + z);
            toks != [] && toks[0].value == "~" + (handle + ":") + y
  {
    var lead := "~" + (handle + ":");
    Assoc(lead, rest, z);
    RunSplit(START, lead, rest + z, LookOther);
    HandleLead(handle, Peek(rest + z, LookOther));
    var st := Scan(Plain, lead, Handle, []);
    TokenGrows(st, rest + z, LookOther);
    var r := Run(st, rest + z, LookOther);
    GrownFinish(st, r);
    y := Finish(r)[0].value[|lead|..];
    SplitPrefix(lead, Finish(r)[0].value);
  }

  /** An address whose command arrives is the first token's whole value. */
  lemma AddressValue(handle: string, command: string, s: string, z: string)
    requires Atom(handle) && Lacks(handle, ':') && Lacks(handle, '\n')
    requires Thin("~" + (handle + ":" + command), s)
    requires var toks := Tokens(s + z);
             && toks != [] && toks[0].kind == Handle && WellTyped(toks[0])
             && BuildFirst(FRESH, toks[0]).capability == command && command != ""
    ensures Tokens(s + z)[0].value == "~" + (handle + ":" + command)
  {
    var lead := "~" + (handle + ":");
    LeadText(handle, command);
    ThinAfter(lead, command, s);
    var y := AddressLead(handle, s[|lead|..], z);
    AddressName(handle, y, Tokens(s + z)[0]);
  }

  lemma LeadText(handle: string, command: string)
    ensures "~" + (handle + ":") + command == "~" + (handle + ":" + command)
  {
  }

  lemma AddressName(handle: string, y: string, t: Token)
    requires t.kind == Handle && t.value == "~" + (handle + ":") + y && Lacks(handle, ':')
    ensures WellTyped(t) && BuildFirst(FRESH, t).capability == y
  {
    var name := t.value[1..];
    assert name == handle + ":" + y;
    IndexOfUnique(name, ':', |handle|);
    assert name[|handle| + 1..] == y;
  }

  // ---- A whole message ----

  lemma FirstKindKept(toks: seq<Token>)
    requires AllWellTyped(toks) && toks != []
    ensures Build(FRESH, 0, toks).kind == HeadOf(toks, 1).kind
    ensures HeadOf(toks, 1).args == [] && HeadOf(toks, 1).flags == []
  {
    BuildHeadThen(toks, 1);
    BuildKeepsKind(HeadOf(toks, 1), 1, toks[1..]);
    assert WellTyped(toks[0]);
  }

  /** Outside a publish everything after the first token is arguments, flags and perhaps a handle. */
  lemma PlainParts(toks: seq<Token>)
    requires AllWellTyped(toks) && toks != [] && Build(FRESH, 0, toks).kind != Publish
    ensures AllWellTyped(toks[1..])
    ensures var q := Build(FRESH, 0, toks);
            && q.capability == HeadOf(toks, 1).capability
            && q.args == ArgsOf(toks[1..]) && q.flags == FlagsOf(toks[1..])
  {
    FirstKindKept(toks);
    BuildPlaced(toks, 1);
  }

  /** In a publish that has a topic it is the second token. */
  lemma TopicParts(toks: seq<Token>)
    requires AllWellTyped(toks) && toks != [] && Build(FRESH, 0, toks).kind == Publish
    requires Build(FRESH, 0, toks).capability != ""
    ensures |toks| >= 2 && AllWellTyped(toks[2..])
    ensures var q := Build(FRESH, 0, toks);
            && q.capability == toks[1].value
            && q.args == ArgsOf(toks[2..]) && q.flags == FlagsOf(toks[2..])
  {
    FirstKindKept(toks);
    BuildHeadThen(toks, 1);
    if |toks| >= 2 {
      assert WellTyped(toks[0]) && WellTyped(toks[1]);
      BuildPlaced(toks, 2);
    }
  }

  /** What the listener shows after the first item. */
  function AfterFirstItem(p: Packet): string {
    Adds(Along(BEGIN, FirstItem(p).Text()), Tail(Later(p)))
  }

  lemma ShownParts(p: Packet)
    requires Sendable(p)
    ensures ShownLine(p) == Adds(BEGIN, FirstItem(p).Text()) + AfterFirstItem(p) && Separated(AfterFirstItem(p))
  {
    var w := Along(BEGIN, FirstItem(p).Text());
    ShownThin(p);
    TextOfItems(p);
    AddsSplit(BEGIN, FirstItem(p).Text(), Tail(Later(p)));
    SpaceFirst(w, Later(p), "");
    assert AfterFirstItem(p) + "" == AfterFirstItem(p);
  }

  /** The message arrives from the frame's text. */
  ghost predicate ArrivesFrom(p: Packet, toks: seq<Token>) {
    && toks == Tokens(ShownLine(p)) && AllWellTyped(toks) && toks != []
    && Interpret(Build(FRESH, 0, toks)) == Received(p) && Build(FRESH, 0, toks).kind != Unknown
  }

  ghost predicate FirstTaken(p: Packet) {
    && Intact(FirstItem(p), Adds(BEGIN, FirstItem(p).Text()))
    && Tokens(ShownLine(p)) == [FirstItem(p).Tok()] + Tokens(AfterFirstItem(p))
  }

  lemma RequestValue(p: Packet, toks: seq<Token>)
    requires p.RequestPacket? && ArrivesFrom(p, toks)
    ensures toks[0].value == p.content.command
  {
    FirstKindKept(toks);
    PlainParts(toks);
    assert WellTyped(toks[0]);
  }

  lemma RequestFirst(p: Packet, toks: seq<Token>)
    requires p.RequestPacket? && Sendable(p) && Deliverable(p)
    requires toks == Tokens(ShownLine(p)) && toks != [] && toks[0].value == p.content.command
    ensures FirstTaken(p)
  {
    ShownParts(p);
    FirstFit(p);
    PlacedForced(BEGIN, FirstItem(p), AfterFirstItem(p));
  }

  lemma ArrivedCommand(p: Packet, q: Parsed)
    requires (p.ResponsePacket? || p.ErrorPacket?) && Interpret(q) == Received(p) && q.kind != Unknown
    ensures q.kind == Response && q.capability == p.content.command
  {
  }

  lemma FirstBuiltAs(toks: seq<Token>)
    requires AllWellTyped(toks) && toks != []
    ensures WellTyped(toks[0]) && HeadOf(toks, 1) == BuildFirst(FRESH, toks[0])
  {
    assert toks[0] in toks && toks[..1] == [toks[0]];
  }

  lemma AddressCapability(p: Packet, toks: seq<Token>)
    requires (p.ResponsePacket? || p.ErrorPacket?) && ArrivesFrom(p, toks)
    ensures WellTyped(toks[0]) && toks[0].kind == Handle
    ensures BuildFirst(FRESH, toks[0]).capability == p.content.command
  {
    ArrivedCommand(p, Build(FRESH, 0, toks));
    FirstKindKept(toks);
    PlainParts(toks);
    FirstBuiltAs(toks);
  }

  lemma AddressFirst(p: Packet, toks: seq<Token>)
    requires (p.ResponsePacket? || p.ErrorPacket?) && Sendable(p) && Deliverable(p) && Lacks(p.content.handle, '\n')
    requires toks == Tokens(ShownLine(p)) && toks != [] && WellTyped(toks[0]) && toks[0].kind == Handle
    requires BuildFirst(FRESH, toks[0]).capability == p.content.command
    ensures FirstTaken(p)
  {
    var text := FirstItem(p).Text();
    ShownParts(p);
    FirstFit(p);
    AddsThin(BEGIN, text);
    AddressValue(p.content.handle, p.content.command, Adds(BEGIN, text), AfterFirstItem(p));
    PlacedForced(BEGIN, FirstItem(p), AfterFirstItem(p));
  }

  lemma WordFirst(p: Packet)
    requires (p.WitnessPacket? || p.PublishPacket?) && Sendable(p) && Deliverable(p)
    ensures FirstTaken(p)
  {
    ShownParts(p);
    FirstFit(p);
    FixedWords();
    PlacedLine(BEGIN, FirstItem(p), AfterFirstItem(p));
  }

  lemma FirstForced(p: Packet, toks: seq<Token>)
    requires Sendable(p) && Deliverable(p) && PlainNames(p) && ArrivesFrom(p, toks)
    ensures FirstTaken(p)
  {
    match p
    case RequestPacket(_) =>
      RequestValue(p, toks);
      RequestFirst(p, toks);
    case ResponsePacket(_) =>
      AddressCapability(p, toks);
      AddressFirst(p, toks);
    case ErrorPacket(_, _, _) =>
      AddressCapability(p, toks);
      AddressFirst(p, toks);
    case _ => WordFirst(p);
  }

  // ---- The arguments and what stands before them ----

  lemma ArgItemSteady(k: string, v: string, a: seq<(string, string)>)
    requires SafeArg((k, v)) && Lacks(k, '\n') && (k, v) in a
    ensures Steady(ArgItem(k, v), a)
  {
    ArgItemFit(k, v);
    if '\n' !in v {
      EncodeOneLine(k, v);
    }
  }

  lemma {:induction false} ArgItemsSteady(args: Args, a: seq<(string, string)>)
    requires forall i :: 0 <= i < |args| ==> SafeArg(args[i]) && Lacks(args[i].0, '\n') && args[i] in a
    ensures AllSteady(ArgItems(args), a)
  {
    if args != [] {
      assert SafeArg(args[0]);
      ArgItemSteady(args[0].0, args[0].1, a);
      ArgItemsSteady(args[1..], a);
      SteadyCons(ArgItem(args[0].0, args[0].1), ArgItems(args[1..]), a);
    }
  }

  lemma SteadyCons(it: Item, items: seq<Item>, a: seq<(string, string)>)
    requires Steady(it, a) && AllSteady(items, a)
    ensures AllSteady([it] + items, a)
  {
    forall i | 0 <= i < |items| + 1 ensures Steady(([it] + items)[i], a) {
      assert i > 0 ==> Steady(items[i - 1], a);
    }
  }

  lemma SteadyAppend(x: seq<Item>, y: seq<Item>, a: seq<(string, string)>)
    requires AllSteady(x, a) && AllSteady(y, a)
    ensures AllSteady(x + y, a)
  {
    forall i | 0 <= i < |x + y| ensures Steady((x + y)[i], a) {
      if i < |x| {
        assert Steady(x[i], a);
      } else {
        assert Steady(y[i - |x|], a);
      }
    }
  }

  lemma {:induction false} FlagItemsSteady(flags: seq<string>, a: seq<(string, string)>)
    requires forall i :: 0 <= i < |flags| ==> PlainWord(flags[i]) && Lacks(flags[i], '\n')
    ensures AllSteady(FlagItems(flags), a)
  {
    if flags != [] {
      WordItem(flags[0]);
      FlagItemsSteady(flags[1..], a);
      SteadyCons(FlagItem(flags[0]), FlagItems(flags[1..]), a);
    }
  }

  lemma WordSteady(word: string, a: seq<(string, string)>)
    requires PlainWord(word) && Lacks(word, '\n')
    ensures Steady(FlagItem(word), a)
  {
    WordItem(word);
  }

  lemma NamedToken(name: string, value: string, t: Token)
    requires Lacks(name, '=') && t == Token(name + "=" + value, Arg)
    ensures NameOf(t) == name && ValueOf(t) == value
  {
    assert t.value[|name|] == '=' && t.value[..|name|] == name && t.value[|name| + 1..] == value;
    IndexOfUnique(t.value, '=', |name|);
  }

  lemma BareSteady(name: string, value: string, a: seq<(string, string)>)
    requires Bare(name) && Lacks(name, '=') && Lacks(name, '\n') && SafeBare(value) && (name, value) in a
    ensures Steady(BareItem(name, value), a)
  {
    BareItemGood(name, value);
    NamedFit(name, value, BareItem(name, value));
    NamedToken(name, value, BareItem(name, value).Tok());
  }

  lemma QuotedSteady(name: string, value: string, a: seq<(string, string)>)
    requires Bare(name) && Lacks(name, '=') && Lacks(name, '\n') && SafeQuoted(value) && (name, value) in a
    ensures Steady(QuotedItem(name, value), a)
  {
    QuotedItemGood(name, value);
    NamedFit(name, value, QuotedItem(name, value));
    NamedToken(name, value, QuotedItem(name, value).Tok());
    QuotedText(name, value);
  }

  lemma OptSteady(name: string, it: Item, a: seq<(string, string)>)
    requires name != "" ==> Steady(it, a)
    ensures AllSteady(OptItem(name, it), a)
  {
  }

  /** The items from the placed ones up to the flags at the end. */
  function Mid(p: Packet): seq<Item> {
    (if p.PublishPacket? then [] else NextItems(p)) + ArgItems(p.content.args)
  }

  lemma {:induction false} WithoutOneLine(flags: Flags, f: string)
    requires forall i :: 0 <= i < |flags| ==> Lacks(flags[i], '\n')
    ensures forall i :: 0 <= i < |Without(flags, f)| ==> Lacks(Without(flags, f)[i], '\n')
  {
    if flags != [] {
      WithoutOneLine(flags[1..], f);
    }
  }

  lemma OkSteady(a: seq<(string, string)>)
    ensures Steady(FlagItem("ok"), a)
  {
    SimpleWord("ok");
    WordSteady("ok", a);
  }

  lemma ErrorSteady(a: seq<(string, string)>)
    ensures Steady(FlagItem("error"), a)
  {
    SimpleWord("error");
    WordSteady("error", a);
  }

  lemma FlagsBefore(flags: Flags, f: string, a: seq<(string, string)>)
    requires SafeFlags(flags) && forall i :: 0 <= i < |flags| ==> Lacks(flags[i], '\n')
    ensures AllSteady(FlagItems(Without(flags, f)), a)
  {
    WithoutSafe(flags, f);
    WithoutOneLine(flags, f);
    FlagItemsSteady(Without(flags, f), a);
  }

  lemma ResponseNextSteady(flags: Flags, a: seq<(string, string)>)
    requires SafeFlags(flags) && forall i :: 0 <= i < |flags| ==> Lacks(flags[i], '\n')
    ensures AllSteady([FlagItem("ok")] + FlagItems(Without(flags, "ok")), a)
  {
    OkSteady(a);
    FlagsBefore(flags, "ok", a);
    SteadyCons(FlagItem("ok"), FlagItems(Without(flags, "ok")), a);
  }

  lemma NamesLack()
    ensures Lacks("code", '=') && Lacks("what", '=') && Lacks("body", '=')
    ensures Lacks("code", '\n') && Lacks("what", '\n') && Lacks("body", '\n')
  {
  }

  lemma CodeWhatSteady(code: string, what: string, a: seq<(string, string)>)
    requires SafeBare(code) && SafeQuoted(what) && ("code", code) in a && ("what", what) in a
    ensures AllSteady(OptItem(code, BareItem("code", code)) + OptItem(what, QuotedItem("what", what)), a)
  {
    PlainBare("code");
    PlainBare("what");
    NamesLack();
    BareSteady("code", code, a);
    QuotedSteady("what", what, a);
    OptSteady(code, BareItem("code", code), a);
    OptSteady(what, QuotedItem("what", what), a);
    SteadyAppend(OptItem(code, BareItem("code", code)), OptItem(what, QuotedItem("what", what)), a);
  }

  lemma ErrorNextSteady(code: string, what: string, a: seq<(string, string)>)
    requires SafeBare(code) && SafeQuoted(what) && ("code", code) in a && ("what", what) in a
    ensures AllSteady([FlagItem("error")]
                      + (OptItem(code, BareItem("code", code)) + OptItem(what, QuotedItem("what", what))), a)
  {
    ErrorSteady(a);
    CodeWhatSteady(code, what, a);
    SteadyCons(FlagItem("error"), OptItem(code, BareItem("code", code)) + OptItem(what, QuotedItem("what", what)), a);
  }

  lemma BodySteady(body: string, a: seq<(string, string)>)
    requires SafeQuoted(body) && ("body", body) in a
    ensures AllSteady(OptItem(body, QuotedItem("body", body)), a)
  {
    PlainBare("body");
    NamesLack();
    QuotedSteady("body", body, a);
    OptSteady(body, QuotedItem("body", body), a);
  }

  lemma HandleSteady(handle: string, a: seq<(string, string)>)
    requires Atom(handle) && Lacks(handle, '\n')
    ensures AllSteady([HandleWord(handle)], a)
  {
    HandleFit(handle);
  }

  lemma InAppend<T>(a: seq<T>, b: seq<T>)
    ensures forall i :: 0 <= i < |a| ==> a[i] in a + b
    ensures forall i :: 0 <= i < |b| ==> b[i] in a + b
  {
    forall i | 0 <= i < |b| ensures b[i] in a + b {
      assert (a + b)[|a| + i] == b[i];
    }
    forall i | 0 <= i < |a| ensures a[i] in a + b {
      assert (a + b)[i] == a[i];
    }
  }

  lemma InNamed(p: Packet)
    ensures var a := ParsedAs(p, p.content.args).args;
            && (forall i :: 0 <= i < |p.content.args| ==> p.content.args[i] in a)
            && (forall i :: 0 <= i < |AfterNext(p).args| ==> AfterNext(p).args[i] in a)
  {
    InAppend(AfterNext(p).args, p.content.args);
  }

  /** The fields a kind writes as arguments of its own. */
  lemma OwnNamed(p: Packet)
    requires Deliverable(p)
    ensures var before := AfterNext(p).args;
            && (p.ErrorPacket? ==> |before| == 2 && before[0] == ("code", p.code) && before[1] == ("what", p.what))
            && (p.WitnessPacket? ==> |before| == 1 && before[0] == ("body", p.body))
  {
  }

  lemma NextSteady(p: Packet)
    requires Sendable(p) && Deliverable(p) && PlainNames(p) && !p.PublishPacket?
    ensures AllSteady(NextItems(p), ParsedAs(p, p.content.args).args)
  {
    var a := ParsedAs(p, p.content.args).args;
    InNamed(p);
    OwnNamed(p);
    NextPlaced(p);
    match p
    case RequestPacket(c) => HandleSteady(c.handle, a);
    case ResponsePacket(c) => ResponseNextSteady(c.flags, a);
    case ErrorPacket(_, code, what) => ErrorNextSteady(code, what, a);
    case WitnessPacket(_, body) => BodySteady(body, a);
  }

  lemma MidSteady(p: Packet)
    requires Sendable(p) && Deliverable(p) && PlainNames(p)
    ensures AllSteady(Mid(p), ParsedAs(p, p.content.args).args)
  {
    var args, a := p.content.args, ParsedAs(p, p.content.args).args;
    InNamed(p);
    assert forall i :: 0 <= i < |args| ==> SafeArg(args[i]) && Lacks(args[i].0, '\n') && args[i] in a;
    ArgItemsSteady(args, a);
    if !p.PublishPacket? {
      NextSteady(p);
      SteadyAppend(NextItems(p), ArgItems(args), a);
    } else {
      assert [] + ArgItems(args) == ArgItems(args);
    }
  }

  // ---- The end of the message ----

  lemma {:induction false} FlagsOfAppend(a: seq<Token>, b: seq<Token>)
    ensures FlagsOf(a + b) == FlagsOf(a) + FlagsOf(b)
  {
    if a == [] {
      assert a + b == b;
    } else {
      assert (a + b)[1..] == a[1..] + b;
      FlagsOfAppend(a[1..], b);
      Assoc(if a[0].kind == Word then [a[0].value] else [], FlagsOf(a[1..]), FlagsOf(b));
    }
  }

  lemma {:induction false} SameFlags(a: seq<Token>, b: seq<Token>)
    requires AllSameRead(a, b)
    ensures FlagsOf(a) == FlagsOf(b)
    decreases a
  {
    if a != [] {
      assert SameRead(a[0], b[0]);
      forall i | 0 <= i < |a| - 1 ensures SameRead(a[1..][i], b[1..][i]) {
        assert SameRead(a[i + 1], b[i + 1]);
      }
      SameFlags(a[1..], b[1..]);
    }
  }

  ghost predicate OneLineEach(xs: seq<string>) {
    forall i :: 0 <= i < |xs| ==> Newlines(xs[i]) == 0
  }

  /** The words among steady items are on one line. */
  lemma {:induction false} SteadyWords(items: seq<Item>, a: seq<(string, string)>)
    requires AllSteady(items, a)
    ensures OneLineEach(FlagsOf(Toks(items)))
  {
    if items != [] {
      SteadyTail(items, a);
      SteadyWords(items[1..], a);
      GoodCount(items[0], '\n');
      if Lacks(items[0].Text(), '\n') {
        NoneCounted(items[0].Text(), '\n');
      }
    }
  }

  lemma CoversEnd(before: seq<string>, flags: seq<string>, words: seq<string>, more: seq<string>)
    requires Covers(Newlines, before + flags, words + more) && OneLineEach(words)
    ensures Covers(Newlines, flags, more)
  {
    var all := before + flags;
    forall i, j | 0 <= i < j < |flags| && Newlines(flags[i]) > 0 ensures flags[i] != flags[j] {
      assert all[|before| + i] == flags[i] && all[|before| + j] == flags[j];
    }
    forall i | 0 <= i < |flags| && Newlines(flags[i]) > 0 ensures flags[i] in more {
      assert all[|before| + i] == flags[i];
      var k :| 0 <= k < |words + more| && (words + more)[k] == flags[i];
      assert k >= |words|;
      assert more[k - |words|] == flags[i];
    }
  }

  /** Given the arguments and flags, all that follows the placed items is shown intact. */
  lemma EndForced(p: Packet, w: Walk)
    requires Sendable(p) && Deliverable(p) && PlainNames(p)
    requires var shown, m := Adds(w, Tail(Mid(p) + FlagItems(TailFlags(p)))), ParsedAs(p, p.content.args);
             && DistinctKeys(m.args) && Only(m.args, Tokens(shown))
             && Covers(Newlines, m.flags, FlagsOf(Tokens(shown)))
    ensures var items := Mid(p) + FlagItems(TailFlags(p)); AllIntact(items, ShownItems(w, items))
  {
    var mid, flags, m := Mid(p), FlagItems(TailFlags(p)), ParsedAs(p, p.content.args);
    var w' := Along(w, Tail(mid));
    var z := Adds(w', Tail(flags));
    EndText(w, mid, flags);
    MidSteady(p);
    ItemsForced(w, mid, z, m.args);
    SteadyWords(mid, m.args);
    SameFlags(Toks(mid), Toks(ShownItems(w, mid)));
    FlagsOfAppend(Toks(ShownItems(w, mid)), Tokens(z));
    CoversEnd(AfterNext(p).flags, TailFlags(p), FlagsOf(Toks(ShownItems(w, mid))), FlagsOf(Tokens(z)));
    FlagsForced(w', TailFlags(p));
    TailFlagsSafe(p);
    FlagItemsFit(TailFlags(p));
    WholeIntact(w', flags);
    IntactAppend(mid, ShownItems(w, mid), flags, ShownItems(w', flags));
    ShownItemsAppend(w, mid, flags);
  }

  lemma EndText(w: Walk, mid: seq<Item>, flags: seq<Item>)
    ensures var z := Adds(Along(w, Tail(mid)), Tail(flags));
            Separated(z) && Adds(w, Tail(mid + flags)) == Adds(w, Tail(mid)) + z
  {
    var z := Adds(Along(w, Tail(mid)), Tail(flags));
    TailAppend(mid, flags);
    AddsSplit(w, Tail(mid), Tail(flags));
    SpaceFirst(Along(w, Tail(mid)), flags, "");
    assert z + "" == z;
  }

  lemma LaterPlain(p: Packet)
    requires !p.PublishPacket?
    ensures Later(p) == Mid(p) + FlagItems(TailFlags(p))
  {
    Assoc(NextItems(p), ArgItems(p.content.args), FlagItems(TailFlags(p)));
  }

  lemma LaterPublish(p: Packet)
    requires p.PublishPacket? && p.topic != ""
    ensures Later(p) == [PlacedItem(p.topic)] + (Mid(p) + FlagItems(TailFlags(p)))
  {
    assert [] + ArgItems(p.content.args) == ArgItems(p.content.args);
  }

  lemma FieldsForced(p: Packet, toks: seq<Token>, n: nat)
    requires Sendable(p) && Deliverable(p) && ArrivesFrom(p, toks) && n <= |toks| && AllWellTyped(toks[n..])
    requires var q := Build(FRESH, 0, toks); q.args == ArgsOf(toks[n..]) && q.flags == FlagsOf(toks[n..])
    ensures var m := ParsedAs(p, p.content.args);
            && DistinctKeys(m.args) && Only(m.args, toks[n..])
            && Covers(Newlines, m.flags, FlagsOf(toks[n..]))
  {
    var q := Build(FRESH, 0, toks);
    ArgsOnly(p, q);
    InterpretedKind(p, q);
    FlagsArrive(p, q);
    FlagsCovered(ParsedAs(p, p.content.args).flags, q.flags);
  }

  lemma PlainForced(p: Packet, toks: seq<Token>)
    requires Sendable(p) && Deliverable(p) && PlainNames(p) && !p.PublishPacket? && ArrivesFrom(p, toks)
    ensures IntactMessage(p)
  {
    var w := Along(BEGIN, FirstItem(p).Text());
    FirstForced(p, toks);
    assert toks[1..] == Tokens(AfterFirstItem(p));
    NotPublish(p, toks);
    PlainParts(toks);
    FieldsForced(p, toks, 1);
    LaterPlain(p);
    EndForced(p, w);
    IntactSplit(FirstItem(p), Later(p), ShownItem(BEGIN, FirstItem(p)), ShownItems(w, Later(p)));
  }

  lemma NotPublish(p: Packet, toks: seq<Token>)
    requires !p.PublishPacket? && ArrivesFrom(p, toks)
    ensures Build(FRESH, 0, toks).kind != Publish
  {
  }

  /** What follows the topic of a publish. */
  function RestOfPublish(p: Packet): seq<Item> {
    Mid(p) + FlagItems(TailFlags(p))
  }

  lemma TopicText(p: Packet, w: Walk)
    requires p.PublishPacket? && p.topic != ""
    ensures var more := Adds(Along(w, " " + p.topic), Tail(RestOfPublish(p)));
            && Separated(more)
            && Tokens(Adds(w, Tail(Later(p)))) == Tokens(Adds(Along(w, " "), p.topic) + more)
  {
    var more := Adds(Along(w, " " + p.topic), Tail(RestOfPublish(p)));
    LaterPublish(p);
    NextItem(w, PlacedItem(p.topic), RestOfPublish(p), "");
    assert Adds(w, Tail(Later(p))) + "" == Adds(w, Tail(Later(p))) && more + "" == more;
    SpaceFirst(Along(w, " " + p.topic), RestOfPublish(p), "");
  }

  lemma StillFirst(w: Walk, l: string)
    requires w.first && Lacks(l, '\n')
    ensures Along(Along(w, l), " ").first
  {
    AlongText(w, l);
    AlongText(Along(w, l), " ");
  }

  /** The topic of a publish that arrives is shown as written. */
  lemma TopicForced(p: Packet, w: Walk, toks: seq<Token>)
    requires Sendable(p) && Deliverable(p) && p.PublishPacket? && Along(w, " ").first
    requires toks == Tokens(Adds(w, Tail(Later(p)))) && toks != [] && toks[0].value == p.topic
    ensures Intact(PlacedItem(p.topic), ShownItem(Along(w, " "), PlacedItem(p.topic)).Text())
    ensures toks[1..] == Tokens(Adds(Along(w, " " + p.topic), Tail(RestOfPublish(p))))
  {
    var more := Adds(Along(w, " " + p.topic), Tail(RestOfPublish(p)));
    TopicText(p, w);
    TopicFit(p.topic);
    PlacedForced(Along(w, " "), PlacedItem(p.topic), more);
    assert ([PlacedItem(p.topic).Tok()] + Tokens(more))[1..] == Tokens(more);
  }

  lemma PublishIntact(p: Packet, w: Walk)
    requires p.PublishPacket? && p.topic != ""
    requires w == Along(BEGIN, FirstItem(p).Text())
    requires Intact(FirstItem(p), Adds(BEGIN, FirstItem(p).Text()))
    requires Intact(PlacedItem(p.topic), ShownItem(Along(w, " "), PlacedItem(p.topic)).Text())
    requires AllIntact(RestOfPublish(p), ShownItems(Along(w, " " + p.topic), RestOfPublish(p)))
    ensures IntactMessage(p)
  {
    var it, rest, w' := PlacedItem(p.topic), RestOfPublish(p), Along(w, " " + p.topic);
    LaterPublish(p);
    IntactSplit(it, rest, ShownItem(Along(w, " "), it), ShownItems(w', rest));
    assert Later(p)[1..] == rest;
    IntactSplit(FirstItem(p), Later(p), ShownItem(BEGIN, FirstItem(p)), ShownItems(w, Later(p)));
  }

  lemma PublishForced(p: Packet, toks: seq<Token>)
    requires Sendable(p) && Deliverable(p) && PlainNames(p) && p.PublishPacket? && ArrivesFrom(p, toks)
    ensures IntactMessage(p)
  {
    var w := Along(BEGIN, FirstItem(p).Text());
    FirstForced(p, toks);
    TopicIsSecond(p, toks);
    FixedWords();
    StillFirst(BEGIN, FirstItem(p).Text());
    assert toks[1..] == Tokens(AfterFirstItem(p));
    TopicForced(p, w, toks[1..]);
    assert toks[2..] == toks[1..][1..];
    FieldsForced(p, toks, 2);
    EndForced(p, Along(w, " " + p.topic));
    PublishIntact(p, w);
  }

  lemma TopicIsSecond(p: Packet, toks: seq<Token>)
    requires p.PublishPacket? && Deliverable(p) && ArrivesFrom(p, toks)
    ensures |toks| >= 2 && AllWellTyped(toks[2..]) && toks[1].value == p.topic
    ensures var q := Build(FRESH, 0, toks); q.args == ArgsOf(toks[2..]) && q.flags == FlagsOf(toks[2..])
  {
    TopicArrives(p, Build(FRESH, 0, toks));
    PublishKind(p, Build(FRESH, 0, toks));
    TopicParts(toks);
  }

  lemma PublishKind(p: Packet, q: Parsed)
    requires p.PublishPacket? && q.kind != Unknown && Interpret(q) == Received(p)
    ensures q.kind == Publish
  {
  }

  // ---- Both kinds of message ----

  /** Messages without blocks, and messages with their names on one line. */
  ghost predicate Forced(p: Packet) {
    NoBlocks(p) || PlainNames(p)
  }

  /** If such a message arrives, it was shown intact, wherever its lines were joined. */
  lemma ArrivalForced(p: Packet, q: Parsed)
    requires Sendable(p) && Deliverable(p) && Forced(p)
    requires q == Parse(ShownLine(p)) && q.kind != Unknown && Interpret(q) == Received(p)
    ensures IntactMessage(p)
  {
    var toks := Tokens(ShownLine(p));
    TokensWellTyped(ShownLine(p));
    if NoBlocks(p) {
      NoBlocksForced(p, q);
      WholeIsIntact(p);
    } else if p.PublishPacket? {
      PublishForced(p, toks);
    } else {
      PlainForced(p, toks);
    }
  }
}
