/** At clean seams: a message that arrives was shown intact. */
module SeamArrivals {
  import opened Strings
  import opened Scanner
  import opened ScannerLaws
  import opened Parsing
  import opened Wire
  import opened Items
  import opened Rendering
  import opened PacketParse
  import opened Framing
  import opened Dispatch
  import opened MessageFraming
  import opened StreamMessages
  import opened StreamRoundTrip
  import opened ThinScan
  import opened TokenReads
  import opened IntactItems
  import opened MessageTokens

  // ---- Placed tokens ----

  /** The placed tokens are those of the message if the placed fields are. */
  lemma RequestPlaced(c: Content, toks: seq<Token>, toks': seq<Token>)
    requires |toks| >= 2 && ThinTokens(toks, toks') && AllWellTyped(toks')
    requires toks[0].value == c.command && toks[0].kind != Handle && toks[1] == Token("~" + c.handle, Handle)
    requires var head := HeadOf(toks', 2);
             head.kind == Request && head.capability == c.command && head.handle == c.handle
    ensures PlacedSame(toks, toks', 2) && HeadOf(toks', 2).args == [] && HeadOf(toks', 2).flags == []
  {
    var t := toks'[1];
    assert ThinToken(toks[0], toks'[0]) && ThinToken(toks[1], t) && WellTyped(t) && WellTyped(toks'[0]);
    assert t.value == "~" + t.value[1..];
  }

  lemma AddressPlaced(c: Content, toks: seq<Token>, toks': seq<Token>)
    requires toks != [] && ThinTokens(toks, toks') && AllWellTyped(toks')
    requires toks[0] == Token("~" + (c.handle + ":" + c.command), Handle) && c.command != ""
    requires var head := HeadOf(toks', 1); head.capability == c.command && head.handle == c.handle
    ensures PlacedSame(toks, toks', 1)
    ensures var head := HeadOf(toks', 1); head.args == [] && head.flags == [] && head.kind == Response
  {
    var t := toks'[0];
    assert ThinToken(toks[0], t) && WellTyped(t);
    var name := t.value[1..];
    assert t.value == "~" + name;
    SplitAtColon(name, c.handle, c.command);
  }

  lemma PublishPlaced(toks: seq<Token>, toks': seq<Token>)
    requires |toks| >= 2 && ThinTokens(toks, toks') && AllWellTyped(toks) && AllWellTyped(toks')
    requires Lacks(toks[0].value, '\n') && HeadOf(toks, 2).kind == Publish
    requires HeadOf(toks, 2).args == [] && HeadOf(toks, 2).flags == []
    requires HeadOf(toks', 2).capability == toks[1].value
    ensures PlacedSame(toks, toks', 2) && HeadOf(toks', 2).args == [] && HeadOf(toks', 2).flags == []
  {
    WordPlaced(toks, toks');
    assert ThinToken(toks[1], toks'[1]) && toks'[0] == toks[0];
  }

  // ---- Arrival is intactness ----

  lemma ThinDrop(toks: seq<Token>, toks': seq<Token>, n: nat)
    requires ThinTokens(toks, toks') && n <= |toks|
    ensures ThinTokens(toks[n..], toks'[n..])
    ensures NoHandle(toks[n..]) ==> NoHandle(toks'[n..])
  {
    forall i | 0 <= i < |toks| - n ensures ThinToken(toks[n..][i], toks'[n..][i]) {
      assert ThinToken(toks[n + i], toks'[n + i]);
    }
    if NoHandle(toks[n..]) {
      forall t | t in toks'[n..] ensures t.kind != Handle {
        var i :| 0 <= i < |toks'[n..]| && toks'[n..][i] == t;
        assert toks[n..][i] in toks[n..];
      }
    }
  }

  lemma JoinSame(toks: seq<Token>, toks': seq<Token>, n: nat)
    requires n <= |toks| && |toks'| == |toks|
    requires PlacedSame(toks, toks', n) && AllSameRead(toks[n..], toks'[n..])
    ensures AllSameRead(toks, toks')
  {
    forall i | 0 <= i < |toks| ensures SameRead(toks[i], toks'[i]) {
      if i >= n {
        assert SameRead(toks[n..][i - n], toks'[n..][i - n]);
      }
    }
  }

  /** Thin tokens that deliver the message. */
  ghost predicate Arriving(p: Packet, toks: seq<Token>, toks': seq<Token>) {
    && PlacedBy(p, toks) && ThinTokens(toks, toks') && AllWellTyped(toks')
    && var q := Build(FRESH, 0, toks'); q.kind != Unknown && Interpret(q) == Received(p)
  }

  /** Their placed tokens are the message's. */
  ghost predicate PlacedBack(toks: seq<Token>, toks': seq<Token>, n: nat)
    requires AllWellTyped(toks') && 1 <= n <= 2 && n <= |toks| && n <= |toks'|
  {
    && PlacedSame(toks, toks', n)
    && var head := HeadOf(toks', n); head.args == [] && head.flags == [] && (n == 1 ==> head.kind != Publish)
  }

  lemma RequestArrives(c: Content, toks: seq<Token>, toks': seq<Token>)
    requires Arriving(RequestPacket(c), toks, toks') && Deliverable(RequestPacket(c)) && Sendable(RequestPacket(c))
    ensures PlacedBack(toks, toks', 2)
  {
    ThinDrop(toks, toks', 2);
    HeadKept(toks', 2);
    NotHandleToken(c.command);
    RequestPlaced(c, toks, toks');
  }

  lemma AddressArrives(p: Packet, toks: seq<Token>, toks': seq<Token>)
    requires (p.ResponsePacket? || p.ErrorPacket?) && Arriving(p, toks, toks') && Deliverable(p)
    ensures PlacedBack(toks, toks', 1)
  {
    ThinDrop(toks, toks', 1);
    HeadKept(toks', 1);
    assert ThinToken(toks[0], toks'[0]);
    AddressPlaced(p.content, toks, toks');
  }

  lemma WitnessArrives(p: Packet, toks: seq<Token>, toks': seq<Token>)
    requires p.WitnessPacket? && PlacedBy(p, toks) && ThinTokens(toks, toks') && AllWellTyped(toks')
    ensures PlacedBack(toks, toks', 1)
  {
    FixedWords();
    WordPlaced(toks, toks');
    SameHeadKind(toks, toks', 1);
  }

  lemma PublishArrives(p: Packet, toks: seq<Token>, toks': seq<Token>)
    requires p.PublishPacket? && PlacedBy(p, toks) && ThinTokens(toks, toks') && AllWellTyped(toks')
    requires Build(FRESH, 0, toks').capability == p.topic
    ensures PlacedBack(toks, toks', 2)
  {
    FixedWords();
    ThinDrop(toks, toks', 2);
    HeadKept(toks', 2);
    PublishPlaced(toks, toks');
  }

  /** The placed tokens of what arrives. */
  lemma PlacedArrive(p: Packet, toks: seq<Token>, toks': seq<Token>)
    requires Sendable(p) && Deliverable(p) && Arriving(p, toks, toks')
    ensures PlacedBack(toks, toks', Placed(p))
  {
    match p
    case RequestPacket(c) => RequestArrives(c, toks, toks');
    case ResponsePacket(_) => AddressArrives(p, toks, toks');
    case ErrorPacket(_, _, _) => AddressArrives(p, toks, toks');
    case WitnessPacket(_, _) => WitnessArrives(p, toks, toks');
    case PublishPacket(_, _) =>
      TopicArrives(p, Build(FRESH, 0, toks'));
      PublishArrives(p, toks, toks');
  }

  /** If thin tokens deliver the message, then each of them reads as it did. */
  lemma ArrivalSameRead(p: Packet, toks: seq<Token>, toks': seq<Token>)
    requires Sendable(p) && Deliverable(p) && Arriving(p, toks, toks')
    ensures AllSameRead(toks, toks')
  {
    var n, q, q' := Placed(p), Build(FRESH, 0, toks), Build(FRESH, 0, toks');
    PlacedArrive(p, toks, toks');
    ThinDrop(toks, toks', n);
    RestTyped(toks, n);
    RestTyped(toks', n);
    SameHeadKind(toks, toks', n);
    BuildPlaced(toks, n);
    BuildPlaced(toks', n);
    ThinFields(toks[n..], toks'[n..]);
    assert q.args == SansProps(q).args && q.flags == SansProps(q).flags;
    InterpretedKind(p, q');
    ArgsArrive(p, q');
    FoundCovers(ArgNewlines, q.args, q'.args);
    FlagsArrive(p, q');
    FlagsCovered(q.flags, q'.flags);
    ArgsAllThere(q.args, q'.args);
    FlagsAllThere(q.flags, q'.flags);
    SameFieldsSameRead(toks[n..], toks'[n..]);
    JoinSame(toks, toks', n);
  }

  lemma ThinToks(items: seq<Item>, shown: seq<Item>)
    requires ThinItems(items, shown)
    ensures ThinTokens(Toks(items), Toks(shown))
  {
    ToksLength(items);
    ToksLength(shown);
    forall i | 0 <= i < |items| ensures ThinToken(Toks(items)[i], Toks(shown)[i]) {
      TokAt(items, i);
      TokAt(shown, i);
    }
  }

  lemma SeamTokens(p: Packet)
    requires Sendable(p) && Deliverable(p) && CleanSeams(MessageLines(p))
    ensures var items, shown := MessageItems(p), ShownAll(MessageItems(p));
            && SeamsOk(BEGIN, Line(items)) && AllGood(shown) && AllWellTyped(Toks(shown))
            && ThinTokens(Toks(items), Toks(shown)) && Tokens(ShownLine(p)) == Toks(shown)
  {
    var items := MessageItems(p);
    MessageFit(p);
    MessageIsText(p);
    SeamsOfLines(BEGIN, MessageText(p));
    ShownLineItems(items);
    ShownIsLine(p);
    LineTokens(ShownAll(items));
    ToksWellTyped(ShownAll(items));
    ThinToks(items, ShownAll(items));
  }

  /** At clean seams only an intact message is delivered as one-shot reading would give it. */
  lemma DeliveredIsIntact(p: Packet)
    requires Sendable(p) && Deliverable(p) && CleanSeams(MessageLines(p))
    requires OutcomeOf(Frame(ShownLine(p), Serialized(p))) == Delivered(Received(p), Serialized(p))
    ensures IntactMessage(p)
  {
    SeamTokens(p);
    MessagePlaced(p);
    MessageFit(p);
    ShownAllIntact(MessageItems(p));
    DeliveredParse(p, ShownLine(p), Serialized(p));
    ArrivalSameRead(p, Toks(MessageItems(p)), Toks(ShownAll(MessageItems(p))));
  }
}
