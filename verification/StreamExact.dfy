/** Exactly which messages a listener delivers as one-shot reading would give them. */
module StreamExact {
  import opened Strings
  import opened Scanner
  import opened Parsing
  import opened Wire
  import opened Items
  import opened Rendering
  import opened PacketParse
  import opened RoundTrip
  import opened Framing
  import opened FrameGrammar
  import opened Dispatch
  import opened MessageFraming
  import opened StreamMessages
  import opened StreamRoundTrip
  import opened ThinScan
  import opened TokenReads
  import opened IntactItems
  import opened MessageTokens
  import opened SeamArrivals
  import opened ForcedArrivals

  /** Text shown intact builds the fields of the message. */
  lemma IntactParses(p: Packet, toks: seq<Token>, toks': seq<Token>)
    requires Sendable(p) && Deliverable(p) && PlacedBy(p, toks)
    requires AllSameRead(toks, toks') && AllWellTyped(toks') && PlacedSame(toks, toks', Placed(p))
    ensures SansProps(Build(FRESH, 0, toks')) == ParsedAs(p, p.content.args)
  {
    RestTyped(toks, 1);
    RestTyped(toks', 1);
    assert toks'[0] == toks[0];
    forall i | 0 <= i < |toks| - 1 ensures SameRead(toks[1..][i], toks'[1..][i]) {
      assert SameRead(toks[i + 1], toks'[i + 1]);
    }
    FirstKind(p, toks);
    var first := BuildFirst(FRESH, toks[0]);
    BuildHeadThen(toks, 1);
    BuildHeadThen(toks', 1);
    BuildSame(first, first, 1, toks[1..], toks'[1..]);
  }

  lemma FlatsSame(items: seq<Item>, shown: seq<Item>, n: nat)
    requires AllFit(items) && AllGood(shown) && AllIntact(items, shown) && 1 <= n <= 2 && n <= |items|
    requires items[0].Flat? && (n == 2 ==> items[1].Flat?)
    ensures |Toks(items)| == |items| && |Toks(shown)| == |items|
    ensures PlacedSame(Toks(items), Toks(shown), n)
  {
    ToksLength(items);
    ToksLength(shown);
    SameFlat(items, shown, 0);
    if n == 2 {
      SameFlat(items, shown, 1);
    }
  }

  /** Placed items that are intact are the same tokens. */
  lemma IntactPlaced(p: Packet)
    requires Sendable(p) && Deliverable(p) && IntactMessage(p)
    requires AllGood(ShownAll(MessageItems(p)))
    ensures var items := MessageItems(p);
            && |Toks(items)| == |items| && |Toks(ShownAll(items))| == |items| && Placed(p) <= |items|
            && PlacedSame(Toks(items), Toks(ShownAll(items)), Placed(p))
  {
    MessageFit(p);
    PlacedItems(p);
    FlatsSame(MessageItems(p), ShownAll(MessageItems(p)), Placed(p));
  }

  lemma SameFlat(items: seq<Item>, shown: seq<Item>, i: nat)
    requires AllFit(items) && AllGood(shown) && AllIntact(items, shown)
    requires i < |items| && items[i].Flat?
    ensures i < |Toks(items)| && i < |Toks(shown)| && Toks(shown)[i] == Toks(items)[i]
  {
    TokAt(items, i);
    TokAt(shown, i);
    assert Intact(items[i], shown[i].Text()) && Fit(items[i]);
    assert shown[i] in shown;
    SameText(items[i], shown[i]);
  }

  lemma SameText(it: Item, shown: Item)
    requires it.Good() && shown.Good() && shown.Text() == it.Text()
    ensures shown.Tok() == it.Tok()
  {
  }

  /** The tokens of a message shown intact. */
  lemma IntactTokens(p: Packet)
    requires Sendable(p) && Deliverable(p) && IntactMessage(p)
    ensures var shown := ShownAll(MessageItems(p));
            && AllGood(shown) && AllSameRead(Toks(MessageItems(p)), Toks(shown)) && AllWellTyped(Toks(shown))
            && Tokens(ShownLine(p)) == Toks(shown) && ShownLine(p) != ""
  {
    var items := MessageItems(p);
    MessageFit(p);
    ShownAllIntactGood(items);
    ShownIsLine(p);
    LineTokens(ShownAll(items));
    ToksWellTyped(ShownAll(items));
    GoodText(ShownAll(items)[0]);
  }

  /** A message shown intact is delivered as one-shot reading would give it. */
  lemma IntactDelivers(p: Packet)
    requires Sendable(p) && Deliverable(p) && IntactMessage(p)
    ensures ShownLine(p) != ""
    ensures OutcomeOf(Frame(ShownLine(p), Serialized(p))) == Delivered(Received(p), Serialized(p))
  {
    IntactTokens(p);
    MessagePlaced(p);
    IntactPlaced(p);
    IntactParses(p, Toks(MessageItems(p)), Toks(ShownAll(MessageItems(p))));
    SendableApart(p);
    assert WithArgs(p, p.content.args) == p;
    ParsedIsDelivered(p, p.content.args, ShownLine(p));
  }

  /** A message of which it is known that it arrives only if shown intact: newlines are lost at clean seams, or no
      value breaks lines, or keys, the handle and flags before the arguments do not. */
  ghost predicate Traceable(p: Packet) {
    CleanSeams(MessageLines(p)) || Forced(p)
  }

  ghost predicate DeliversWhole(p: Packet) {
    OutcomeOf(Frame(ShownLine(p), Serialized(p))) == Delivered(Received(p), Serialized(p))
  }

  lemma WholeIsIntactOnly(p: Packet)
    requires Sendable(p) && Deliverable(p) && Traceable(p) && DeliversWhole(p)
    ensures IntactMessage(p)
  {
    if CleanSeams(MessageLines(p)) {
      DeliveredIsIntact(p);
    } else {
      DeliveredParse(p, ShownLine(p), Serialized(p));
      ArrivalForced(p, Parse(ShownLine(p)));
    }
  }

  /** The frame of a message delivers it as one-shot reading would give it if, and for traceable messages only if, it
      is intact. */
  lemma FrameReported(p: Packet)
    requires Sendable(p) && Deliverable(p)
    ensures IntactMessage(p) ==> DeliversWhole(p)
    ensures Traceable(p) ==> (DeliversWhole(p) <==> IntactMessage(p))
  {
    if IntactMessage(p) {
      IntactDelivers(p);
    } else if Traceable(p) && DeliversWhole(p) {
      WholeIsIntactOnly(p);
    }
  }

  lemma HeardFrame(p: Packet)
    requires Sendable(p) && IsFrame(MessageLines(p))
    ensures Heard(p) == [OutcomeOf(Frame(ShownLine(p), Serialized(p)))]
  {
    var shown := Frame(ShownLine(p), Serialized(p));
    ShownNotEmpty(p);
    ReceiveMessage(Stream(IDLE, ""), p);
    NothingAdded(MessageFrames(p));
    ReportsThenBlank(shown, []);
    NothingAdded([OutcomeOf(shown)]);
  }

  lemma InOne<T>(x: T, y: T)
    ensures x in [y] <==> x == y
  {
  }

  /** The listener delivers what one-shot reading would give if the message's lines are one frame that shows every item
      intact; of a traceable message, only if so. */
  lemma StreamKeepsMessageIff(p: Packet)
    requires Sendable(p) && Deliverable(p)
    ensures IsFrame(MessageLines(p)) && IntactMessage(p) ==> Heard(p) == [Delivered(Received(p), Serialized(p))]
    ensures Traceable(p) ==>
              (Delivered(Received(p), Serialized(p)) in Heard(p) <==> IsFrame(MessageLines(p)) && IntactMessage(p))
  {
    if IsFrame(MessageLines(p)) {
      HeardFrame(p);
      InOne(Delivered(Received(p), Serialized(p)), OutcomeOf(Frame(ShownLine(p), Serialized(p))));
      FrameReported(p);
    } else if Delivered(Received(p), Serialized(p)) in Heard(p) {
      HeardNeedsFrame(p, Received(p));
    }
  }

  /** Orderly messages, however many blocks they hold, lose newlines at clean seams only. */
  lemma OrderlyCleanSeams(p: Packet)
    requires Sendable(p) && Orderly(p)
    ensures CleanSeams(MessageLines(p))
  {
    var head, args := Head(p), ArgItems(p.content.args);
    var items := args + FlagItems(TailFlags(p));
    ItemsOrderly(p);
    assert Here(BEGIN) + head == head;
    KeepsSeams(BEGIN, head);
    ItemsSeams(Along(BEGIN, head), items);
    SeamsJoin(BEGIN, head, Tail(items));
    TextFromHead(p, args);
    MessageIsText(p);
    LinesOfSeams(BEGIN, MessageText(p));
  }

  /** An orderly message is intact exactly when it keeps every newline or no later block begins with one. */
  lemma OrderlyIntactIff(p: Packet)
    requires Sendable(p) && Deliverable(p) && Orderly(p) && IsFrame(MessageLines(p))
    ensures IntactMessage(p) <==> KeepsNewlines(p) || LaterBlocksFlush(p.content.args)
  {
    OrderlyCleanSeams(p);
    OrderlyKeepsIff(p);
    StreamKeepsMessageIff(p);
  }

  // ---- Streams of messages ----

  /** A deliverable message whose lines are one frame. */
  ghost predicate Clear(p: Packet) {
    Framed(p) && Deliverable(p)
  }

  ghost predicate AllClear(ps: seq<Packet>) {
    forall i :: 0 <= i < |ps| ==> Clear(ps[i])
  }

  /** An intact message is reported as one-shot reading would give it, and of the traceable ones no other. */
  ghost predicate Reported(outcome: Outcome, p: Packet) {
    && (IntactMessage(p) ==> outcome == Delivered(Received(p), Serialized(p)))
    && (Traceable(p) ==> (outcome == Delivered(Received(p), Serialized(p)) <==> IntactMessage(p)))
  }

  /** One report for each message, in order. */
  ghost predicate AllReported(reports: seq<Outcome>, ps: seq<Packet>)
    decreases ps
  {
    if ps == [] then reports == []
    else reports != [] && Reported(reports[0], ps[0]) && AllReported(reports[1..], ps[1..])
  }

  lemma ClearReported(p: Packet, frames: seq<Frame>)
    requires Clear(p)
    ensures var outcome := OutcomeOf(Frame(ShownLine(p), Serialized(p)));
            Reported(outcome, p) && Reports(MessageFrames(p) + frames) == [outcome] + Reports(frames)
  {
    ShownNotEmpty(p);
    ReportsThenBlank(Frame(ShownLine(p), Serialized(p)), frames);
    FrameReported(p);
  }

  lemma AllClearTail(ps: seq<Packet>)
    requires ps != [] && AllClear(ps)
    ensures Clear(ps[0]) && AllClear(ps[1..])
  {
    forall i | 0 <= i < |ps[1..]| ensures Clear(ps[1..][i]) {
      assert ps[1..][i] == ps[i + 1];
      assert Clear(ps[i + 1]);
    }
  }

  lemma {:induction false} StreamReported(ps: seq<Packet>)
    requires AllClear(ps)
    ensures AllReported(Reports(StreamFrames(ps)), ps)
  {
    if ps != [] {
      AllClearTail(ps);
      StreamReported(ps[1..]);
      ClearReported(ps[0], StreamFrames(ps[1..]));
      var outcome := OutcomeOf(Frame(ShownLine(ps[0]), Serialized(ps[0])));
      SeqTail(outcome, Reports(StreamFrames(ps[1..])));
    }
  }

  lemma SeqTail<T>(x: T, xs: seq<T>)
    ensures ([x] + xs)[0] == x && ([x] + xs)[1..] == xs
  {
  }

  lemma ClearFramed(ps: seq<Packet>)
    requires AllClear(ps)
    ensures AllFramed(ps)
  {
    forall i | 0 <= i < |ps| ensures Framed(ps[i]) {
      assert Clear(ps[i]);
    }
  }

  /** Of every sequence of such messages, cut in any chunks, each is heard once and in order, and exactly the intact
      ones are heard as one-shot reading would give them. */
  lemma StreamKeepsIntact(ps: seq<Packet>, chunks: seq<string>)
    requires AllClear(ps) && Concat(chunks) == WireOf(ps)
    ensures var st := ReceiveAll(Stream(IDLE, ""), chunks);
            IsIdle(st) && AllReported(Reports(st.assembly.frames), ps)
  {
    ClearFramed(ps);
    StreamCompletes(ps, chunks);
    StreamReported(ps);
  }
}
