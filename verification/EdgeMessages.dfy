/** Messages at the edges of the framing rules. */
module EdgeMessages {
  import opened Strings
  import opened Ordered
  import opened BareText
  import opened Wire
  import opened Items
  import opened Forms
  import opened Rendering
  import opened RoundTrip
  import opened Framing
  import opened FramingLaws
  import opened FrameGrammar
  import opened FrameText
  import opened Dispatch
  import opened MessageFraming
  import opened StreamMessages
  import opened StreamRoundTrip
  import opened Silence
  import opened Delivery

  /** A request of letters with the given arguments. */
  function Asking(args: Args): Packet {
    RequestPacket(Content("c", "h", args, []))
  }

  lemma AskingText(args: Args)
    ensures Head(Asking(args)) == "c ~h" && MessageText(Asking(args)) == "c ~h" + Tail(ArgItems(args))
  {
    LetterHead(Asking(args));
    TextFromHead(Asking(args), ArgItems(args));
    assert ArgItems(args) + FlagItems([]) == ArgItems(args);
  }

  /** A letter for a key, and a value without carriage returns that reads back. */
  ghost predicate Askable(arg: (string, string)) {
    |arg.0| == 1 && 'a' <= arg.0[0] <= 'z' && Representable(arg.1) && Lacks(arg.1, '\r')
  }

  lemma AskingSendable(args: Args)
    requires SortedKeys(args) && forall i :: 0 <= i < |args| ==> Askable(args[i])
    ensures var p := Asking(args); Sendable(p) && Deliverable(p) && FromRaw(p, Serialized(p)) == Some(p)
  {
    var p := Asking(args);
    LetterWord("c");
    LetterWord("h");
    forall i | 0 <= i < |args| ensures Atom(args[i].0) && Lacks(args[i].0, '\r') {
      assert Askable(args[i]);
      LetterWord(args[i].0);
    }
    ReturnFreeText(p);
    OneShotRoundTrip(p);
  }

  // ---- A last line that opens another block ----

  /** A block, and after it a value in quotes. */
  function Reopening(v: string, w: string): Packet {
    Asking([("a", v), ("b", w)])
  }

  lemma ReopeningArgs(v: string, w: string)
    requires Multi(v) && Lacks(v, '>') && Lacks(v, '\r') && Quotable(w)
    ensures var args := [("a", v), ("b", w)];
            && SortedKeys(args) && Askable(args[0]) && Askable(args[1])
            && OrderlyArg(args[0]) && OrderlyArg(args[1])
  {
    assert Before("a", "b");
    BlockValueSafe("a", v);
    StreamArgOrderly(("a", v));
  }

  lemma FirstArgText(k: string, v: string, args: Args)
    ensures Tail(ArgItems([(k, v)] + args)) == " " + ArgItem(k, v).Text() + Tail(ArgItems(args))
  {
    assert ([(k, v)] + args)[1..] == args;
    ConsText(ArgItem(k, v), ArgItems(args));
  }

  lemma LastArgText(k: string, v: string)
    ensures Tail(ArgItems([(k, v)])) == " " + ArgItem(k, v).Text()
  {
    var text := " " + ArgItem(k, v).Text();
    FirstArgText(k, v, []);
    assert [(k, v)] + [] == [(k, v)] && text + "" == text;
  }

  /** The line of a block's end and of a quoted value after it. */
  function LastLineText(w: string): string {
    ">>" + (" " + ("b" + "=") + ("\"" + w + "\""))
  }

  lemma ReopeningText(v: string, w: string)
    requires Multi(v) && Quotable(w)
    ensures MessageText(Reopening(v, w))
         == "c ~h" + (" " + BlockArg("a", v).Text() + (" " + ("b" + "=") + ("\"" + w + "\"")))
  {
    AskingText([("a", v), ("b", w)]);
    FirstArgText("a", v, [("b", w)]);
    assert [("a", v)] + [("b", w)] == [("a", v), ("b", w)];
    LastArgText("b", w);
    ArgItemText("b", w);
  }

  lemma QuotedLine(w: string)
    requires Quotable(w)
    ensures Lacks(" " + ("b" + "=") + ("\"" + w + "\""), '\n')
  {
  }

  lemma WalkBlockThen(head: string, key: string, v: string, after: string)
    requires Lacks(head, '\n') && Lacks(key, '\n') && Lacks(after, '\n') && CloseFree("\n" + v)
    ensures Along(BEGIN, head + (" " + BlockArg(key, v).Text() + after)).current == ">>" + after
  {
    var w, text := Along(BEGIN, head), " " + BlockArg(key, v).Text();
    AlongText(BEGIN, head);
    assert "" + head == head && Here(w) == "" + head;
    AlongBlock(w, key, v, false);
    BlockTexts(w.shown, key, v);
    AlongSplit(BEGIN, head, text + after);
    AlongSplit(w, text, after);
    AlongText(Along(w, text), after);
  }

  lemma BlockLineOpens(head: string, key: string)
    requires LineSafe(head) && LineSafe(key)
    ensures OpensFrame(head + (" " + (key + "=<<"))) && Lacks(head + (" " + (key + "=<<")), '\n')
  {
    var l := head + (" " + (key + "=<<"));
    BlockOpens(head, key);
    assert StripCr(l) == l;
    OpensIff(l);
  }

  lemma BlockFirstLine(head: string, key: string, v: string, after: string)
    requires LineSafe(head) && LineSafe(key)
    ensures OpensFrame(FirstOfLines(Lines(head + (" " + BlockArg(key, v).Text() + after) + "\n")))
  {
    BlockShort(key, v);
    BlockLines(head, " " + (key + "=<<"), v + "\n>>", after);
    BlockLineOpens(head, key);
    LinesCons(head + (" " + (key + "=<<")), v + "\n>>" + after + "\n");
  }

  lemma BlockLines(head: string, lead: string, body: string, after: string)
    ensures head + (lead + "\n" + body + after) + "\n" == head + lead + "\n" + (body + after + "\n")
  {
  }

  lemma HoldsPair(w: string)
    requires Contains(w, "<<")
    ensures Contains(LastLineText(w), "<<")
  {
    var a, b :| w == a + "<<" + b;
    var lead := ">>" + (" " + ("b" + "=") + "\"");
    assert LastLineText(w) == (lead + a) + "<<" + (b + "\"");
  }

  /** A quoted "<<" after a block, closed or not, keeps the frame from ending: the message reads back exactly in one
      shot, and is never heard of on a stream. */
  lemma ReopeningStalls(v: string, w: string)
    requires Multi(v) && Lacks(v, '>') && Lacks(v, '\r') && Quotable(w) && Contains(w, "<<")
    ensures var p := Reopening(v, w);
            Sendable(p) && Deliverable(p) && FromRaw(p, Serialized(p)) == Some(p) && Heard(p) == []
  {
    var p, after := Reopening(v, w), " " + ("b" + "=") + ("\"" + w + "\"");
    ReopeningArgs(v, w);
    AskingSendable([("a", v), ("b", w)]);
    ReopeningText(v, w);
    LetterHead(p);
    LetterWord("a");
    QuotedLine(w);
    BlockFirstLine("c ~h", "a", v, after);
    WalkBlockThen("c ~h", "a", v, after);
    MessageIsText(p);
    ReopeningOrderly(v, w);
    OrderlyDecides(p);
    ReopenedLastLine(p);
    HoldsPair(w);
  }

  lemma ReopeningOrderly(v: string, w: string)
    requires Multi(v) && Lacks(v, '>') && Lacks(v, '\r') && Quotable(w)
    ensures Orderly(Reopening(v, w)) && HasBlock(Reopening(v, w))
  {
    ReopeningArgs(v, w);
    LetterHead(Reopening(v, w));
    assert Multi(Reopening(v, w).content.args[0].1);
  }

  /** The value `p <<q>> r` in double quotes, after a block. */
  lemma ReopeningExample()
    ensures FromRaw(Reopening("x\ny", "p <<q>> r"), Serialized(Reopening("x\ny", "p <<q>> r")))
         == Some(Reopening("x\ny", "p <<q>> r"))
    ensures Heard(Reopening("x\ny", "p <<q>> r")) == []
  {
    var v, w := "x\ny", "p <<q>> r";
    assert v[1] == '\n' && w[1] == ' ' && w == "p " + "<<" + "q>> r";
    ReopeningStalls(v, w);
  }

  // ---- A body line that begins with ">>" ----

  /** Two lines, the second of which begins with ">>" and something other than a space. */
  function Marked(x: string, y: string): string {
    x + "\n>>" + y
  }

  ghost predicate Markable(x: string, y: string) {
    && Lacks(x, '\n') && Lacks(x, '>') && Lacks(x, '\r')
    && y != "" && Lacks(y, '\n') && Lacks(y, '\r') && Bare(y + "\n>>")
  }

  lemma MarkedRepresentable(x: string, y: string)
    requires Markable(x, y)
    ensures Representable(Marked(x, y)) && Lacks(Marked(x, y), '\r') && Multi(Marked(x, y)) && y[0] != ' '
  {
    var v := Marked(x, y);
    assert v[|x|] == '\n' && PairAt(v, '>', |x| + 1);
    FindPairUnique(v, '>', 0, |x| + 1);
    assert v[|x| + 3..] == y;
    BareStart(y + "\n>>");
  }

  lemma BareStart(s: string)
    requires Bare(s) && s != ""
    ensures s[0] != ' '
  {
  }

  const FIRST := "c ~h a=<<"

  lemma FirstText()
    ensures "c ~h" + (" " + ("a" + "=<<")) == FIRST
  {
  }

  lemma MarkedText(x: string, y: string)
    requires Markable(x, y)
    ensures MessageText(Asking([("a", Marked(x, y))])) + "\n"
         == FIRST + "\n" + (x + "\n" + (">>" + y + "\n" + (">>" + "\n")))
  {
    var v := Marked(x, y);
    MarkedRepresentable(x, y);
    BlockArgText(v);
    FirstText();
    MarkedParts("c ~h", " " + ("a" + "=<<"), x, y);
  }

  lemma BlockArgText(v: string)
    requires Multi(v)
    ensures MessageText(Asking([("a", v)])) == "c ~h" + (" " + ("a" + "=<<") + "\n" + (v + "\n>>"))
  {
    AskingText([("a", v)]);
    LastArgText("a", v);
    BlockShort("a", v);
  }

  lemma MarkedParts(head: string, lead: string, x: string, y: string)
    ensures head + (lead + "\n" + (x + "\n>>" + y + "\n>>")) + "\n"
         == head + lead + "\n" + (x + "\n" + (">>" + y + "\n" + (">>" + "\n")))
  {
  }

  lemma FourLines(a: string, b: string, c: string, d: string)
    requires Lacks(a, '\n') && Lacks(b, '\n') && Lacks(c, '\n') && Lacks(d, '\n')
    ensures Lines(a + "\n" + (b + "\n" + (c + "\n" + (d + "\n")))) == [a, b, c, d]
  {
    LinesCons(a, b + "\n" + (c + "\n" + (d + "\n")));
    LinesCons(b, c + "\n" + (d + "\n"));
    LinesCons(c, d + "\n");
    LinesCons(d, "");
    assert d + "\n" + "" == d + "\n";
    FourInRow(a, b, c, d);
  }

  lemma FourInRow<T>(a: T, b: T, c: T, d: T)
    ensures [a] + ([b] + ([c] + ([d] + []))) == [a, b, c, d]
  {
  }

  lemma NoCloseText(l: string)
    requires Lacks(l, '\r') && (|l| >= 2 ==> l[0] != '>' || (|l| >= 3 && l[1] == '>' && l[2] != ' '))
    ensures !CloseText(l) && !Ends(l) && !Reopens(StripCr(l))
  {
    var text := StripCr(l);
    LineOfIff(l, text);
    CloseIff(text);
    CloseIff(l);
    CloseHead(text);
    EndsIff(l, text);
    ReopensIff(text);
  }

  lemma FourAreFrame(a: string, b: string, c: string, d: string)
    requires Opens(StripCr(a)) && !Ends(b) && !Ends(c) && Ends(d)
    ensures IsFrame([a, b, c, d])
  {
    var all := [a, b, c, d];
    assert all[0] == a && all[|all| - 1] == d;
    assert forall i :: 0 < i < |all| - 1 ==> all[i] == b || all[i] == c;
  }

  lemma ThreeKeep(a: string, b: string, c: string, d: string)
    requires !Reopens(StripCr(b)) && !Reopens(StripCr(c)) && Ends(d)
    ensures NoneReopens([a, b, c, d][1..])
  {
    assert [a, b, c, d][1..] == [b, c, d];
  }

  lemma FirstOpens()
    ensures OpensFrame(FIRST) && Lacks(FIRST, '\n') && Lacks(">>", '\n') && Ends(">>")
  {
    NoCharNoPair("c ~h a=", '<');
    OpeningLine("c ~h a=");
    assert "c ~h a=" + "<<" == FIRST && StripCr(FIRST) == FIRST;
    OpensIff(FIRST);
    NoCharNoPair(">>", '<');
    CloseLine(">>");
  }

  lemma MarkedFrame(x: string, y: string)
    requires Markable(x, y)
    ensures var lines := Lines(MessageText(Asking([("a", Marked(x, y))])) + "\n");
            lines != [] && IsFrame(lines) && NoneReopens(lines[1..])
  {
    MarkedText(x, y);
    MarkedRepresentable(x, y);
    FirstOpens();
    NoCloseText(x);
    NoCloseText(">>" + y);
    OpensIff(FIRST);
    FourLines(FIRST, x, ">>" + y, ">>");
    FourAreFrame(FIRST, x, ">>" + y, ">>");
    ThreeKeep(FIRST, x, ">>" + y, ">>");
  }

  /** A body line of ">>" and more than a space ends nothing: the message is delivered as it is. */
  lemma MarkedArrives(x: string, y: string)
    requires Markable(x, y)
    ensures var p := Asking([("a", Marked(x, y))]);
            Sendable(p) && Deliverable(p) && Heard(p) == [Delivered(p, Serialized(p))]
  {
    var p := Asking([("a", Marked(x, y))]);
    MarkedRepresentable(x, y);
    AskingSendable(p.content.args);
    MessageIsText(p);
    MarkedFrame(x, y);
    HeardArrives(p);
    ArrivedIsReceived(p);
  }

  /** The two lines `a` and `>>b`. */
  lemma MarkedExample()
    ensures var p := Asking([("a", "a\n>>b")]); Heard(p) == [Delivered(p, Serialized(p))]
  {
    var x, y := "a", "b";
    assert x + "\n>>" + y == "a\n>>b";
    PlainBare(y + "\n>>");
    MarkedArrives(x, y);
  }
}
