/** The messages of which a listener hears nothing, and what decides it in an orderly one. */
module Silence {
  import opened Strings
  import opened Ordered
  import opened Wire
  import opened Items
  import opened Forms
  import opened Rendering
  import opened Framing
  import opened FramingLaws
  import opened FrameGrammar
  import opened FrameText
  import opened MessageFraming
  import opened StreamMessages
  import opened StreamRoundTrip

  // ---- Nothing is heard of lines that end no frame ----

  predicate BlankLine(l: string) {
    l == "" || l == "\r"
  }

  /** Blank lines, and then a frame that does not end. */
  ghost predicate Silent(lines: seq<string>) {
    exists n :: 0 <= n <= |lines| && (forall i :: 0 <= i < n ==> BlankLine(lines[i])) && OpenLines(lines[n..])
  }

  lemma {:induction false} FramesGrow(a: Assembly, lines: seq<string>)
    ensures var b := TakeLines(a.(frames := []), lines);
            TakeLines(a, lines) == b.(frames := a.frames + b.frames)
    decreases lines
  {
    var none := a.(frames := []);
    if lines == [] {
      assert a.frames + [] == a.frames;
    } else {
      var first, first' := TakeLine(none, lines[0]), TakeLine(a, lines[0]);
      assert first'.(frames := []) == first.(frames := []);
      assert first'.frames == a.frames + first.frames;
      FramesGrow(first', lines[1..]);
      FramesGrow(first, lines[1..]);
      Assoc(a.frames, first.frames, TakeLines(first.(frames := []), lines[1..]).frames);
    }
  }

  /** The frames completed from lines and the empty line that follows every message. */
  function Completed(lines: seq<string>): seq<Frame> {
    TakeLines(IDLE, lines + [""]).frames
  }

  lemma BlankText(l: string)
    ensures StripCr(l) == "" <==> BlankLine(l)
  {
  }

  lemma BlankOpensNot(l: string)
    requires BlankLine(l)
    ensures !OpensFrame(l)
  {
    BlankText(l);
    OpensIff(l);
  }

  lemma SilentBlank(lines: seq<string>)
    requires lines != [] && BlankLine(lines[0])
    ensures Silent(lines) <==> Silent(lines[1..])
  {
    var rest := lines[1..];
    BlankOpensNot(lines[0]);
    if Silent(lines) {
      var n :| 0 <= n <= |lines| && (forall i :: 0 <= i < n ==> BlankLine(lines[i])) && OpenLines(lines[n..]);
      assert n > 0 && rest[n - 1..] == lines[n..];
      assert forall i :: 0 <= i < n - 1 ==> rest[i] == lines[i + 1];
    }
    if Silent(rest) {
      var n :| 0 <= n <= |rest| && (forall i :: 0 <= i < n ==> BlankLine(rest[i])) && OpenLines(rest[n..]);
      assert lines[n + 1..] == rest[n..];
      assert forall i :: 0 < i < n + 1 ==> lines[i] == rest[i - 1];
    }
  }

  lemma SilentStart(lines: seq<string>)
    requires lines != [] && !BlankLine(lines[0])
    ensures Silent(lines) <==> OpenLines(lines)
  {
    assert lines[0..] == lines;
  }

  lemma CompletedBlank(lines: seq<string>)
    requires lines != [] && BlankLine(lines[0])
    ensures Reports(Completed(lines)) == Reports(Completed(lines[1..]))
  {
    var l, rest := lines[0], lines[1..];
    BlankText(l);
    BlankOpensNot(l);
    OpensIff(l);
    assert (lines + [""])[1..] == rest + [""];
    var a := TakeLine(IDLE, l);
    assert a.frames == [Frame("", "" + (l + "\n"))] && a.(frames := []) == IDLE;
    FramesGrow(a, rest + [""]);
    ReportsCons(a.frames[0], Completed(rest));
    NothingAdded(Reports(Completed(rest)));
  }

  lemma OpenThenEmpty(lines: seq<string>)
    requires lines != [] && IsUnfinished(lines)
    ensures IsUnfinished(lines + [""])
  {
    assert (lines + [""])[0] == lines[0];
    assert !Ends("");
  }

  lemma JoinNotBlank(lines: seq<string>)
    requires lines != [] && !BlankLine(lines[0])
    ensures Join(lines) != ""
  {
    BlankText(lines[0]);
  }

  lemma FirstReported(lines: seq<string>)
    requires lines != [] && !BlankLine(lines[0]) && !IsUnfinished(lines)
    ensures Reports(Completed(lines)) != []
  {
    var found, first, rest := FirstFrame(lines);
    assert first[0] == lines[0];
    Assoc(first, rest, [""]);
    TakeLinesSplit(IDLE, first, rest + [""]);
    OneFrame(IDLE, first);
    FramesGrow(Complete(IDLE, Join(first), Unlines(first)), rest + [""]);
    JoinNotBlank(first);
    assert [] + [FrameOf(first)] == [FrameOf(first)];
    ReportsCons(FrameOf(first), Completed(rest));
  }

  lemma StartReported(lines: seq<string>)
    requires lines != [] && !BlankLine(lines[0])
    ensures Reports(Completed(lines)) == [] <==> OpenLines(lines)
  {
    FrameIff(lines);
    if IsUnfinished(lines) {
      OpenThenEmpty(lines);
      LoopOnTail(IDLE, lines + [""]);
    } else {
      FirstReported(lines);
    }
  }

  lemma {:induction false} SilentIff(lines: seq<string>)
    ensures Reports(Completed(lines)) == [] <==> Silent(lines)
    decreases lines
  {
    if lines == [] {
      TakeBlank(IDLE);
      assert lines + [""] == [""] && OpenLines(lines[0..]);
      assert TakeLines(IDLE, [""]) == TakeLine(IDLE, "");
      assert Completed(lines) == [] + [Frame("", "\n")];
      ReportsCons(Frame("", "\n"), []);
    } else if BlankLine(lines[0]) {
      CompletedBlank(lines);
      SilentBlank(lines);
      SilentIff(lines[1..]);
    } else {
      SilentStart(lines);
      StartReported(lines);
    }
  }

  lemma FramesOfText(s: string)
    ensures Receive(Stream(IDLE, ""), s + "\n" + "\n").assembly.frames == Completed(Lines(s + "\n"))
  {
    ReceiveLines(Stream(IDLE, ""), s);
    TakeLinesSplit(IDLE, Lines(s + "\n"), [""]);
    var a := TakeLines(IDLE, Lines(s + "\n"));
    assert TakeLines(a, [""]) == TakeLine(a, "");
  }

  /** Nothing is heard of a message exactly if, after blank lines, its lines begin a block and none ends it. */
  lemma HeardNothingIff(p: Packet)
    requires Sendable(p)
    ensures Heard(p) == [] <==> Silent(MessageLines(p))
  {
    MessageIsText(p);
    FramesOfText(MessageText(p));
    SilentIff(MessageLines(p));
  }

  // ---- Orderly messages: the last line decides ----

  /** Along s no line after the first ends a frame. */
  ghost predicate Steady(w: Walk, s: string) {
    var r := Along(w, s);
    if !w.first then !r.first && r.whole == w.whole
    else if r.first then r == w.(current := w.current + s, shown := r.shown) && Lacks(s, '\n')
    else exists l, more :: FirstOf(s, l, more) && (r.whole <==> w.whole && Opens(w.current + l))
  }

  predicate FirstOf(s: string, l: string, more: string) {
    Lacks(l, '\n') && s == l + "\n" + more
  }

  lemma FirstOfAfter(a: string, b: string, l: string, more: string)
    ensures Lacks(a, '\n') && FirstOf(b, l, more) ==> FirstOf(a + b, a + l, more)
    ensures FirstOf(a, l, more) ==> FirstOf(a + b, l, more + b)
  {
    if Lacks(a, '\n') && FirstOf(b, l, more) {
      Assoc(l, "\n", more);
      Assoc(a, l, "\n" + more);
      Assoc(a + l, "\n", more);
    }
    if FirstOf(a, l, more) {
      Assoc(l + "\n", more, b);
    }
  }

  lemma SteadyThen(w: Walk, a: string, b: string)
    requires Steady(w, a) && Steady(Along(w, a), b)
    ensures Steady(w, a + b)
  {
    var r1, r := Along(w, a), Along(w, a + b);
    AlongSplit(w, a, b);
    if w.first && !r.first {
      if r1.first {
        var l, more :| FirstOf(b, l, more) && (r.whole <==> r1.whole && Opens(r1.current + l));
        FirstOfAfter(a, b, l, more);
        Assoc(w.current, a, l);
      } else {
        var l, more :| FirstOf(a, l, more) && (r1.whole <==> w.whole && Opens(w.current + l));
        FirstOfAfter(a, b, l, more);
      }
    } else if w.first {
      assert r1.first;
      Assoc(w.current, a, b);
    }
  }

  lemma SteadyFlat(w: Walk, t: string)
    requires Lacks(t, '\n')
    ensures Steady(w, t)
  {
    AlongText(w, t);
  }

  /** Lines none of which closes a block. */
  lemma SteadyKeeps(w: Walk, s: string)
    requires CloseFree(Here(w) + s)
    ensures Steady(w, s)
  {
    AlongKeeps(w, s);
    if w.first {
      if Lacks(s, '\n') {
        SteadyFlat(w, s);
      } else {
        var pos := IndexOf(s, '\n');
        var l, more := s[..pos], s[pos + 1..];
        SplitAt(s, '\n', pos);
        SteadyFirst(w, l, more);
      }
    }
  }

  lemma SteadyFirst(w: Walk, l: string, more: string)
    requires w.first && Lacks(l, '\n') && CloseFree(Here(w) + (l + "\n" + more))
    ensures Steady(w, l + "\n" + more)
  {
    var next := EndLine(w.(current := w.current + l, shown := w.shown + l));
    Assoc(l, "\n", more);
    Assoc(Here(w), l, "\n" + more);
    CloseFreeSuffix(Here(w) + l, "\n" + more);
    assert Here(next) == "\n";
    AlongKeeps(next, more);
    AlongLine(w, l, more);
    assert FirstOf(l + "\n" + more, l, more);
  }

  lemma SteadyBlock(w: Walk, key: string, body: string, seen: bool)
    requires Under(w, seen) && OrderlyItem(BlockArg(key, body))
    ensures Steady(w, " " + BlockArg(key, body).Text())
  {
    var lead := " " + (key + "=<<");
    AlongBlock(w, key, body, seen);
    BlockTexts(w.shown, key, body);
    assert FirstOf(lead + "\n" + (body + "\n>>"), lead, body + "\n>>");
  }

  predicate AnyBlock(items: seq<Item>) {
    exists i :: 0 <= i < |items| && items[i].BlockArg?
  }

  lemma AnyBlockRest(items: seq<Item>)
    requires items != []
    ensures AnyBlock(items) <==> items[0].BlockArg? || AnyBlock(items[1..])
  {
    var rest := items[1..];
    assert forall i :: 0 <= i < |rest| ==> rest[i] == items[i + 1];
    assert forall i :: 0 < i < |items| ==> items[i] == rest[i - 1];
  }

  lemma {:induction false} SteadyItems(w: Walk, items: seq<Item>, seen: bool)
    requires Under(w, seen) && AllOrderly(items)
    ensures Steady(w, Tail(items))
    ensures Under(Along(w, Tail(items)), seen || AnyBlock(items))
    decreases items
  {
    if items != [] {
      var it, rest := items[0], items[1..];
      assert OrderlyItem(it);
      AlongItem(w, it, seen);
      match it {
        case Flat(t, _) => SteadyFlat(w, " " + t);
        case BlockArg(key, body) => SteadyBlock(w, key, body, seen);
      }
      SteadyItems(Along(w, " " + it.Text()), rest, seen || it.BlockArg?);
      SteadyThen(w, " " + it.Text(), Tail(rest));
      AlongSplit(w, " " + it.Text(), Tail(rest));
      AnyBlockRest(items);
    }
  }

  /** The message has a value of several lines. */
  predicate HasBlock(p: Packet) {
    exists i :: 0 <= i < |p.content.args| && Multi(p.content.args[i].1)
  }

  lemma {:induction false} BlockItems(args: Args)
    ensures |ArgItems(args)| == |args|
    ensures forall i :: 0 <= i < |args| ==> ArgItems(args)[i].BlockArg? == Multi(args[i].1)
  {
    if args != [] {
      BlockItems(args[1..]);
    }
  }

  lemma {:induction false} NoBlockFlags(flags: seq<string>)
    ensures forall i :: 0 <= i < |FlagItems(flags)| ==> FlagItems(flags)[i].Flat?
  {
    if flags != [] {
      NoBlockFlags(flags[1..]);
    }
  }

  lemma BlocksAmong(p: Packet)
    ensures AnyBlock(ArgItems(p.content.args) + FlagItems(TailFlags(p))) <==> HasBlock(p)
  {
    var args := ArgItems(p.content.args);
    var items := args + FlagItems(TailFlags(p));
    BlockItems(p.content.args);
    NoBlockFlags(TailFlags(p));
    assert forall i :: 0 <= i < |args| ==> items[i] == args[i];
    assert forall i :: |args| <= i < |items| ==> items[i] == FlagItems(TailFlags(p))[i - |args|];
  }

  lemma HeadSteady(head: string)
    requires CloseFree(head)
    ensures Steady(BEGIN, head) && Under(Along(BEGIN, head), false)
  {
    BeginKeeps(head);
    assert Here(BEGIN) + head == head;
    SteadyKeeps(BEGIN, head);
  }

  lemma SteadyThrough(w: Walk, head: string, items: seq<Item>)
    requires Steady(w, head) && Under(Along(w, head), false) && AllOrderly(items)
    ensures Steady(w, head + Tail(items)) && Under(Along(w, head + Tail(items)), AnyBlock(items))
  {
    SteadyItems(Along(w, head), items, false);
    SteadyThen(w, head, Tail(items));
    AlongSplit(w, head, Tail(items));
  }

  lemma OrderlySteady(p: Packet)
    requires Orderly(p)
    ensures Steady(BEGIN, MessageText(p)) && Under(Along(BEGIN, MessageText(p)), HasBlock(p))
  {
    TextFromHead(p, ArgItems(p.content.args));
    HeadSteady(Head(p));
    ItemsOrderly(p);
    SteadyThrough(BEGIN, Head(p), ArgItems(p.content.args) + FlagItems(TailFlags(p)));
    BlocksAmong(p);
  }

  lemma FirstOfUnique(s: string, l: string, more: string, l': string, more': string)
    requires FirstOf(s, l, more) && FirstOf(s, l', more')
    ensures l == l' && more == more'
  {
    IndexOfUnique(s, '\n', |l|);
    IndexOfUnique(s, '\n', |l'|);
    assert s[..|l|] == l && s[..|l'|] == l' && s[|l| + 1..] == more && s[|l'| + 1..] == more';
  }

  /** A text of several lines, the first of which opens a block: no line before the last ends it. */
  lemma SteadyLines(s: string, l: string, more: string)
    requires CrClean(s) && FirstOf(s, l, more) && StripCr(l) == l && CrClean(more)
    requires Steady(BEGIN, s) && Opens(l)
    ensures var rest := Lines(more + "\n");
            rest != [] && GoesOn(rest) && rest[|rest| - 1] == Along(BEGIN, s).current
  {
    var next, r := EndLine(BEGIN.(current := l, shown := l)), Along(BEGIN, s);
    assert "" + l == l;
    AlongLine(BEGIN, l, more);
    WalkRest(next, more);
    var l', more' :| FirstOf(s, l', more') && (r.whole <==> BEGIN.whole && Opens(BEGIN.current + l'));
    FirstOfUnique(s, l, more, l', more');
    assert BEGIN.current + l == l;
  }

  /** The first line of a message. */
  function FirstOfLines(lines: seq<string>): string {
    if lines == [] then "" else lines[0]
  }

  function LastOfLines(lines: seq<string>): string {
    if lines == [] then "" else lines[|lines| - 1]
  }

  /** Only the last line may end the frame that the first begins. */
  ghost predicate LastDecides(lines: seq<string>) {
    lines != [] && OpensFrame(lines[0]) && forall i :: 0 < i < |lines| - 1 ==> !Ends(lines[i])
  }

  lemma DecidesCons(l: string, rest: seq<string>)
    requires OpensFrame(l) && rest != [] && GoesOn(rest)
    ensures LastDecides([l] + rest)
  {
    assert forall i :: 0 < i < |rest| + 1 ==> ([l] + rest)[i] == rest[i - 1];
  }

  lemma OneLineWalk(s: string)
    requires CrClean(s) && Lacks(s, '\n')
    ensures Lines(s + "\n") == [s] && Along(BEGIN, s).current == s
  {
    OneLineFrame(s);
    AlongText(BEGIN, s);
    assert "" + s == s;
  }

  lemma TextDecides(s: string)
    requires CrClean(s) && Steady(BEGIN, s) && OpensFrame(FirstOfLines(Lines(s + "\n")))
    ensures LastDecides(Lines(s + "\n")) && LastOfLines(Lines(s + "\n")) == Along(BEGIN, s).current
  {
    if Lacks(s, '\n') {
      OneLineWalk(s);
    } else {
      var l, more := FirstLine(s);
      OpensIff(l);
      SteadyLines(s, l, more);
      DecidesCons(l, Lines(more + "\n"));
    }
  }

  lemma OrderlyDecides(p: Packet)
    requires Sendable(p) && Orderly(p) && OpensFrame(FirstOfLines(MessageLines(p)))
    ensures LastDecides(MessageLines(p)) && CrClean(MessageText(p))
    ensures LastOfLines(MessageLines(p)) == Along(BEGIN, MessageText(p)).current
  {
    OrderlySteady(p);
    MessageIsText(p);
    TextDecides(MessageText(p));
  }

  lemma OpenNotBlank(l: string)
    requires OpensFrame(l)
    ensures !BlankLine(l)
  {
    if BlankLine(l) {
      BlankOpensNot(l);
    }
  }

  lemma DecidedByLoop(lines: seq<string>)
    requires lines != [] && Opens(StripCr(lines[0])) && forall i :: 0 < i < |lines| - 1 ==> !Ends(lines[i])
    ensures var last := lines[|lines| - 1];
            (IsUnfinished(lines) <==> !Ends(last)) && (IsFrame(lines) <==> Ends(last))
  {
  }

  lemma DecidedBy(lines: seq<string>)
    requires LastDecides(lines)
    ensures var ends := EndsFrame(LastOfLines(lines));
            (Silent(lines) <==> !ends) && (FrameLines(lines) <==> ends)
  {
    OpensIff(lines[0]);
    DecidedByLoop(lines);
    FrameIff(lines);
    EndsEach(LastOfLines(lines));
    OpenNotBlank(lines[0]);
    SilentStart(lines);
  }

  /** An orderly message that begins with an open block is one frame or never heard of, as its last line ends the
      block or not. */
  lemma OrderlyHeardIff(p: Packet)
    requires Sendable(p) && Orderly(p) && OpensFrame(FirstOfLines(MessageLines(p)))
    ensures Heard(p) == [] <==> !EndsFrame(LastOfLines(MessageLines(p)))
    ensures FrameLines(MessageLines(p)) <==> EndsFrame(LastOfLines(MessageLines(p)))
  {
    OrderlyDecides(p);
    HeardNothingIff(p);
    DecidedBy(MessageLines(p));
  }

  lemma ClosedLast(p: Packet)
    requires Orderly(p) && HasBlock(p)
    ensures CloseText(Along(BEGIN, MessageText(p)).current)
  {
    OrderlySteady(p);
    CloseIff(Along(BEGIN, MessageText(p)).current);
  }

  lemma {:induction false} AlongSuffix(w: Walk, s: string) returns (before: string)
    ensures w.current + s == before + Along(w, s).current
    decreases |s|
  {
    if s == "" {
      before := "";
      assert w.current + s == w.current == "" + w.current;
    } else if s[0] == '\n' {
      var between := AlongSuffix(EndLine(w), s[1..]);
      before := w.current + "\n" + between;
      assert s == "\n" + s[1..] && "" + s[1..] == s[1..];
      Regroup(w.current, "\n", between, Along(w, s).current);
    } else {
      var next := w.(current := w.current + [s[0]], shown := w.shown + [s[0]]);
      before := AlongSuffix(next, s[1..]);
      Assoc(w.current, [s[0]], s[1..]);
      assert s == [s[0]] + s[1..];
    }
  }

  lemma Regroup(a: string, b: string, c: string, d: string)
    ensures a + (b + (c + d)) == a + b + c + d
  {
  }

  lemma LastIsText(s: string, before: string, last: string)
    requires CrClean(s) && "" + s == before + last
    ensures LineOf(last, last)
  {
    assert s == before + last;
    assert last != "" ==> s[|before| + |last| - 1] == last[|last| - 1];
  }

  /** If it has a block, it is never heard of exactly if its last line, which begins with ">>", holds "<<" as well. */
  lemma ReopenedLastLine(p: Packet)
    requires Sendable(p) && Orderly(p) && HasBlock(p) && OpensFrame(FirstOfLines(MessageLines(p)))
    ensures var last := LastOfLines(MessageLines(p));
            CloseText(last) && (Heard(p) == [] <==> Contains(last, "<<"))
  {
    var last := LastOfLines(MessageLines(p));
    OrderlyDecides(p);
    OrderlyHeardIff(p);
    ClosedLast(p);
    var before := AlongSuffix(BEGIN, MessageText(p));
    LastIsText(MessageText(p), before, last);
    EndsIff(last, last);
  }
}
