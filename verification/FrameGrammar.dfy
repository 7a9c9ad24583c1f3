/** Frames as groups of lines: the loop finds the one way to cut a stream into frames. */
module FrameGrammar {
  import opened Strings
  import opened Framing
  import opened FramingLaws

  /** A line that ends a multi-line frame. */
  predicate Ends(l: string) {
    IsClose(StripCr(l)) && !Reopens(StripCr(l))
  }

  /** One line that opens nothing, or an opening line and all lines up to the first that ends it. */
  ghost predicate IsFrame(lines: seq<string>) {
    && lines != []
    && if !Opens(StripCr(lines[0])) then |lines| == 1
       else |lines| >= 2 && Ends(lines[|lines| - 1]) && forall i :: 0 < i < |lines| - 1 ==> !Ends(lines[i])
  }

  /** The beginning of a frame that has not ended. */
  ghost predicate IsUnfinished(lines: seq<string>) {
    lines != [] ==> Opens(StripCr(lines[0])) && forall i :: 0 < i < |lines| ==> !Ends(lines[i])
  }

  /** The text of a frame after its opening line. */
  function JoinRest(lines: seq<string>): string
    requires lines != []
  {
    if |lines| == 1 then StripCr(lines[0])
    else StripCr(lines[0]) + (if Reopens(StripCr(lines[0])) then "" else "\n") + JoinRest(lines[1..])
  }

  /** The text of a frame, from its lines: a close line that reopens a block loses its newline. */
  function Join(lines: seq<string>): string
    requires lines != []
  {
    if |lines| == 1 then StripCr(lines[0]) else StripCr(lines[0]) + "\n" + JoinRest(lines[1..])
  }

  function FrameOf(lines: seq<string>): Frame
    requires lines != []
  {
    Frame(Join(lines), Unlines(lines))
  }

  lemma ContinueFrame(a: Assembly, l: string)
    requires a.multiline && !Ends(l)
    ensures TakeLine(a, l)
         == Assembly(a.line + (StripCr(l) + (if Reopens(StripCr(l)) then "" else "\n")),
                     a.raw + (l + "\n"), true, a.frames)
  {
    assert StripCr(l) + "" == StripCr(l);
  }

  /** From inside a frame, lines up to the first end complete it. */
  lemma {:induction false} FinishFrame(a: Assembly, lines: seq<string>)
    requires a.multiline && lines != [] && Ends(lines[|lines| - 1])
    requires forall i :: 0 <= i < |lines| - 1 ==> !Ends(lines[i])
    ensures TakeLines(a, lines) == Complete(a, a.line + JoinRest(lines), a.raw + Unlines(lines))
    decreases lines
  {
    var l, rest := lines[0], lines[1..];
    if rest == [] {
      assert TakeLines(a, lines) == TakeLine(a, l);
      assert l + "\n" + "" == l + "\n";
    } else {
      ContinueFrame(a, l);
      var head := StripCr(l) + (if Reopens(StripCr(l)) then "" else "\n");
      FinishFrame(TakeLine(a, l), rest);
      Assoc(a.line, head, JoinRest(rest));
      Assoc(a.raw, l + "\n", Unlines(rest));
    }
  }

  lemma {:induction false} StayUnfinished(a: Assembly, lines: seq<string>)
    requires a.multiline && forall i :: 0 <= i < |lines| ==> !Ends(lines[i])
    ensures var b := TakeLines(a, lines);
            b.multiline && b.frames == a.frames && b.raw == a.raw + Unlines(lines)
    decreases lines
  {
    if lines == [] {
      assert a.raw + "" == a.raw;
    } else {
      ContinueFrame(a, lines[0]);
      StayUnfinished(TakeLine(a, lines[0]), lines[1..]);
      Assoc(a.raw, lines[0] + "\n", Unlines(lines[1..]));
    }
  }

  lemma OneFrame(a: Assembly, lines: seq<string>)
    requires !a.multiline && a.raw == "" && IsFrame(lines)
    ensures TakeLines(a, lines) == Complete(a, Join(lines), Unlines(lines))
  {
    var l, rest := lines[0], lines[1..];
    assert "" + (l + "\n") == l + "\n" == l + "\n" + "";
    if rest == [] {
      assert TakeLines(a, lines) == TakeLine(a, l);
    } else {
      FinishFrame(TakeLine(a, l), rest);
    }
  }

  function Flatten(groups: seq<seq<string>>): seq<string> {
    if groups == [] then [] else groups[0] + Flatten(groups[1..])
  }

  ghost predicate AllFrames(groups: seq<seq<string>>) {
    forall i :: 0 <= i < |groups| ==> IsFrame(groups[i])
  }

  function FramesOf(groups: seq<seq<string>>): seq<Frame>
    requires forall i :: 0 <= i < |groups| ==> groups[i] != []
  {
    if groups == [] then [] else [FrameOf(groups[0])] + FramesOf(groups[1..])
  }

  lemma FlattenCons(groups: seq<seq<string>>, tail: seq<string>)
    requires groups != []
    ensures Flatten(groups) + tail == groups[0] + (Flatten(groups[1..]) + tail)
  {
    Assoc(groups[0], Flatten(groups[1..]), tail);
  }

  lemma FlattenFirst(first: seq<string>, groups: seq<seq<string>>, tail: seq<string>)
    ensures Flatten([first] + groups) + tail == first + (Flatten(groups) + tail)
  {
    assert ([first] + groups)[1..] == groups;
    FlattenCons([first] + groups, tail);
  }

  lemma LoopOnTail(a: Assembly, tail: seq<string>)
    requires !a.multiline && a.raw == "" && IsUnfinished(tail)
    ensures var b := TakeLines(a, tail);
            b.frames == a.frames && b.multiline == (tail != []) && b.raw == Unlines(tail)
  {
    if tail != [] {
      StayUnfinished(TakeLine(a, tail[0]), tail[1..]);
      assert "" + (tail[0] + "\n") == tail[0] + "\n";
    }
  }

  /** The loop completes exactly the frames of any such grouping, and never the unfinished tail. */
  lemma {:induction false} LoopMatchesGrammar(a: Assembly, groups: seq<seq<string>>, tail: seq<string>)
    requires !a.multiline && a.raw == "" && AllFrames(groups) && IsUnfinished(tail)
    ensures var b := TakeLines(a, Flatten(groups) + tail);
            && b.frames == a.frames + FramesOf(groups)
            && b.multiline == (tail != [])
            && b.raw == Unlines(tail)
    decreases groups
  {
    if groups == [] {
      assert [] + tail == tail && a.frames + [] == a.frames;
      LoopOnTail(a, tail);
    } else {
      var first, rest := groups[0], groups[1..];
      assert IsFrame(first);
      AllFramesTail(groups);
      FlattenCons(groups, tail);
      TakeLinesSplit(a, first, Flatten(rest) + tail);
      OneFrame(a, first);
      LoopMatchesGrammar(Complete(a, Join(first), Unlines(first)), rest, tail);
      Assoc(a.frames, [FrameOf(first)], FramesOf(rest));
    }
  }

  lemma AllFramesTail(groups: seq<seq<string>>)
    requires groups != [] && AllFrames(groups)
    ensures AllFrames(groups[1..])
  {
    assert forall i :: 0 <= i < |groups| - 1 ==> groups[1..][i] == groups[i + 1];
  }

  lemma AllFramesCons(first: seq<string>, groups: seq<seq<string>>)
    requires IsFrame(first) && AllFrames(groups)
    ensures AllFrames([first] + groups)
  {
    assert forall i :: 0 < i < |groups| + 1 ==> ([first] + groups)[i] == groups[i - 1];
  }

  /** lines, cut into frames and an unfinished tail. */
  ghost predicate IsGrouping(lines: seq<string>, groups: seq<seq<string>>, tail: seq<string>) {
    lines == Flatten(groups) + tail && AllFrames(groups) && IsUnfinished(tail)
  }

  lemma GroupingCons(first: seq<string>, rest: seq<string>, groups: seq<seq<string>>, tail: seq<string>)
    requires IsFrame(first) && IsGrouping(rest, groups, tail)
    ensures IsGrouping(first + rest, [first] + groups, tail)
  {
    AllFramesCons(first, groups);
    FlattenFirst(first, groups, tail);
  }

  /** Every sequence of lines can be cut into frames and an unfinished tail. */
  lemma {:induction false} GroupingExists(lines: seq<string>) returns (groups: seq<seq<string>>, tail: seq<string>)
    ensures IsGrouping(lines, groups, tail)
    decreases |lines|
  {
    var found, first, rest := FirstFrame(lines);
    if found {
      var more;
      more, tail := GroupingExists(rest);
      groups := [first] + more;
      GroupingCons(first, rest, more, tail);
    } else {
      groups, tail := [], lines;
      assert [] + lines == lines;
    }
  }

  /** The first frame of the lines, if they hold one. */
  lemma FirstFrame(lines: seq<string>) returns (found: bool, first: seq<string>, rest: seq<string>)
    ensures found ==> lines == first + rest && IsFrame(first)
    ensures !found ==> IsUnfinished(lines)
  {
    var n := 1;
    if lines != [] && Opens(StripCr(lines[0])) {
      while n < |lines| && !Ends(lines[n])
        invariant 1 <= n <= |lines|
        invariant forall i :: 0 < i < n ==> !Ends(lines[i])
      {
        n := n + 1;
      }
      n := n + 1;
    }
    found, first, rest := n <= |lines|, [], [];
    if found {
      first, rest := lines[..n], lines[n..];
    }
  }

  /** A sequence of lines is cut into frames in one way only. */
  lemma {:induction false} GroupingUnique(
    lines: seq<string>,
    groups: seq<seq<string>>, tail: seq<string>, groups': seq<seq<string>>, tail': seq<string>)
    requires IsGrouping(lines, groups, tail) && IsGrouping(lines, groups', tail')
    ensures groups == groups' && tail == tail'
    decreases groups
  {
    TailIsNotFrames(groups, tail, groups', tail');
    TailIsNotFrames(groups', tail', groups, tail);
    if groups == [] {
      assert [] + tail == tail && [] + tail' == tail';
    } else {
      var f, f' := groups[0], groups'[0];
      FlattenCons(groups, tail);
      FlattenCons(groups', tail');
      AllFramesTail(groups);
      AllFramesTail(groups');
      FramePrefix(f, Flatten(groups[1..]) + tail, f', Flatten(groups'[1..]) + tail');
      GroupingUnique(Flatten(groups[1..]) + tail, groups[1..], tail, groups'[1..], tail');
      assert groups == [f] + groups[1..] && groups' == [f'] + groups'[1..];
    }
  }

  /** Lines that form no frame are not cut into any. */
  lemma TailIsNotFrames(
    groups: seq<seq<string>>, tail: seq<string>, groups': seq<seq<string>>, tail': seq<string>)
    requires IsUnfinished(tail) && AllFrames(groups')
    requires Flatten(groups) + tail == Flatten(groups') + tail'
    ensures groups == [] ==> groups' == []
  {
    if groups == [] && groups' != [] {
      assert [] + tail == tail;
      FlattenCons(groups', tail');
      UnfinishedHasNoFrame(tail, groups'[0], Flatten(groups'[1..]) + tail');
    }
  }

  /** No frame begins an unfinished sequence. */
  lemma UnfinishedHasNoFrame(tail: seq<string>, frame: seq<string>, more: seq<string>)
    requires IsUnfinished(tail) && IsFrame(frame)
    ensures tail != frame + more
  {
    var all := frame + more;
    assert all[0] == frame[0] && all[|frame| - 1] == frame[|frame| - 1];
  }

  lemma FramePrefix(f: seq<string>, more: seq<string>, f': seq<string>, more': seq<string>)
    requires IsFrame(f) && IsFrame(f') && f + more == f' + more'
    ensures f == f' && more == more'
  {
    var all := f + more;
    assert all[0] == f[0] == f'[0];
    assert all[|f| - 1] == f[|f| - 1] && all[|f'| - 1] == f'[|f'| - 1];
    assert forall i :: 0 <= i < |f| ==> all[i] == f[i];
    assert forall i :: 0 <= i < |f'| ==> all[i] == f'[i];
    assert |f| == |f'|;
    assert f == all[..|f|] == f' && more == all[|f|..] == more';
  }

  lemma OneLinersParts(a: seq<string>, b: seq<string>)
    requires OneLiners(a + b)
    ensures OneLiners(a) && OneLiners(b)
  {
    assert forall i :: 0 <= i < |a| ==> a[i] == (a + b)[i];
    assert forall i :: 0 <= i < |b| ==> b[i] == (a + b)[|a| + i];
  }

  ghost predicate AllOneLiners(groups: seq<seq<string>>) {
    forall i :: 0 <= i < |groups| ==> OneLiners(groups[i])
  }

  lemma {:induction false} FlattenOneLiners(groups: seq<seq<string>>)
    requires OneLiners(Flatten(groups))
    ensures AllOneLiners(groups)
  {
    if groups != [] {
      OneLinersParts(groups[0], Flatten(groups[1..]));
      FlattenOneLiners(groups[1..]);
    }
  }

  /** No group of lines and no tail holds a newline if the lines do not. */
  lemma FlatOneLiners(groups: seq<seq<string>>, tail: seq<string>)
    requires OneLiners(Flatten(groups) + tail)
    ensures AllOneLiners(groups) && OneLiners(tail)
  {
    OneLinersParts(Flatten(groups), tail);
    FlattenOneLiners(groups);
  }

  lemma LoopOnLines(lines: seq<string>) returns (groups: seq<seq<string>>, tail: seq<string>)
    ensures IsGrouping(lines, groups, tail)
    ensures var a := TakeLines(IDLE, lines);
            a.frames == FramesOf(groups) && a.multiline == (tail != []) && a.raw == Unlines(tail)
  {
    groups, tail := GroupingExists(lines);
    LoopMatchesGrammar(IDLE, groups, tail);
    assert [] + FramesOf(groups) == FramesOf(groups);
  }

  /** For any bytes, cut into chunks in any way, the completed frames are those of the one grouping. */
  lemma StreamIsGrouped(chunks: seq<string>) returns (groups: seq<seq<string>>, tail: seq<string>)
    ensures AllFrames(groups) && IsUnfinished(tail)
    ensures AllOneLiners(groups)
    ensures var st := ReceiveAll(Stream(IDLE, ""), chunks);
            && st.assembly.frames == FramesOf(groups)
            && st.assembly.multiline == (tail != []) && st.assembly.raw == Unlines(tail)
            && Concat(chunks) == Unlines(Flatten(groups) + tail) + st.buf
            && Lacks(st.buf, '\n')
  {
    var all := Concat(chunks);
    ChunkingIndependent(Stream(IDLE, ""), chunks);
    assert "" + all == all;
    LinesConserve(all);
    groups, tail := LoopOnLines(Lines(all));
    FlatOneLiners(groups, tail);
  }

  lemma {:induction false} FrameGroup(groups: seq<seq<string>>, frame: Frame) returns (group: seq<string>)
    requires AllFrames(groups) && frame in FramesOf(groups)
    ensures group in groups && IsFrame(group) && frame == FrameOf(group)
  {
    if frame == FrameOf(groups[0]) {
      group := groups[0];
    } else {
      AllFramesTail(groups);
      group := FrameGroup(groups[1..], frame);
    }
  }
}
