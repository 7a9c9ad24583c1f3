/** Frames in terms of their characters alone, without any of the loop's own tests. */
module FrameText {
  import opened Strings
  import opened Framing
  import opened FramingLaws
  import opened FrameGrammar

  ghost predicate Begins(s: string, lead: string) {
    exists t :: s == lead + t
  }

  ghost predicate Contains(s: string, part: string) {
    exists a, b :: s == a + part + b
  }

  /** l is text, with or without one carriage return after it. */
  predicate LineOf(l: string, text: string) {
    l == text + "\r" || (l == text && (text == "" || text[|text| - 1] != '\r'))
  }

  /** Alone or before a space, ">>" is the first thing on the line. */
  ghost predicate CloseText(text: string) {
    text == ">>" || Begins(text, ">> ")
  }

  /** A line that ends a block and opens none. */
  ghost predicate EndsFrame(l: string) {
    exists text :: LineOf(l, text) && CloseText(text) && !Contains(text, "<<")
  }

  /** A line with "<<", and no ">>" after the first of them. */
  ghost predicate OpensFrame(l: string) {
    exists a, b :: LineOf(l, a + "<<" + b) && !Contains(a + "<", "<<") && !Contains(b, ">>")
  }

  ghost predicate FrameLines(lines: seq<string>) {
    && lines != []
    && if OpensFrame(lines[0]) then
         |lines| >= 2 && EndsFrame(lines[|lines| - 1]) && forall i :: 0 < i < |lines| - 1 ==> !EndsFrame(lines[i])
       else |lines| == 1
  }

  ghost predicate OpenLines(lines: seq<string>) {
    lines != [] ==> OpensFrame(lines[0]) && forall i :: 0 < i < |lines| ==> !EndsFrame(lines[i])
  }

  // ---- The loop's tests decide these ----

  lemma LineOfIff(l: string, text: string)
    ensures LineOf(l, text) <==> StripCr(l) == text
  {
    if l == text + "\r" {
      assert l[..|l| - 1] == text;
    }
  }

  lemma PairSplits(s: string, c: char, i: nat)
    requires PairAt(s, c, i)
    ensures s == s[..i] + [c, c] + s[i + 2..]
  {
  }

  lemma PairInside(a: string, c: char, b: string)
    ensures PairAt(a + [c, c] + b, c, |a|)
  {
  }

  lemma ContainsPair(s: string, c: char)
    ensures Contains(s, [c, c]) <==> HasPair(s, c)
  {
    if HasPair(s, c) {
      var i :| PairAt(s, c, i);
      PairSplits(s, c, i);
    }
    if Contains(s, [c, c]) {
      var a, b :| s == a + [c, c] + b;
      PairInside(a, c, b);
    }
  }

  lemma FoundIff(s: string, c: char, from: nat)
    requires from <= |s|
    ensures FindPair(s, c, from) == |s| <==> !Contains(s[from..], [c, c])
  {
    var rest, i := s[from..], FindPair(s, c, from);
    ContainsPair(rest, c);
    if HasPair(rest, c) {
      var j :| PairAt(rest, c, j);
      assert PairAt(s, c, j + from);
    }
    if i < |s| {
      assert PairAt(rest, c, i - from);
    }
  }

  lemma CloseIff(text: string)
    ensures IsClose(text) <==> CloseText(text)
  {
    if |text| >= 3 && text[..3] == ">> " {
      assert text == ">> " + text[3..];
    }
    if Begins(text, ">> ") {
      var t :| text == ">> " + t;
      assert text[..3] == ">> ";
    }
  }

  /** A line closes a block and opens another exactly if its text begins with ">>" and holds "<<". */
  lemma ReopensIff(text: string)
    ensures Reopens(text) <==> CloseText(text) && Contains(text, "<<")
  {
    CloseIff(text);
    FoundIff(text, '<', 0);
    assert text[0..] == text && ['<', '<'] == "<<";
  }

  /** A line ends a frame exactly if its text is ">>", alone or before a space, and holds no "<<". */
  lemma EndsIff(l: string, text: string)
    requires LineOf(l, text)
    ensures Ends(l) <==> CloseText(text) && !Contains(text, "<<")
    ensures Ends(l) <==> EndsFrame(l)
  {
    LineOfIff(l, text);
    CloseIff(text);
    ReopensIff(text);
    forall other | LineOf(l, other) ensures other == text {
      LineOfIff(l, other);
    }
  }

  lemma FirstPair(text: string, a: string, b: string)
    requires text == a + "<<" + b && !Contains(a + "<", "<<")
    ensures FindPair(text, '<', 0) == |a| && text[|a| + 2..] == b
  {
    assert ['<', '<'] == "<<";
    ContainsPair(a + "<", '<');
    forall j | 0 <= j < |a| ensures !PairAt(text, '<', j) {
      assert PairAt(text, '<', j) ==> PairAt(a + "<", '<', j);
    }
    PairInside(a, '<', b);
    FindPairUnique(text, '<', 0, |a|);
  }

  lemma FirstPairSplits(text: string)
    requires FindPair(text, '<', 0) < |text|
    ensures var i := FindPair(text, '<', 0);
            text == text[..i] + "<<" + text[i + 2..] && !Contains(text[..i] + "<", "<<")
  {
    var i := FindPair(text, '<', 0);
    PairSplits(text, '<', i);
    assert ['<', '<'] == "<<";
    ContainsPair(text[..i] + "<", '<');
    forall j ensures !PairAt(text[..i] + "<", '<', j) {
      assert PairAt(text[..i] + "<", '<', j) ==> PairAt(text, '<', j);
    }
  }

  /** A line opens a block exactly if no ">>" follows the first "<<" of its text. */
  lemma OpensIff(l: string)
    ensures Opens(StripCr(l)) <==> OpensFrame(l)
  {
    var text := StripCr(l);
    LineOfIff(l, text);
    assert ['>', '>'] == ">>";
    if Opens(text) {
      var i := FindPair(text, '<', 0);
      FirstPairSplits(text);
      FoundIff(text, '>', i + 2);
    }
    if OpensFrame(l) {
      var a, b :| LineOf(l, a + "<<" + b) && !Contains(a + "<", "<<") && !Contains(b, ">>");
      LineOfIff(l, a + "<<" + b);
      FirstPair(text, a, b);
      FoundIff(text, '>', |a| + 2);
    }
  }

  lemma EndsEach(l: string)
    ensures Ends(l) <==> EndsFrame(l)
  {
    LineOfIff(l, StripCr(l));
    EndsIff(l, StripCr(l));
  }

  /** The grammar of the loop is the grammar of the text. */
  lemma FrameIff(lines: seq<string>)
    ensures IsFrame(lines) <==> FrameLines(lines)
    ensures IsUnfinished(lines) <==> OpenLines(lines)
  {
    if lines != [] {
      OpensIff(lines[0]);
    }
    forall i | 0 <= i < |lines| ensures Ends(lines[i]) <==> EndsFrame(lines[i]) {
      EndsEach(lines[i]);
    }
  }

  /** For any bytes, cut into chunks in any way, the completed frames are those of the grouping by text. */
  lemma StreamFollowsText(chunks: seq<string>) returns (groups: seq<seq<string>>, tail: seq<string>)
    ensures (forall i :: 0 <= i < |groups| ==> FrameLines(groups[i])) && OpenLines(tail)
    ensures AllFrames(groups) && ReceiveAll(Stream(IDLE, ""), chunks).assembly.frames == FramesOf(groups)
    ensures Concat(chunks) == Unlines(Flatten(groups) + tail) + ReceiveAll(Stream(IDLE, ""), chunks).buf
  {
    groups, tail := StreamIsGrouped(chunks);
    forall i | 0 <= i < |groups| ensures FrameLines(groups[i]) {
      assert IsFrame(groups[i]);
      FrameIff(groups[i]);
    }
    FrameIff(tail);
  }
}
