/** How the listener reads one message's text: its lines, followed character by character. */
module MessageFraming {
  import opened Strings
  import opened Scanner
  import opened Items
  import opened Forms
  import opened Framing
  import opened FramingLaws
  import opened FrameGrammar

  /** A text read so far: is this its first line, the line, what the parser would see, and is it still one frame. */
  datatype Walk = Walk(first: bool, current: string, shown: string, whole: bool)

  const BEGIN := Walk(true, "", "", true)

  function EndLine(w: Walk): Walk {
    Walk(false, "",
         w.shown + (if !w.first && Reopens(w.current) then "" else "\n"),
         w.whole && (if w.first then Opens(w.current) else !Ends(w.current)))
  }

  function Along(w: Walk, s: string): Walk
    decreases |s|
  {
    if s == "" then w
    else if s[0] == '\n' then Along(EndLine(w), s[1..])
    else Along(w.(current := w.current + [s[0]], shown := w.shown + [s[0]]), s[1..])
  }

  lemma {:induction false} AlongSplit(w: Walk, a: string, b: string)
    ensures Along(w, a + b) == Along(Along(w, a), b)
    decreases |a|
  {
    if a == "" {
      assert a + b == b;
    } else {
      assert (a + b)[1..] == a[1..] + b;
      if a[0] == '\n' {
        AlongSplit(EndLine(w), a[1..], b);
      } else {
        AlongSplit(w.(current := w.current + [a[0]], shown := w.shown + [a[0]]), a[1..], b);
      }
    }
  }

  lemma {:induction false} AlongText(w: Walk, l: string)
    requires Lacks(l, '\n')
    ensures Along(w, l) == w.(current := w.current + l, shown := w.shown + l)
    decreases |l|
  {
    if l == "" {
      assert w.current + "" == w.current && w.shown + "" == w.shown;
    } else {
      AlongText(w.(current := w.current + [l[0]], shown := w.shown + [l[0]]), l[1..]);
      Assoc(w.current, [l[0]], l[1..]);
      Assoc(w.shown, [l[0]], l[1..]);
      assert l == [l[0]] + l[1..];
    }
  }

  lemma AlongNewline(w: Walk, more: string)
    ensures Along(w, "\n" + more) == Along(EndLine(w), more)
  {
    assert ("\n" + more)[1..] == more;
  }

  lemma AlongLine(w: Walk, l: string, more: string)
    requires Lacks(l, '\n')
    ensures Along(w, l + "\n" + more) == Along(EndLine(w.(current := w.current + l, shown := w.shown + l)), more)
  {
    Assoc(l, "\n", more);
    AlongSplit(w, l, "\n" + more);
    AlongText(w, l);
    AlongNewline(w.(current := w.current + l, shown := w.shown + l), more);
  }

  // ---- The walk and the frame grammar ----

  /** No line but perhaps the last ends a frame. */
  ghost predicate GoesOn(lines: seq<string>) {
    forall i :: 0 <= i < |lines| - 1 ==> !Ends(lines[i])
  }

  lemma GoesOnCons(l: string, lines: seq<string>)
    requires lines != []
    ensures GoesOn([l] + lines) <==> !Ends(l) && GoesOn(lines)
  {
    var all := [l] + lines;
    assert all[0] == l;
    assert forall i :: 0 <= i < |lines| ==> all[i + 1] == lines[i];
    assert forall i :: 0 < i < |all| ==> all[i] == lines[i - 1];
  }

  lemma CrCleanParts(l: string, more: string)
    requires CrClean(l + "\n" + more)
    ensures CrClean(more) && StripCr(l) == l
  {
    var s := l + "\n" + more;
    assert l != "" ==> !CrLfAt(s, |l| - 1);
    forall i ensures !CrLfAt(more, i) {
      assert CrLfAt(more, i) ==> CrLfAt(s, i + |l| + 1);
    }
  }

  lemma FirstLine(s: string) returns (l: string, more: string)
    requires CrClean(s) && !Lacks(s, '\n')
    ensures Lacks(l, '\n') && s == l + "\n" + more && |more| < |s| && CrClean(more) && StripCr(l) == l
    ensures Lines(s + "\n") == [l] + Lines(more + "\n")
  {
    var pos := IndexOf(s, '\n');
    l, more := s[..pos], s[pos + 1..];
    SplitAt(s, '\n', pos);
    CrCleanParts(l, more);
    Assoc(l + "\n", more, "\n");
    LinesCons(l, more + "\n");
  }

  lemma LastLine(s: string)
    requires Lacks(s, '\n')
    ensures Lines(s + "\n") == [s]
  {
    LinesCons(s, "");
    assert s + "\n" + "" == s + "\n" && [s] + [] == [s];
  }

  lemma JoinRestCons(l: string, lines: seq<string>)
    requires lines != []
    ensures JoinRest([l] + lines) == StripCr(l) + (if Reopens(StripCr(l)) then "" else "\n") + JoinRest(lines)
  {
    assert ([l] + lines)[1..] == lines;
  }

  /** The walk from w has passed the given lines, the last of them unfinished. */
  ghost predicate Passed(w: Walk, r: Walk, lines: seq<string>) {
    && lines != [] && !r.first
    && r.current == lines[|lines| - 1]
    && r.shown == w.shown + JoinRest(lines)
    && (r.whole <==> w.whole && GoesOn(lines))
  }

  lemma PassedCons(w: Walk, l: string, r: Walk, rest: seq<string>)
    requires !w.first && StripCr(l) == l
    requires Passed(EndLine(w.(current := l, shown := w.shown + l)), r, rest)
    ensures Passed(w, r, [l] + rest)
  {
    var end := if Reopens(l) then "" else "\n";
    GoesOnCons(l, rest);
    JoinRestCons(l, rest);
    Assoc(w.shown, l, end);
    Assoc(w.shown, l + end, JoinRest(rest));
  }

  lemma WalkLast(w: Walk, s: string)
    requires !w.first && w.current == "" && CrClean(s) && Lacks(s, '\n')
    ensures Passed(w, Along(w, s), Lines(s + "\n"))
  {
    LastLine(s);
    AlongText(w, s);
    assert "" + s == s;
  }

  /** From the start of a later line. */
  lemma {:induction false} WalkRest(w: Walk, s: string)
    requires !w.first && w.current == "" && CrClean(s)
    ensures Passed(w, Along(w, s), Lines(s + "\n"))
    decreases |s|
  {
    if Lacks(s, '\n') {
      WalkLast(w, s);
    } else {
      var l, more := FirstLine(s);
      assert "" + l == l;
      AlongLine(w, l, more);
      WalkRest(EndLine(w.(current := l, shown := w.shown + l)), more);
      PassedCons(w, l, Along(w, s), Lines(more + "\n"));
    }
  }

  /** The end of a text as the end of a frame. */
  predicate Whole(r: Walk) {
    r.whole && if r.first then !Opens(r.current) else Ends(r.current)
  }

  /** The walk over a message's text finds whether its lines are one frame, and the frame's text. */
  lemma WalkFrames(s: string)
    requires CrClean(s)
    ensures var lines, r := Lines(s + "\n"), Along(BEGIN, s);
            lines != [] && r.shown == Join(lines) && (IsFrame(lines) <==> Whole(r))
  {
    if Lacks(s, '\n') {
      OneLineFrame(s);
      AlongText(BEGIN, s);
      assert "" + s == s;
    } else {
      var l, more := FirstLine(s);
      WalkSeveral(s, l, more);
    }
  }

  lemma WalkSeveral(s: string, l: string, more: string)
    requires Lacks(l, '\n') && s == l + "\n" + more && CrClean(more) && StripCr(l) == l
    requires Lines(s + "\n") == [l] + Lines(more + "\n")
    ensures var lines, r := Lines(s + "\n"), Along(BEGIN, s);
            lines != [] && r.shown == Join(lines) && (IsFrame(lines) <==> Whole(r))
  {
    assert "" + l == l;
    AlongLine(BEGIN, l, more);
    WalkRest(EndLine(BEGIN.(current := l, shown := l)), more);
    FirstPassed(l, Along(BEGIN, s), Lines(more + "\n"));
  }

  lemma FirstPassed(l: string, r: Walk, rest: seq<string>)
    requires StripCr(l) == l && Passed(EndLine(BEGIN.(current := l, shown := l)), r, rest)
    ensures r.shown == Join([l] + rest) && (IsFrame([l] + rest) <==> Whole(r))
  {
    FrameCons(l, rest);
    JoinCons(l, rest);
  }

  lemma JoinCons(l: string, lines: seq<string>)
    requires lines != [] && StripCr(l) == l
    ensures Join([l] + lines) == l + "\n" + JoinRest(lines)
  {
    assert ([l] + lines)[1..] == lines;
  }

  lemma FrameCons(l: string, lines: seq<string>)
    requires lines != [] && StripCr(l) == l
    ensures IsFrame([l] + lines) <==> Opens(l) && GoesOn(lines) && Ends(lines[|lines| - 1])
  {
    var all := [l] + lines;
    assert all[0] == l && |all| >= 2 && all[|all| - 1] == lines[|lines| - 1];
    assert Inner(all) <==> GoesOn(lines) by {
      assert forall i :: 0 <= i < |lines| ==> all[i + 1] == lines[i];
      assert forall i :: 0 < i < |all| ==> all[i] == lines[i - 1];
    }
  }

  /** No line between the first and the last ends a frame. */
  ghost predicate Inner(lines: seq<string>) {
    forall i :: 0 < i < |lines| - 1 ==> !Ends(lines[i])
  }

  /** A text of one line is a frame of its own unless it opens a block that it does not close. */
  lemma OneLineFrame(s: string)
    requires CrClean(s) && Lacks(s, '\n')
    ensures Lines(s + "\n") == [s] && Join([s]) == s
    ensures IsFrame([s]) <==> !Opens(s)
  {
    LastLine(s);
  }

  // ---- Text in which no line closes a block ----

  predicate CloseAt(s: string, i: int) {
    0 <= i && i + 3 <= |s| && s[i] == '\n' && s[i + 1] == '>' && s[i + 2] == '>'
  }

  /** No line of s after its first begins with ">>". */
  ghost predicate CloseFree(s: string) {
    forall i :: !CloseAt(s, i)
  }

  lemma CloseFreeConcat(a: string, b: string)
    requires CloseFree(a) && CloseFree(b) && (b == "" || b[0] != '>')
    ensures CloseFree(a + b)
  {
    forall i ensures !CloseAt(a + b, i) {
      assert CloseAt(a + b, i) ==> CloseAt(a, i) || CloseAt(b, i - |a|);
    }
  }

  lemma CloseFreeSuffix(a: string, b: string)
    requires CloseFree(a + b)
    ensures CloseFree(b)
  {
    forall i ensures !CloseAt(b, i) {
      assert CloseAt(b, i) ==> CloseAt(a + b, i + |a|);
    }
  }

  /** The current line, after the newline before it. */
  function Here(w: Walk): string {
    (if w.first then "" else "\n") + w.current
  }

  lemma NotClosing(l: string, more: string)
    requires CloseFree("\n" + l + more)
    ensures !IsClose(l) && !Ends(l)
  {
    var s := "\n" + l + more;
    assert !CloseAt(s, 0);
    assert |l| >= 2 ==> s[1] == l[0] && s[2] == l[1];
    CloseHead(StripCr(l));
    CloseHead(l);
  }

  lemma CloseHead(l: string)
    ensures IsClose(l) ==> |l| >= 2 && l[0] == '>' && l[1] == '>'
  {
    assert |l| >= 3 ==> l[..3][0] == l[0] && l[..3][1] == l[1];
  }

  /** While no line closes, the text is shown as it is. */
  lemma {:induction false} AlongKeeps(w: Walk, s: string)
    requires CloseFree(Here(w) + s)
    ensures var r := Along(w, s);
            && r.shown == w.shown + s && CloseFree(Here(r))
            && (!w.first ==> !r.first && r.whole == w.whole)
    decreases |s|
  {
    if s == "" {
      assert w.shown + "" == w.shown && Here(w) + "" == Here(w);
    } else {
      var c, rest := s[0], s[1..];
      assert s == [c] + rest;
      if c == '\n' {
        if !w.first {
          NotClosing(w.current, s);
        }
        Assoc(Here(w), "\n", rest);
        assert Here(w) + s == Here(w) + (Here(EndLine(w)) + rest);
        CloseFreeSuffix(Here(w), Here(EndLine(w)) + rest);
        AlongKeeps(EndLine(w), rest);
      } else {
        var w' := w.(current := w.current + [c], shown := w.shown + [c]);
        assert Here(w') + rest == Here(w) + s;
        AlongKeeps(w', rest);
      }
      Assoc(w.shown, [c], rest);
    }
  }

  /** From the opening newline of a block to its ">>". */
  lemma AlongBody(w: Walk, body: string)
    requires !w.first && w.current == "" && CloseFree("\n" + body)
    ensures Along(w, body + "\n>>") == Walk(false, ">>", w.shown + (body + "\n>>"), w.whole)
  {
    var text := body + "\n";
    assert Here(w) + text == "\n" + body + "\n";
    CloseFreeConcat("\n" + body, "\n");
    AlongKeeps(w, text);
    AlongSplit(w, body, "\n");
    AlongNewline(Along(w, body), "");
    assert text + ">>" == body + "\n>>";
    AlongSplit(w, text, ">>");
    AlongText(Along(w, text), ">>");
    assert "\n" + "" == "\n" && "" + ">>" == ">>";
    Assoc(w.shown, text, ">>");
  }

  // ---- Items ----

  /** A block argument that follows another block: its opening newline is lost in reassembly. */
  function ReopenedItem(key: string, body: string): Item {
    var text := key + "=" + ("<<" + body + "\n>>");
    Flat(text, Token(text, Arg))
  }

  /** The items as the listener's text shows them; `seen` says whether a block came before. */
  function FramedItems(items: seq<Item>, seen: bool): seq<Item> {
    if items == [] then []
    else
      match items[0]
      case Flat(_, _) => [items[0]] + FramedItems(items[1..], seen)
      case BlockArg(key, body) =>
        [if seen then ReopenedItem(key, body) else items[0]] + FramedItems(items[1..], true)
  }

  /** Only blocks break lines, and none of their lines begins with ">>". */
  ghost predicate OrderlyItem(it: Item) {
    match it
    case Flat(text, _) => Lacks(text, '\n')
    case BlockArg(key, body) => Lacks(key, '\n') && CloseFree("\n" + body)
  }

  ghost predicate AllOrderly(items: seq<Item>) {
    forall i :: 0 <= i < |items| ==> OrderlyItem(items[i])
  }

  /** After a block the line begins with the block's ">>"; before, no line closes. */
  ghost predicate Under(w: Walk, seen: bool) {
    if seen then !w.first && IsClose(w.current) else CloseFree(Here(w))
  }

  lemma CloseGoesOn(l: string, t: string)
    requires IsClose(l)
    ensures IsClose(l + (" " + t))
  {
    assert (l + (" " + t))[..3] == if l == ">>" then ">> " else l[..3];
  }

  lemma AlongFlat(w: Walk, t: string, seen: bool)
    requires Under(w, seen) && Lacks(t, '\n')
    ensures var x, r := " " + t, Along(w, " " + t);
            Under(r, seen) && r == w.(current := w.current + x, shown := w.shown + x)
  {
    var x := " " + t;
    AlongText(w, x);
    if seen {
      CloseGoesOn(w.current, t);
    } else {
      CloseFreeConcat(Here(w), x);
      Assoc(if w.first then "" else "\n", w.current, x);
    }
  }

  lemma EndsInPair(l: string)
    ensures FindPair(l + "<<", '<', 0) < |l + "<<"|
  {
    assert PairAt(l + "<<", '<', |l|);
  }

  /** The text of a block argument: its opening newline is shown unless a block came before. */
  lemma AlongBlock(w: Walk, key: string, body: string, seen: bool)
    requires Under(w, seen) && Lacks(key, '\n') && CloseFree("\n" + body)
    ensures var lead := " " + (key + "=<<");
            var next := EndLine(w.(current := w.current + lead, shown := w.shown + lead));
            && (!w.first ==> next.whole == w.whole)
            && next.shown == w.shown + lead + (if seen then "" else "\n")
            && Along(w, lead + "\n" + (body + "\n>>")) == Walk(false, ">>", next.shown + (body + "\n>>"), next.whole)
  {
    var lead := " " + (key + "=<<");
    AlongFlat(w, key + "=<<", seen);
    var there := w.(current := w.current + lead, shown := w.shown + lead);
    assert w.current + lead == w.current + (" " + (key + "=")) + "<<";
    EndsInPair(w.current + (" " + (key + "=")));
    if seen {
      BlockReopens(there.current);
    } else if !there.first {
      assert "\n" + there.current + "" == Here(there);
      NotClosing(there.current, "");
    }
    AlongLine(w, lead, body + "\n>>");
    AlongBody(EndLine(there), body);
  }

  lemma BlockReopens(l: string)
    requires IsClose(l) && FindPair(l, '<', 0) < |l| && l[|l| - 1] == '<'
    ensures Reopens(l) && !Ends(l)
  {
  }

  lemma BlockTexts(shown: string, key: string, body: string)
    ensures var lead := " " + (key + "=<<");
            && " " + BlockArg(key, body).Text() == lead + "\n" + (body + "\n>>")
            && shown + lead + "" + (body + "\n>>") == shown + (" " + ReopenedItem(key, body).Text())
            && shown + lead + "\n" + (body + "\n>>") == shown + (" " + BlockArg(key, body).Text())
  {
    var lead := " " + (key + "=<<");
    BlockShort(key, body);
    assert shown + lead + "" == shown + lead;
    Assoc(shown, lead, body + "\n>>");
    Assoc(shown, lead, "\n");
    Assoc(shown, lead + "\n", body + "\n>>");
  }

  lemma BlockShort(key: string, body: string)
    ensures " " + BlockArg(key, body).Text() == " " + (key + "=<<") + "\n" + (body + "\n>>")
    ensures " " + ReopenedItem(key, body).Text() == " " + (key + "=<<") + (body + "\n>>")
  {
  }

  /** One item, shown as the framed item. */
  lemma AlongItem(w: Walk, it: Item, seen: bool)
    requires Under(w, seen) && OrderlyItem(it)
    ensures var r := Along(w, " " + it.Text());
            && Under(r, seen || it.BlockArg?)
            && r.shown == w.shown + (" " + FramedItems([it], seen)[0].Text())
  {
    match it
    case Flat(t, _) => AlongFlat(w, t, seen);
    case BlockArg(key, body) =>
      AlongBlock(w, key, body, seen);
      BlockTexts(w.shown, key, body);
  }

  /** A message's items, shown as the framed items. */
  lemma {:induction false} AlongItems(w: Walk, items: seq<Item>, seen: bool)
    requires Under(w, seen) && AllOrderly(items)
    ensures Along(w, Tail(items)).shown == w.shown + Tail(FramedItems(items, seen))
    decreases items
  {
    if items == [] {
      assert w.shown + "" == w.shown;
    } else {
      var it, rest := items[0], items[1..];
      var seen' := seen || it.BlockArg?;
      var shown := FramedItems([it], seen)[0];
      assert OrderlyItem(it);
      AlongItem(w, it, seen);
      AlongItems(Along(w, " " + it.Text()), rest, seen');
      AlongSplit(w, " " + it.Text(), Tail(rest));
      FramedCons(items, seen);
      Assoc(w.shown, " " + shown.Text(), Tail(FramedItems(rest, seen')));
    }
  }

  lemma FramedCons(items: seq<Item>, seen: bool)
    requires items != []
    ensures var shown, rest := FramedItems([items[0]], seen)[0], FramedItems(items[1..], seen || items[0].BlockArg?);
            FramedItems(items, seen) == [shown] + rest && Tail([shown] + rest) == " " + shown.Text() + Tail(rest)
  {
    var shown, rest := FramedItems([items[0]], seen)[0], FramedItems(items[1..], seen || items[0].BlockArg?);
    assert ([shown] + rest)[1..] == rest;
  }

  // ---- Messages that always make a frame ----

  /** Text that neither ends a line nor opens a block. */
  ghost predicate LineSafe(s: string) {
    Lacks(s, '\n') && !HasPair(s, '<')
  }

  ghost predicate Framable(it: Item) {
    match it
    case Flat(text, _) => LineSafe(text)
    case BlockArg(key, body) => LineSafe(key) && !HasPair(body, '>')
  }

  ghost predicate AllFramable(items: seq<Item>) {
    forall i :: 0 <= i < |items| ==> Framable(items[i])
  }

  lemma FramableOrderly(it: Item)
    requires Framable(it)
    ensures OrderlyItem(it)
  {
    if it.BlockArg? {
      var s := "\n" + it.body;
      forall i ensures !CloseAt(s, i) {
        assert CloseAt(s, i) ==> PairAt(it.body, '>', i);
      }
    }
  }

  lemma LineSafeConcat(a: string, b: string)
    requires LineSafe(a) && LineSafe(b)
    requires a == "" || b == "" || a[|a| - 1] != '<' || b[0] != '<'
    ensures LineSafe(a + b)
  {
    NoPairConcat(a, b, '<');
  }

  /** Still one frame, on a line that opens nothing. */
  ghost predicate Calm(w: Walk, seen: bool) {
    w.whole && LineSafe(w.current) && w.first == !seen && (seen ==> IsClose(w.current))
  }

  lemma CalmUnder(w: Walk, seen: bool)
    requires Calm(w, seen)
    ensures Under(w, seen)
  {
    if w.first {
      assert Here(w) == w.current;
    }
  }

  lemma CalmFlat(w: Walk, t: string, seen: bool)
    requires Calm(w, seen) && LineSafe(t)
    ensures Calm(Along(w, " " + t), seen)
  {
    CalmUnder(w, seen);
    AlongFlat(w, t, seen);
    NoCharNoPair(" ", '<');
    LineSafeConcat(" ", t);
    LineSafeConcat(w.current, " " + t);
  }

  /** A line whose only "<<" ends it. */
  lemma OpeningLine(l: string)
    requires LineSafe(l) && (l != "" ==> l[|l| - 1] != '<')
    ensures Opens(l + "<<")
  {
    var full := l + "<<";
    forall j | 0 <= j < |l| ensures !PairAt(full, '<', j) {
      assert PairAt(full, '<', j) ==> PairAt(l, '<', j);
    }
    assert PairAt(full, '<', |l|);
    FindPairUnique(full, '<', 0, |l|);
    FindPairUnique(full, '>', |full|, |full|);
  }

  lemma BlockOpens(current: string, key: string)
    requires LineSafe(current) && LineSafe(key)
    ensures Opens(current + (" " + (key + "=<<")))
  {
    NoCharNoPair(" ", '<');
    NoCharNoPair("=", '<');
    LineSafeConcat(" ", key);
    LineSafeConcat(" " + key, "=");
    LineSafeConcat(current, " " + key + "=");
    OpeningLine(current + (" " + key + "="));
    OpeningText(current, key);
  }

  lemma OpeningText(current: string, key: string)
    ensures current + (" " + key + "=") + "<<" == current + (" " + (key + "=<<"))
  {
  }

  lemma CalmBlock(w: Walk, key: string, body: string, seen: bool)
    requires Calm(w, seen) && Framable(BlockArg(key, body))
    ensures Calm(Along(w, " " + BlockArg(key, body).Text()), true)
  {
    FramableOrderly(BlockArg(key, body));
    CalmUnder(w, seen);
    AlongBlock(w, key, body, seen);
    BlockTexts(w.shown, key, body);
    NoCharNoPair(">>", '<');
    BlockOpens(w.current, key);
  }

  lemma {:induction false} CalmItems(w: Walk, items: seq<Item>, seen: bool) returns (after: bool)
    requires Calm(w, seen) && AllFramable(items)
    ensures Calm(Along(w, Tail(items)), after)
    decreases items
  {
    after := seen;
    if items != [] {
      var it, rest := items[0], items[1..];
      assert Framable(it);
      match it {
        case Flat(t, _) => CalmFlat(w, t, seen);
        case BlockArg(key, body) => CalmBlock(w, key, body, seen);
      }
      after := CalmItems(Along(w, " " + it.Text()), rest, seen || it.BlockArg?);
      AlongSplit(w, " " + it.Text(), Tail(rest));
    }
  }

  lemma NoOpening(l: string)
    requires !HasPair(l, '<')
    ensures FindPair(l, '<', 0) == |l|
  {
  }

  /** A line-safe head and framable items always make one frame. */
  lemma FramableIsFrame(head: string, items: seq<Item>)
    requires LineSafe(head) && AllFramable(items)
    requires CrClean(head + Tail(items))
    ensures IsFrame(Lines(head + Tail(items) + "\n"))
  {
    AlongText(BEGIN, head);
    assert "" + head == head;
    var seen := CalmItems(Along(BEGIN, head), items, false);
    AlongSplit(BEGIN, head, Tail(items));
    WalkFrames(head + Tail(items));
    CalmWhole(Along(BEGIN, head + Tail(items)), seen);
  }

  lemma CalmWhole(r: Walk, seen: bool)
    requires Calm(r, seen)
    ensures Whole(r)
  {
    NoOpening(r.current);
    if seen {
      CloseLine(r.current);
    }
  }

  /** A carriage return at its end would leave the line a close line still. */
  lemma CloseLine(l: string)
    requires IsClose(l) && !HasPair(l, '<')
    ensures Ends(l)
  {
    var t := StripCr(l);
    assert t != l ==> |l| >= 4 || l == ">> ";
    assert |t| >= 3 ==> t[..3] == l[..3];
    assert !HasPair(t, '<') by {
      assert forall i :: PairAt(t, '<', i) ==> PairAt(l, '<', i);
    }
    NoOpening(t);
  }
}
