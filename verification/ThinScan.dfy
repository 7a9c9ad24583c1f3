/** The text a listener shows of a message's items, scanned: the same tokens, short of the newlines lost. */
module ThinScan {
  import opened Strings
  import opened Scanner
  import opened ScannerLaws
  import opened Forms
  import opened Items
  import opened Framing
  import opened FramingLaws
  import opened MessageFraming
  import opened LostNewlines

  // ---- What a walk shows of a text ----

  /** The newline at the end of the current line is lost. */
  predicate Drops(w: Walk) {
    !w.first && Reopens(w.current)
  }

  function Went(w: Walk, l: string): Walk {
    w.(current := w.current + l, shown := w.shown + l)
  }

  /** What the listener shows of x. */
  function Adds(w: Walk, x: string): string
    decreases |x|
  {
    if x == "" then ""
    else if x[0] == '\n' then (if Drops(w) then "" else "\n") + Adds(EndLine(w), x[1..])
    else [x[0]] + Adds(Went(w, [x[0]]), x[1..])
  }

  lemma {:induction false} AlongAdds(w: Walk, x: string)
    ensures Along(w, x).shown == w.shown + Adds(w, x)
    decreases |x|
  {
    if x == "" {
      assert w.shown + "" == w.shown;
    } else if x[0] == '\n' {
      AlongAdds(EndLine(w), x[1..]);
      Assoc(w.shown, if Drops(w) then "" else "\n", Adds(EndLine(w), x[1..]));
    } else {
      AlongAdds(Went(w, [x[0]]), x[1..]);
      Assoc(w.shown, [x[0]], Adds(Went(w, [x[0]]), x[1..]));
    }
  }

  lemma {:induction false} AddsSplit(w: Walk, a: string, b: string)
    ensures Adds(w, a + b) == Adds(w, a) + Adds(Along(w, a), b)
    decreases |a|
  {
    if a == "" {
      assert a + b == b && "" + Adds(w, b) == Adds(w, b);
    } else {
      assert (a + b)[1..] == a[1..] + b;
      var next := if a[0] == '\n' then EndLine(w) else Went(w, [a[0]]);
      AddsSplit(next, a[1..], b);
      Assoc(Adds(w, a[..1]), Adds(next, a[1..]), Adds(Along(next, a[1..]), b));
      var head := if a[0] != '\n' then [a[0]] else if Drops(w) then "" else "\n";
      Assoc(head, Adds(next, a[1..]), Adds(Along(next, a[1..]), b));
    }
  }

  lemma {:induction false} AddsText(w: Walk, l: string)
    requires Lacks(l, '\n')
    ensures Adds(w, l) == l
    decreases |l|
  {
    if l != "" {
      AddsText(Went(w, [l[0]]), l[1..]);
      assert l == [l[0]] + l[1..];
    }
  }

  lemma AddsLine(w: Walk, l: string, more: string)
    requires Lacks(l, '\n')
    ensures Adds(w, l + "\n" + more)
         == l + ((if Drops(Went(w, l)) then "" else "\n") + Adds(EndLine(Went(w, l)), more))
  {
    Assoc(l, "\n", more);
    AddsSplit(w, l, "\n" + more);
    AddsText(w, l);
    AlongText(w, l);
    assert ("\n" + more)[1..] == more;
  }

  // ---- Seams ----

  /** Where l's newline is lost, no new token, "<<" or ">>" appears. */
  predicate Seam(l: string, more: string) {
    && l != "" && l[|l| - 1] != ' ' && l[|l| - 1] != '"' && l[|l| - 1] != '\''
    && (more != "" && more[0] == '>' ==> l[|l| - 1] != '>')
    && (more != "" && more[0] == '<' && l[|l| - 1] == '<' ==> |l| >= 2 && l[|l| - 2] == '<')
  }

  /** Every newline lost along x is lost at such a seam. */
  predicate SeamsOk(w: Walk, x: string)
    decreases |x|
  {
    if x == "" then true
    else if x[0] == '\n' then (Drops(w) ==> Seam(w.current, x[1..])) && SeamsOk(EndLine(w), x[1..])
    else SeamsOk(Went(w, [x[0]]), x[1..])
  }

  lemma {:induction false} SeamsSplit(w: Walk, a: string, b: string)
    requires SeamsOk(w, a + b)
    ensures SeamsOk(w, a) && SeamsOk(Along(w, a), b)
    decreases |a|
  {
    if a == "" {
      assert a + b == b;
    } else {
      assert (a + b)[1..] == a[1..] + b;
      SeamsSplit(if a[0] == '\n' then EndLine(w) else Went(w, [a[0]]), a[1..], b);
    }
  }

  lemma SeamsLine(w: Walk, l: string, more: string)
    requires Lacks(l, '\n') && SeamsOk(w, l + "\n" + more)
    ensures Drops(Went(w, l)) ==> Seam(w.current + l, more)
    ensures SeamsOk(EndLine(Went(w, l)), more)
  {
    Assoc(l, "\n", more);
    SeamsSplit(w, l, "\n" + more);
    AlongText(w, l);
    assert ("\n" + more)[1..] == more;
  }

  // ---- Scanning thin text ----

  /** Two scans apart only in the newlines of the current token. */
  ghost predicate Sim(st: Scan, st': Scan) {
    && st'.mode == st.mode && st'.kind == st.kind && |st'.tokens| == |st.tokens|
    && Thin(st.value, st'.value) && (st.value == "" <==> st'.value == "") && BracketsKnown(st.mode)
  }

  lemma SimStep(st: Scan, st': Scan, c: char, look: Look)
    requires Sim(st, st')
    ensures Sim(Step(st, c, look), Step(st', c, look))
  {
    ThinSame([c]);
    ThinAppend(st.value, st'.value, [c], [c]);
  }

  lemma {:induction false} SimRun(st: Scan, st': Scan, s: string, look: Look)
    requires Sim(st, st')
    ensures Sim(Run(st, s, look), Run(st', s, look))
    decreases |s|
  {
    if s != "" {
      var look' := Peek(s[1..], look);
      SimStep(st, st', s[0], look');
      SimRun(Step(st, s[0], look'), Step(st', s[0], look'), s[1..], look);
    }
  }

  /** A newline read on one side only. */
  lemma SimDrop(st: Scan, st': Scan, look: Look)
    requires Sim(st, st') && st.value != ""
    ensures Sim(Step(st, '\n', look), st')
  {
    ThinAppend(st.value, st'.value, "\n", "");
    assert st'.value + "" == st'.value;
  }

  lemma AfterLine(st: Scan, l: string, look: Look)
    ensures Run(st, l + "\n", look) == Step(Run(st, l, LookOther), '\n', LookOther)
  {
    RunSplit(st, l, "\n", look);
    RunHead(Run(st, l, LookOther), '\n', "", look);
    assert ['\n'] + "" == "\n";
  }

  /** At a seam the last character is kept and reads as it did before the newline. */
  lemma SeamLook(st: Scan, l: string, look: Look)
    requires l != "" && l[|l| - 1] != ' ' && l[|l| - 1] != '"' && l[|l| - 1] != '\''
    requires look.LookClose? ==> l[|l| - 1] != '>'
    requires look.LookOpen? && l[|l| - 1] == '<' ==> |l| >= 2 && l[|l| - 2] == '<'
    ensures Run(st, l, look) == Run(st, l, LookOther) && Run(st, l, LookOther).value != ""
  {
    var init, a := l[..|l| - 1], l[|l| - 1];
    assert l == init + [a];
    RunSplit(st, init, [a], look);
    RunSplit(st, init, [a], LookOther);
    var s := Run(st, init, LookOf(a));
    RunHead(s, a, "", look);
    RunHead(s, a, "", LookOther);
    if look.LookOpen? && a == '<' {
      NotPlainInside(st, init);
    }
  }

  /** Between the two characters of "<<" the scan is never in plain mode. */
  lemma NotPlainInside(st: Scan, init: string)
    requires init != "" && init[|init| - 1] == '<'
    ensures !Run(st, init, LookOpen).mode.Plain?
  {
    var before := init[..|init| - 1];
    assert init == before + "<";
    RunSplit(st, before, "<", LookOpen);
    RunHead(Run(st, before, LookOpen), '<', "", LookOpen);
    assert ['<'] + "" == "<";
  }

  /** What is shown of x begins as x does. */
  lemma AddsPeek(w: Walk, x: string)
    requires w.current == ""
    ensures Peek(Adds(w, x), LookOther) == Peek(x, LookOther)
  {
  }

  lemma ThinLineKept(st: Scan, st': Scan, l: string, more: string, shown: string)
    requires Sim(st, st')
    requires var s, s' := Run(st, l + "\n", LookOther), Run(st', l + "\n", LookOther);
             Sim(Run(s, more, LookOther), Run(s', shown, LookOther))
    ensures Sim(Run(st, l + "\n" + more, LookOther), Run(st', l + ("\n" + shown), LookOther))
  {
    Assoc(l, "\n", shown);
    RunSplit(st, l + "\n", more, LookOther);
    RunSplit(st', l + "\n", shown, LookOther);
    AfterLine(st, l, Peek(more, LookOther));
    AfterLine(st, l, LookOther);
    AfterLine(st', l, Peek(shown, LookOther));
    AfterLine(st', l, LookOther);
  }

  lemma SimLine(st: Scan, st': Scan, l: string)
    requires Sim(st, st')
    ensures Sim(Run(st, l + "\n", LookOther), Run(st', l + "\n", LookOther))
  {
    SimRun(st, st', l + "\n", LookOther);
  }

  /** The part of the current line that the scan has read ends as the line does. */
  lemma SeamInside(w: Walk, l: string, more: string)
    requires w.current == "" || w.current[|w.current| - 1] == ' '
    requires Seam(w.current + l, more)
    ensures l != "" && Seam(l, more)
  {
    var line := w.current + l;
    if l != "" {
      assert l[|l| - 1] == line[|line| - 1];
      assert |l| >= 2 ==> l[|l| - 2] == line[|line| - 2];
    }
  }

  lemma ThinLineDropped(st: Scan, st': Scan, l: string, more: string, shown: string)
    requires Sim(st, st') && l != "" && Seam(l, more) && Peek(shown, LookOther) == Peek(more, LookOther)
    requires var s, s' := Run(st, l + "\n", LookOther), Run(st', l, LookOther);
             Sim(Run(s, more, LookOther), Run(s', shown, LookOther))
    ensures Sim(Run(st, l + "\n" + more, LookOther), Run(st', l + ("" + shown), LookOther))
  {
    assert "" + shown == shown;
    RunSplit(st, l + "\n", more, LookOther);
    AfterLine(st, l, Peek(more, LookOther));
    AfterLine(st, l, LookOther);
    RunSplit(st', l, shown, LookOther);
    SeamLook(st', l, Peek(more, LookOther));
  }

  lemma SimLineDropped(st: Scan, st': Scan, l: string, more: string)
    requires Sim(st, st') && l != "" && Seam(l, more)
    ensures Sim(Run(st, l + "\n", LookOther), Run(st', l, LookOther))
  {
    AfterLine(st, l, LookOther);
    SimRun(st, st', l, LookOther);
    SeamLook(st, l, LookOther);
    SimDrop(Run(st, l, LookOther), Run(st', l, LookOther), LookOther);
  }

  /** Scanning what is shown of a text is scanning the text, but for the newlines lost. */
  lemma {:induction false} ThinRun(w: Walk, st: Scan, st': Scan, x: string)
    requires Sim(st, st') && SeamsOk(w, x)
    requires w.current == "" || w.current[|w.current| - 1] == ' '
    ensures Sim(Run(st, x, LookOther), Run(st', Adds(w, x), LookOther))
    decreases |x|
  {
    if Lacks(x, '\n') {
      AddsText(w, x);
      SimRun(st, st', x, LookOther);
    } else {
      var pos := IndexOf(x, '\n');
      var l, more := x[..pos], x[pos + 1..];
      SplitAt(x, '\n', pos);
      AddsLine(w, l, more);
      SeamsLine(w, l, more);
      var next := EndLine(Went(w, l));
      if Drops(Went(w, l)) {
        SeamInside(w, l, more);
        SimLineDropped(st, st', l, more);
        ThinRun(next, Run(st, l + "\n", LookOther), Run(st', l, LookOther), more);
        AddsPeek(next, more);
        ThinLineDropped(st, st', l, more, Adds(next, more));
      } else {
        SimLine(st, st', l);
        ThinRun(next, Run(st, l + "\n", LookOther), Run(st', l + "\n", LookOther), more);
        ThinLineKept(st, st', l, more, Adds(next, more));
      }
    }
  }

  // ---- Items ----

  /** A token short of some newlines. */
  ghost predicate ThinToken(t: Token, t': Token) {
    t'.kind == t.kind && Thin(t.value, t'.value)
  }

  /** What the listener shows of an item, as an item. */
  function ShownItem(w: Walk, it: Item): Item {
    var text := Adds(w, it.Text());
    var r := Run(START, text, LookOther);
    Flat(text, Token(r.value, r.kind))
  }

  predicate AtItem(w: Walk) {
    w.current == "" || w.current[|w.current| - 1] == ' '
  }

  lemma ShownItemGood(w: Walk, it: Item)
    requires it.Good() && AtItem(w) && SeamsOk(w, it.Text())
    ensures ShownItem(w, it).Good() && ThinToken(it.Tok(), ShownItem(w, it).Tok())
  {
    ThinRun(w, START, START, it.Text());
    RunSound(START, Adds(w, it.Text()), LookOther);
  }

  /** The items after the first, each with the space before it. */
  function ShownItems(w: Walk, items: seq<Item>): seq<Item>
    decreases items
  {
    if items == [] then []
    else [ShownItem(Along(w, " "), items[0])] + ShownItems(Along(w, " " + items[0].Text()), items[1..])
  }

  ghost predicate ThinItems(items: seq<Item>, shown: seq<Item>) {
    |shown| == |items| && forall i :: 0 <= i < |items| ==> ThinToken(items[i].Tok(), shown[i].Tok())
  }

  lemma AfterSpace(w: Walk, text: string)
    ensures AtItem(Along(w, " ")) && Along(w, " " + text) == Along(Along(w, " "), text)
    ensures Adds(w, " " + text) == " " + Adds(Along(w, " "), text)
    ensures SeamsOk(w, " " + text) ==> SeamsOk(Along(w, " "), text)
  {
    AlongText(w, " ");
    AlongSplit(w, " ", text);
    AddsSplit(w, " ", text);
    AddsText(w, " ");
    if SeamsOk(w, " " + text) {
      SeamsSplit(w, " ", text);
    }
  }

  lemma GoodConsItem(it: Item, items: seq<Item>, shown: Item, rest: seq<Item>)
    requires shown.Good() && AllGood(rest) && ThinToken(it.Tok(), shown.Tok()) && ThinItems(items, rest)
    ensures AllGood([shown] + rest) && ThinItems([it] + items, [shown] + rest)
  {
    AllGoodCons(shown, rest);
    ThinItemsCons(it, items, shown, rest);
  }

  lemma AllGoodCons(it: Item, items: seq<Item>)
    requires it.Good() && AllGood(items)
    ensures AllGood([it] + items)
  {
  }

  lemma ThinItemsCons(it: Item, items: seq<Item>, shown: Item, rest: seq<Item>)
    requires ThinToken(it.Tok(), shown.Tok()) && ThinItems(items, rest)
    ensures ThinItems([it] + items, [shown] + rest)
  {
  }

  /** The text shown of items is that of the shown items. */
  lemma {:induction false} ShownItemsText(w: Walk, items: seq<Item>)
    ensures |ShownItems(w, items)| == |items| && Tail(ShownItems(w, items)) == Adds(w, Tail(items))
    decreases items
  {
    if items != [] {
      var it, rest := items[0], items[1..];
      var text := " " + it.Text();
      AddsSplit(w, text, Tail(rest));
      AfterSpace(w, it.Text());
      ShownItemsText(Along(w, text), rest);
      ConsTail(ShownItem(Along(w, " "), it), ShownItems(Along(w, text), rest));
    }
  }

  lemma {:induction false} ShownItemsGood(w: Walk, items: seq<Item>)
    requires AllGood(items) && SeamsOk(w, Tail(items))
    ensures AllGood(ShownItems(w, items)) && ThinItems(items, ShownItems(w, items))
    decreases items
  {
    if items != [] {
      var it, rest := items[0], items[1..];
      var text := " " + it.Text();
      assert it.Good() && items == [it] + rest;
      SeamsSplit(w, text, Tail(rest));
      AfterSpace(w, it.Text());
      ShownItemGood(Along(w, " "), it);
      ShownItemsGood(Along(w, text), rest);
      GoodConsItem(it, rest, ShownItem(Along(w, " "), it), ShownItems(Along(w, text), rest));
    }
  }

  lemma ConsTail(it: Item, items: seq<Item>)
    ensures Tail([it] + items) == " " + it.Text() + Tail(items)
  {
    assert ([it] + items)[1..] == items;
  }

  function ShownAll(items: seq<Item>): seq<Item>
    requires items != []
  {
    [ShownItem(BEGIN, items[0])] + ShownItems(Along(BEGIN, items[0].Text()), items[1..])
  }

  /** The text shown of a line of items is the line of the shown items. */
  lemma ShownLineText(items: seq<Item>)
    requires items != []
    ensures |ShownAll(items)| == |items| && Line(ShownAll(items)) == Along(BEGIN, Line(items)).shown
  {
    var first, rest := items[0], items[1..];
    var w := Along(BEGIN, first.Text());
    AddsSplit(BEGIN, first.Text(), Tail(rest));
    AlongAdds(BEGIN, Line(items));
    ShownItemsText(w, rest);
    assert ShownAll(items)[1..] == ShownItems(w, rest);
    assert "" + Adds(BEGIN, Line(items)) == Adds(BEGIN, Line(items));
  }

  /** At clean seams the shown items are good tokens, short of the newlines lost. */
  lemma ShownLineItems(items: seq<Item>)
    requires items != [] && AllGood(items) && SeamsOk(BEGIN, Line(items))
    ensures AllGood(ShownAll(items)) && ThinItems(items, ShownAll(items))
  {
    var first, rest := items[0], items[1..];
    var w := Along(BEGIN, first.Text());
    assert first.Good() && items == [first] + rest;
    SeamsSplit(BEGIN, first.Text(), Tail(rest));
    ShownItemGood(BEGIN, first);
    ShownItemsGood(w, rest);
    GoodConsItem(first, rest, ShownItem(BEGIN, first), ShownItems(w, rest));
  }

  // ---- Seams between lines ----

  /** Every line whose newline is lost ends at a seam. */
  ghost predicate CleanSeams(lines: seq<string>) {
    forall i :: 0 < i < |lines| - 1 && Reopens(lines[i]) ==> Seam(lines[i], lines[i + 1])
  }

  ghost predicate LaterSeams(lines: seq<string>) {
    forall i :: 0 <= i < |lines| - 1 && Reopens(lines[i]) ==> Seam(lines[i], lines[i + 1])
  }

  lemma LaterSeamsCons(l: string, lines: seq<string>)
    requires lines != []
    ensures LaterSeams([l] + lines) <==> (Reopens(l) ==> Seam(l, lines[0])) && LaterSeams(lines)
    ensures CleanSeams([l] + lines) <==> LaterSeams(lines)
  {
    var all := [l] + lines;
    assert all[0] == l && all[1] == lines[0];
    assert forall i :: 0 <= i < |lines| ==> all[i + 1] == lines[i];
    assert forall i :: 0 < i < |all| ==> all[i] == lines[i - 1];
  }

  lemma SeamsOfLine(w: Walk, l: string, more: string)
    requires Lacks(l, '\n') && (Drops(Went(w, l)) ==> Seam(w.current + l, more)) && SeamsOk(EndLine(Went(w, l)), more)
    ensures SeamsOk(w, l + "\n" + more)
    decreases |l|
  {
    if l == "" {
      assert (l + "\n" + more)[1..] == more;
      assert w.current + "" == w.current && w.shown + "" == w.shown;
    } else {
      var w', l' := Went(w, [l[0]]), l[1..];
      assert (l + "\n" + more)[1..] == l' + "\n" + more;
      assert l == [l[0]] + l';
      Assoc(w.current, [l[0]], l');
      Assoc(w.shown, [l[0]], l');
      SeamsOfLine(w', l', more);
    }
  }

  lemma {:induction false} SeamsOfText(w: Walk, l: string)
    requires Lacks(l, '\n')
    ensures SeamsOk(w, l)
    decreases |l|
  {
    if l != "" {
      SeamsOfText(Went(w, [l[0]]), l[1..]);
    }
  }

  lemma SeamWithMore(l: string, s: string)
    requires Lines(s + "\n") != [] && Seam(l, Lines(s + "\n")[0])
    ensures Seam(l, s)
  {
    var pos := IndexOf(s, '\n');
    if pos < |s| {
      SplitAt(s, '\n', pos);
      Assoc(s[..pos] + "\n", s[pos + 1..], "\n");
      LinesCons(s[..pos], s[pos + 1..] + "\n");
    } else {
      assert Lacks(s, '\n');
      LastLine(s);
    }
  }

  lemma {:induction false} SeamsOfLines(w: Walk, s: string)
    requires w.current == "" && CrClean(s)
    requires if w.first then CleanSeams(Lines(s + "\n")) else LaterSeams(Lines(s + "\n"))
    ensures SeamsOk(w, s)
    decreases |s|
  {
    if Lacks(s, '\n') {
      SeamsOfText(w, s);
    } else {
      var l, more := FirstLine(s);
      var rest := Lines(more + "\n");
      SomeLines(more);
      LaterSeamsCons(l, rest);
      assert "" + l == l;
      if Drops(Went(w, l)) {
        SeamWithMore(l, more);
      }
      SeamsOfLines(EndLine(Went(w, l)), more);
      SeamsOfLine(w, l, more);
    }
  }

  lemma SomeLines(s: string)
    ensures Lines(s + "\n") != []
  {
    assert (s + "\n")[|s|] == '\n';
  }

  lemma SeamHead(l: string, s: string)
    requires Lines(s + "\n") != [] && Seam(l, s)
    ensures Seam(l, Lines(s + "\n")[0])
  {
    var pos := IndexOf(s, '\n');
    if pos < |s| {
      SplitAt(s, '\n', pos);
      Assoc(s[..pos] + "\n", s[pos + 1..], "\n");
      LinesCons(s[..pos], s[pos + 1..] + "\n");
    } else {
      assert Lacks(s, '\n');
      LastLine(s);
    }
  }

  /** Clean seams along the text are clean seams between its lines. */
  lemma {:induction false} LinesOfSeams(w: Walk, s: string)
    requires w.current == "" && CrClean(s) && SeamsOk(w, s)
    ensures if w.first then CleanSeams(Lines(s + "\n")) else LaterSeams(Lines(s + "\n"))
    decreases |s|
  {
    if Lacks(s, '\n') {
      LastLine(s);
    } else {
      var l, more := FirstLine(s);
      SomeLines(more);
      SeamsLine(w, l, more);
      assert "" + l == l;
      LinesOfSeams(EndLine(Went(w, l)), more);
      LaterSeamsCons(l, Lines(more + "\n"));
      if !w.first && Reopens(l) {
        SeamHead(l, more);
      }
    }
  }

  // ---- Orderly messages have clean seams ----

  lemma {:induction false} SeamsJoin(w: Walk, a: string, b: string)
    requires SeamsOk(w, a) && SeamsOk(Along(w, a), b)
    requires b == "" || (b[0] != '<' && b[0] != '>')
    ensures SeamsOk(w, a + b)
    decreases |a|
  {
    if a == "" {
      assert a + b == b;
    } else {
      assert (a + b)[1..] == a[1..] + b;
      SeamsJoin(if a[0] == '\n' then EndLine(w) else Went(w, [a[0]]), a[1..], b);
    }
  }

  /** While no line closes, no newline is lost. */
  lemma {:induction false} KeepsSeams(w: Walk, s: string)
    requires CloseFree(Here(w) + s)
    ensures SeamsOk(w, s)
    decreases |s|
  {
    if s != "" {
      var c, rest := s[0], s[1..];
      assert s == [c] + rest;
      if c == '\n' {
        if !w.first {
          NotClosing(w.current, s);
        }
        assert Here(w) + s == Here(w) + (Here(EndLine(w)) + rest);
        CloseFreeSuffix(Here(w), Here(EndLine(w)) + rest);
        KeepsSeams(EndLine(w), rest);
      } else {
        assert Here(Went(w, [c])) + rest == Here(w) + s;
        KeepsSeams(Went(w, [c]), rest);
      }
    }
  }

  lemma BodySeams(w: Walk, body: string)
    requires !w.first && w.current == "" && CloseFree("\n" + body)
    ensures SeamsOk(w, body + "\n>>")
  {
    assert CloseFree(Here(w) + body) by {
      assert Here(w) + body == "\n" + body;
    }
    AlongKeeps(w, body);
    var end := Along(w, body);
    NotClosingHere(end);
    KeepsSeams(w, body);
    assert ("\n" + ">>")[1..] == ">>" && "\n" + ">>" == "\n>>";
    SeamsOfText(EndLine(end), ">>");
    SeamsJoin(w, body, "\n>>");
  }

  lemma NotClosingHere(w: Walk)
    requires !w.first && CloseFree(Here(w))
    ensures !Drops(w)
  {
    assert "\n" + w.current + "" == Here(w);
    NotClosing(w.current, "");
  }

  /** The opening line of a later block ends in "<<": its newline is lost at a clean seam. */
  lemma BlockSeams(w: Walk, key: string, body: string)
    requires Lacks(key, '\n') && CloseFree("\n" + body)
    ensures SeamsOk(w, " " + (key + "=<<") + "\n" + (body + "\n>>"))
  {
    var lead := " " + (key + "=<<");
    var line := w.current + lead;
    assert line[|line| - 1] == '<' && line[|line| - 2] == '<';
    BodySeams(EndLine(Went(w, lead)), body);
    SeamsOfLine(w, lead, body + "\n>>");
  }

  lemma ItemSeams(w: Walk, it: Item)
    requires OrderlyItem(it)
    ensures SeamsOk(w, " " + it.Text())
  {
    match it
    case Flat(t, _) => SeamsOfText(w, " " + t);
    case BlockArg(key, body) =>
      BlockSeams(w, key, body);
      BlockShort(key, body);
  }

  lemma {:induction false} ItemsSeams(w: Walk, items: seq<Item>)
    requires AllOrderly(items)
    ensures SeamsOk(w, Tail(items))
    decreases items
  {
    if items != [] {
      var text, rest := " " + items[0].Text(), items[1..];
      assert OrderlyItem(items[0]);
      ItemSeams(w, items[0]);
      ItemsSeams(Along(w, text), rest);
      SeamsJoin(w, text, Tail(rest));
    }
  }
}
