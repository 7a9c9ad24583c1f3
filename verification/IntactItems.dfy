/** When what the listener shows of an item still reads as the item did. */
module IntactItems {
  import opened Strings
  import opened Scanner
  import opened ScannerLaws
  import opened Verbatims
  import opened BareText
  import opened Parsing
  import opened Forms
  import opened Items
  import opened MessageFraming
  import opened LostNewlines
  import opened ThinScan
  import opened TokenReads

  /** A block argument, with or without the newline at either end of the block. */
  function BlockText(key: string, body: string, front: bool, back: bool): string {
    key + "=" + ("<<" + ((if front then "\n" else "") + body + (if back then "\n" else "")) + ">>")
  }

  /** The item is shown as written, or its block lacks a newline at an end where the value has none of its own. */
  ghost predicate Intact(it: Item, text: string) {
    match it
    case Flat(written, _) => text == written
    case BlockArg(key, body) =>
      exists front, back ::
        && text == BlockText(key, body, front, back)
        && body != "" && (front || body[0] != '\n') && (back || body[|body| - 1] != '\n')
  }

  /** Good, and a value outside a block form is not taken for one. */
  ghost predicate Fit(it: Item) {
    && it.Good()
    && match it
       case Flat(_, t) => t.kind == Arg ==> !Wrapped(t.value[IndexOf(t.value, '=') + 1..])
       case BlockArg(key, body) => Bare(key) && Lacks(key, '=') && '\n' in body && Representable(body)
  }

  lemma {:induction false} AddsThin(w: Walk, x: string)
    ensures Thin(x, Adds(w, x))
    decreases |x|
  {
    if x != "" {
      if x[0] == '\n' {
        AddsThin(EndLine(w), x[1..]);
        var rest := Adds(EndLine(w), x[1..]);
        assert ("\n" + rest)[1..] == rest && "" + rest == rest;
      } else {
        AddsThin(Went(w, [x[0]]), x[1..]);
        var rest := Adds(Went(w, [x[0]]), x[1..]);
        assert ([x[0]] + rest)[1..] == rest;
      }
    }
  }

  lemma RunKept(text: string, value: string, kind: TokenKind)
    requires Run(START, text, LookOther) == Scan(Plain, value, kind, [])
    ensures value == Kept(Plain, text, LookOther) && Newlines(value) == Newlines(text)
  {
    RunConserves(START, text, LookOther);
    var kept := Kept(Plain, text, LookOther);
    assert "" + "" + kept == kept && "" + value == value;
    CountKept(Plain, text, LookOther, '\n');
  }

  lemma GoodKept(it: Item)
    requires it.Good()
    ensures it.Tok().value == Kept(Plain, it.Text(), LookOther)
    ensures Newlines(it.Tok().value) == Newlines(it.Text())
  {
    RunKept(it.Text(), it.Tok().value, it.Tok().kind);
  }

  // ---- Single-line items ----

  lemma FitValue(t: Token, t': Token)
    requires t.kind == Arg && '=' in t.value && !Wrapped(t.value[IndexOf(t.value, '=') + 1..])
    requires ThinToken(t, t') && SameRead(t, t')
    ensures t'.value == t.value
  {
    if t'.value != t.value {
      SameReadText(t.value, t'.value);
    }
  }

  lemma Present(x: string, c: char)
    requires c in x
    ensures IndexOf(x, c) < |x|
  {
    assert x[..|x|] == x;
  }

  lemma SameReadText(x: string, y: string)
    requires '=' in x && '=' in y && !Wrapped(x[IndexOf(x, '=') + 1..])
    requires Thin(x, y) && ReadArg(y) == ReadArg(x)
    ensures y == x
  {
    var i, j := IndexOf(x, '='), IndexOf(y, '=');
    Present(x, '=');
    Present(y, '=');
    ThinSplit(x, y, '=');
    SameAfterStrip(x[i + 1..], y[j + 1..]);
    SplitAt(x, '=', i);
    SplitAt(y, '=', j);
  }

  lemma SameAfterStrip(x: string, y: string)
    requires Thin(x, y) && !Wrapped(x) && StripBlock(y) == StripBlock(x)
    ensures y == x
  {
    ThinCount(x, y);
    StripNewlines(y);
  }

  lemma FlatIntact(w: Walk, it: Item)
    requires it.Flat? && Fit(it) && AtItem(w) && SeamsOk(w, it.Text())
    ensures SameRead(it.Tok(), ShownItem(w, it).Tok()) <==> Intact(it, ShownItem(w, it).Text())
  {
    var shown := ShownItem(w, it);
    ShownItemGood(w, it);
    if SameRead(it.Tok(), shown.Tok()) {
      if it.Tok().kind == Arg {
        FitValue(it.Tok(), shown.Tok());
      }
      GoodKept(it);
      GoodKept(shown);
      AddsThin(w, it.Text());
      ThinCount(it.Text(), shown.Text());
    }
  }

  // ---- Blocks ----

  /** What is left of a block's text is kept whole. */
  lemma BlockShownWhole(w: Walk, it: Item)
    requires it.BlockArg? && it.Good() && AtItem(w) && SeamsOk(w, it.Text())
    ensures ShownItem(w, it).Tok().value == ShownItem(w, it).Text()
  {
    var shown := ShownItem(w, it);
    ShownItemGood(w, it);
    GoodKept(shown);
    AddsThin(w, it.Text());
    ThinCount(it.Text(), shown.Text());
    ThinCount(it.Tok().value, shown.Tok().value);
    KeptFull(Plain, shown.Text(), LookOther);
  }

  lemma ReadBlock(key: string, inner: string)
    requires Lacks(key, '=')
    ensures var text := key + "=" + ("<<" + inner + ">>");
            '=' in text && ReadArg(text) == (key, TrimBack(TrimFront(inner)))
  {
    var value := "<<" + inner + ">>";
    ReadArgAt(key, value);
    assert value[2..|value| - 2] == inner;
  }

  lemma TrimAround(front: string, body: string, back: string)
    requires body != "" && (front == "\n" || (front == "" && body[0] != '\n'))
    requires back == "\n" || (back == "" && body[|body| - 1] != '\n')
    ensures TrimBack(TrimFront(front + body + back)) == body
  {
    Assoc(front, body, back);
    TrimLead(front, body + back);
    TrimEnd(body, back);
  }

  lemma TrimLead(front: string, s: string)
    requires s != "" && (front == "\n" || (front == "" && s[0] != '\n'))
    ensures TrimFront(front + s) == s
  {
    assert front == "" ==> front + s == s;
  }

  lemma TrimEnd(s: string, back: string)
    requires s != "" && (back == "\n" || (back == "" && s[|s| - 1] != '\n'))
    ensures TrimBack(s + back) == s
  {
    assert back == "" ==> s + back == s;
  }

  lemma IntactReads(key: string, body: string, text: string)
    requires Lacks(key, '=') && Intact(BlockArg(key, body), text)
    ensures '=' in text && ReadArg(text) == (key, body)
  {
    var front, back :|
      && text == BlockText(key, body, front, back)
      && body != "" && (front || body[0] != '\n') && (back || body[|body| - 1] != '\n');
    var a, b := if front then "\n" else "", if back then "\n" else "";
    ReadBlock(key, a + body + b);
    TrimAround(a, body, b);
  }

  /** Text trimmed to body is body with at most a newline on each side. */
  lemma TrimmedShape(inner: string, body: string) returns (front: bool, back: bool)
    requires TrimBack(TrimFront(inner)) == body && body != ""
    ensures inner == (if front then "\n" else "") + body + (if back then "\n" else "")
    ensures (front || body[0] != '\n') && (back || body[|body| - 1] != '\n')
  {
    var mid := TrimFront(inner);
    front, back := mid != inner, body != mid;
    assert inner == (if front then "\n" else "") + mid;
    assert mid == body + (if back then "\n" else "");
    Assoc(if front then "\n" else "", body, if back then "\n" else "");
  }

  lemma BlockValueThin(key: string, value: string, text: string)
    requires Lacks(key, '=') && Thin(key + "=" + value, text)
    ensures var j := IndexOf(text, '='); j < |text| && Thin(value, text[j + 1..])
  {
    var written := key + "=" + value;
    assert written[|key|] == '=' && written[|key| + 1..] == value;
    IndexOfUnique(written, '=', |key|);
    ThinSplit(written, text, '=');
  }

  lemma ValueInside(body: string, shown: string) returns (inner: string)
    requires Thin("<<\n" + body + "\n>>", shown)
    ensures shown == "<<" + inner + ">>" && Wrapped(shown) && shown[2..|shown| - 2] == inner
  {
    var value := "<<\n" + body + "\n>>";
    ThinInside(value, shown);
    inner := shown[2..|shown| - 2];
    assert shown == "<<" + inner + ">>";
  }

  lemma ReadsIntact(key: string, body: string, text: string)
    requires Lacks(key, '=') && body != ""
    requires Thin(BlockArg(key, body).Text(), text)
    requires '=' in text && ReadArg(text) == (key, body)
    ensures Intact(BlockArg(key, body), text)
  {
    var value := "<<\n" + body + "\n>>";
    Assoc(key, "=", value);
    BlockValueThin(key, value, text);
    var j := IndexOf(text, '=');
    SplitAt(text, '=', j);
    var inner := ValueInside(body, text[j + 1..]);
    var front, back := TrimmedShape(inner, body);
    ShownForm(key, body, text, inner, front, back);
  }

  lemma ShownForm(key: string, body: string, text: string, inner: string, front: bool, back: bool)
    requires text == key + "=" + ("<<" + inner + ">>")
    requires inner == (if front then "\n" else "") + body + (if back then "\n" else "")
    requires body != "" && (front || body[0] != '\n') && (back || body[|body| - 1] != '\n')
    ensures Intact(BlockArg(key, body), text)
  {
    assert text == BlockText(key, body, front, back);
  }

  lemma BlockIntact(w: Walk, it: Item)
    requires it.BlockArg? && Fit(it) && AtItem(w) && SeamsOk(w, it.Text())
    ensures SameRead(it.Tok(), ShownItem(w, it).Tok()) <==> Intact(it, ShownItem(w, it).Text())
  {
    var text := ShownItem(w, it).Text();
    ShownItemGood(w, it);
    BlockShownWhole(w, it);
    AddsThin(w, it.Text());
    BlockReads(it.key, it.body);
    if Intact(it, text) {
      IntactReads(it.key, it.body, text);
    }
    if SameRead(it.Tok(), ShownItem(w, it).Tok()) {
      ReadsIntact(it.key, it.body, text);
    }
  }

  lemma BlockReads(key: string, body: string)
    requires Lacks(key, '=') && body != ""
    ensures var text := BlockArg(key, body).Text(); '=' in text && ReadArg(text) == (key, body)
  {
    ReadArgAt(key, "<<\n" + body + "\n>>");
    StripBlockForm(body);
    assert key + "=" + ("<<\n" + body + "\n>>") == BlockArg(key, body).Text();
  }

  /** The shown item reads as the item did exactly when it is intact. */
  lemma IntactIff(w: Walk, it: Item)
    requires Fit(it) && AtItem(w) && SeamsOk(w, it.Text())
    ensures SameRead(it.Tok(), ShownItem(w, it).Tok()) <==> Intact(it, ShownItem(w, it).Text())
  {
    if it.Flat? {
      FlatIntact(w, it);
    } else {
      BlockIntact(w, it);
    }
  }

  // ---- What is intact is a good item ----

  /** A representable block is kept whole without the newline at either end. */
  lemma BlockTextVerbatim(body: string, front: bool, back: bool)
    requires '\n' in body && Representable(body)
    ensures Verbatim("<<" + ((if front then "\n" else "") + body + (if back then "\n" else "")) + ">>")
  {
    var lead := if front then "\n" else "";
    BlockVerbatimIff(lead, body);
    BlockEnds(lead, body);
    if !back {
      CloseSooner("<<" + lead + body);
    }
  }

  lemma BlockEnds(lead: string, body: string)
    ensures "<<" + (lead + body + "\n") + ">>" == "<<" + lead + body + "\n>>"
    ensures "<<" + (lead + body + "") + ">>" == "<<" + lead + body + ">>"
  {
  }

  lemma IntactBlock(key: string, body: string, text: string)
    requires Fit(BlockArg(key, body)) && Intact(BlockArg(key, body), text)
    ensures Run(START, text, LookOther) == Scan(Plain, text, Arg, []) && text != ""
    ensures SameRead(BlockArg(key, body).Tok(), Token(text, Arg))
  {
    var front, back :|
      && text == BlockText(key, body, front, back)
      && body != "" && (front || body[0] != '\n') && (back || body[|body| - 1] != '\n');
    var inner := (if front then "\n" else "") + body + (if back then "\n" else "");
    BlockTextVerbatim(body, front, back);
    VerbatimArgReads(key, "<<" + inner + ">>");
    assert text == key + "=" + ("<<" + inner + ">>");
    IntactReads(key, body, text);
    BlockReads(key, body);
  }

  /** An item shown intact is a good item that reads as the item does. */
  lemma IntactGood(w: Walk, it: Item)
    requires Fit(it) && Intact(it, ShownItem(w, it).Text())
    ensures ShownItem(w, it).Good() && SameRead(it.Tok(), ShownItem(w, it).Tok())
  {
    match it
    case Flat(_, _) =>
    case BlockArg(key, body) =>
      var text := ShownItem(w, it).Text();
      IntactBlock(key, body, text);
      RunSound(START, text, LookOther);
  }

  // ---- Lines of items ----

  ghost predicate AllFit(items: seq<Item>) {
    forall i :: 0 <= i < |items| ==> Fit(items[i])
  }

  ghost predicate AllIntact(items: seq<Item>, shown: seq<Item>) {
    |shown| == |items| && forall i :: 0 <= i < |items| ==> Intact(items[i], shown[i].Text())
  }

  lemma FitGood(items: seq<Item>)
    requires AllFit(items)
    ensures AllGood(items)
  {
    forall it | it in items ensures it.Good() {
      var i :| 0 <= i < |items| && items[i] == it;
      assert Fit(items[i]);
    }
  }

  lemma IntactCons(it: Item, items: seq<Item>, shown: Item, rest: seq<Item>)
    requires SameRead(it.Tok(), shown.Tok()) <==> Intact(it, shown.Text())
    requires AllSameRead(Toks(items), Toks(rest)) <==> AllIntact(items, rest)
    requires |items| == |rest|
    ensures AllSameRead(Toks([it] + items), Toks([shown] + rest)) <==> AllIntact([it] + items, [shown] + rest)
  {
    assert ([it] + items)[1..] == items && ([shown] + rest)[1..] == rest;
    SameReadSplit(it.Tok(), Toks(items), shown.Tok(), Toks(rest));
    IntactSplit(it, items, shown, rest);
  }

  lemma SameReadSplit(t: Token, toks: seq<Token>, t': Token, toks': seq<Token>)
    ensures AllSameRead([t] + toks, [t'] + toks') <==> SameRead(t, t') && AllSameRead(toks, toks')
  {
    var a, b := [t] + toks, [t'] + toks';
    assert a[0] == t && b[0] == t';
    assert forall i :: 0 <= i < |toks| ==> a[i + 1] == toks[i];
    assert forall i :: 0 <= i < |toks'| ==> b[i + 1] == toks'[i];
    assert forall i :: 0 < i < |a| ==> a[i] == toks[i - 1];
    assert forall i :: 0 < i < |b| ==> b[i] == toks'[i - 1];
  }

  lemma IntactSplit(it: Item, items: seq<Item>, shown: Item, rest: seq<Item>)
    ensures AllIntact([it] + items, [shown] + rest) <==> Intact(it, shown.Text()) && AllIntact(items, rest)
  {
    var a, b := [it] + items, [shown] + rest;
    assert a[0] == it && b[0] == shown;
    assert forall i :: 0 <= i < |items| ==> a[i + 1] == items[i];
    assert forall i :: 0 <= i < |rest| ==> b[i + 1] == rest[i];
    assert forall i :: 0 < i < |a| ==> a[i] == items[i - 1];
    assert forall i :: 0 < i < |b| ==> b[i] == rest[i - 1];
  }

  lemma TailElements<T>(s: seq<T>)
    requires s != []
    ensures forall x | x in s[1..] :: x in s
    ensures s == [s[0]] + s[1..]
  {
  }

  lemma FitTail(items: seq<Item>)
    requires items != [] && AllFit(items)
    ensures Fit(items[0]) && AllFit(items[1..]) && items == [items[0]] + items[1..]
  {
    TailElements(items);
    forall i | 0 <= i < |items| - 1 ensures Fit(items[1..][i]) {
      FitMember(items, items[1..][i]);
    }
  }

  lemma FitMember(items: seq<Item>, it: Item)
    requires AllFit(items) && it in items
    ensures Fit(it)
  {
  }

  lemma {:induction false} ShownItemsIntact(w: Walk, items: seq<Item>)
    requires AllFit(items) && SeamsOk(w, Tail(items))
    ensures |ShownItems(w, items)| == |items|
    ensures AllSameRead(Toks(items), Toks(ShownItems(w, items))) <==> AllIntact(items, ShownItems(w, items))
    decreases items
  {
    if items != [] {
      var it, rest := items[0], items[1..];
      var w' := Along(w, " " + it.Text());
      FitTail(items);
      SeamsSplit(w, " " + it.Text(), Tail(rest));
      AfterSpace(w, it.Text());
      IntactIff(Along(w, " "), it);
      ShownItemsIntact(w', rest);
      IntactCons(it, rest, ShownItem(Along(w, " "), it), ShownItems(w', rest));
    }
  }

  /** The shown items of a line read as its items exactly when all are intact. */
  lemma ShownAllIntact(items: seq<Item>)
    requires items != [] && AllFit(items) && SeamsOk(BEGIN, Line(items))
    ensures AllSameRead(Toks(items), Toks(ShownAll(items))) <==> AllIntact(items, ShownAll(items))
  {
    var first, rest := items[0], items[1..];
    var w := Along(BEGIN, first.Text());
    FitTail(items);
    SeamsSplit(BEGIN, first.Text(), Tail(rest));
    IntactIff(BEGIN, first);
    ShownItemsIntact(w, rest);
    IntactCons(first, rest, ShownItem(BEGIN, first), ShownItems(w, rest));
  }

  lemma {:induction false} ShownItemsIntactGood(w: Walk, items: seq<Item>)
    requires AllFit(items) && AllIntact(items, ShownItems(w, items))
    ensures AllGood(ShownItems(w, items)) && AllSameRead(Toks(items), Toks(ShownItems(w, items)))
    decreases items
  {
    if items != [] {
      var it, rest := items[0], items[1..];
      var shown, more := ShownItem(Along(w, " "), it), ShownItems(Along(w, " " + it.Text()), rest);
      FitTail(items);
      IntactSplit(it, rest, shown, more);
      IntactGood(Along(w, " "), it);
      ShownItemsIntactGood(Along(w, " " + it.Text()), rest);
      AllGoodCons(shown, more);
      IntactCons(it, rest, shown, more);
    }
  }

  /** The shown items of a line whose items are all intact are good, and read as they do. */
  lemma ShownAllIntactGood(items: seq<Item>)
    requires items != [] && AllFit(items) && AllIntact(items, ShownAll(items))
    ensures AllGood(ShownAll(items)) && AllSameRead(Toks(items), Toks(ShownAll(items)))
  {
    var first, rest := items[0], items[1..];
    var shown, more := ShownItem(BEGIN, first), ShownItems(Along(BEGIN, first.Text()), rest);
    FitTail(items);
    IntactSplit(first, rest, shown, more);
    IntactGood(BEGIN, first);
    ShownItemsIntactGood(Along(BEGIN, first.Text()), rest);
    AllGoodCons(shown, more);
    IntactCons(first, rest, shown, more);
  }
}
