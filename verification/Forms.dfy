/** When the written form of an argument or an atom reads back exactly. */
module Forms {
  import opened Strings
  import opened Scanner
  import opened ScannerLaws
  import opened Verbatims
  import opened BareText
  import opened Parsing
  import opened Wire
  import opened Items

  // ---- Line endings ----

  predicate CrLfAt(s: string, i: int) {
    0 <= i < |s| - 1 && s[i] == '\r' && s[i + 1] == '\n'
  }

  /** No carriage return inside s that reading would take for a line ending. */
  ghost predicate NoCrLf(s: string) {
    forall i :: !CrLfAt(s, i)
  }

  /** The same, whatever follows s. */
  ghost predicate CrClean(s: string) {
    NoCrLf(s) && (s != "" ==> s[|s| - 1] != '\r')
  }

  lemma {:induction false} DropCrClean(s: string)
    requires forall i :: !CrLfAt(s, i)
    ensures DropCr(s) == s
  {
    if s != "" {
      assert !CrLfAt(s, 0);
      forall i ensures !CrLfAt(s[1..], i) {
        assert CrLfAt(s[1..], i) ==> CrLfAt(s, i + 1);
      }
      DropCrClean(s[1..]);
      assert s == [s[0]] + s[1..];
    }
  }

  // ---- Atoms ----

  /** Bare text that does not become an argument. */
  ghost predicate Atom(s: string) {
    Bare(s) && Lacks(s, '=')
  }

  /** Text that stands as a plain word token. */
  ghost predicate PlainWord(s: string) {
    Atom(s) && s != "" && s[0] != '~'
  }

  lemma WordItem(s: string)
    requires PlainWord(s)
    ensures FlagItem(s).Good()
  {
    BareIsVerbatim(s);
    RunVerbatim(START, s, LookOther);
    assert "" + s == s;
  }

  lemma HandleItem(s: string)
    requires Bare(s) && Lacks(s, '=')
    ensures Flat("~" + s, Token("~" + s, Handle)).Good()
  {
    BareIsVerbatim(s);
    var st := Scan(Plain, "~", Handle, []);
    assert ("~" + s)[1..] == s;
    assert Step(START, '~', Peek(s, LookOther)) == st;
    RunVerbatim(st, s, LookOther);
  }

  lemma RunKey(k: string)
    requires Bare(k)
    ensures Run(START, k + "=", LookOther) == Scan(Plain, k + "=", Arg, [])
  {
    BareIsVerbatim(k);
    RunSplit(START, k, "=", LookOther);
    assert "="[1..] == "" && "" + k == k;
    RunKeepsAll(START, k, LookOther);
  }

  // ---- Argument values ----

  /** The values whose written form reads back, by the branch of the writer that writes them. */
  ghost predicate Representable(v: string) {
    if '\n' in v then
      var close := FindPair(v, '>', 0);
      close == |v| || Bare(v[close + 2..] + "\n>>")
    else
      && !Wrapped(v)
      && (if '"' in v then '\'' !in v else ' ' in v || '\t' in v || Bare(v))
  }

  /** A value free of newlines and block brackets around it needs only quotes or brackets to agree. */
  lemma SimpleRepresentable(v: string)
    requires forall i :: 0 <= i < |v| ==> (Ordinary(v[i]) || v[i] == ' ') && v[i] != '\n'
    ensures Representable(v)
  {
    if ' ' !in v {
      PlainBare(v);
    }
  }

  /** What the scanner keeps of the written form. */
  function KeptForm(v: string): string {
    if '\n' in v then Encode(v) else v
  }

  lemma RunRepresentable(st: Scan, v: string)
    requires st.mode.Plain? && st.kind == Arg && st.value != "" && Representable(v)
    ensures Run(st, Encode(v), LookOther) == st.(value := st.value + KeptForm(v))
    ensures StripBlock(KeptForm(v)) == v
  {
    if '\n' in v {
      BlockFormVerbatim(v);
      StripBlockForm(v);
      RunVerbatim(st, Encode(v), LookOther);
    } else if '"' in v {
      RunQuoted(st, '\'', v, LookOther);
    } else if ' ' in v || '\t' in v {
      RunQuoted(st, '"', v, LookOther);
    } else {
      BareIsVerbatim(v);
      RunVerbatim(st, v, LookOther);
    }
  }

  lemma StripBlockForm(v: string)
    requires v != ""
    ensures StripBlock("<<\n" + v + "\n>>") == v
  {
    var form := "<<\n" + v + "\n>>";
    assert form[2..|form| - 2] == "\n" + v + "\n";
    assert ("\n" + v + "\n")[1..] == v + "\n";
    assert (v + "\n")[..|v|] == v;
  }

  /** The block form of a multi-line value, with or without its opening newline, is kept whole iff representable. */
  lemma BlockVerbatimIff(lead: string, v: string)
    requires '\n' in v && (lead == "\n" || lead == "")
    ensures Verbatim("<<" + lead + v + "\n>>") <==> Representable(v)
  {
    var close := FindPair(v, '>', 0);
    if close == |v| {
      assert !HasPair(v, '>');
      LateClose(lead, v);
    } else {
      EarlyClose(lead, v, close);
      BareIsVerbatim(v[close + 2..] + "\n>>");
    }
  }

  lemma BlockFormVerbatim(v: string)
    requires '\n' in v
    ensures Verbatim(Encode(v)) <==> Representable(v)
  {
    BlockVerbatimIff("\n", v);
    assert "<<" + "\n" + v + "\n>>" == Encode(v);
  }

  lemma LateClose(lead: string, v: string)
    requires !HasPair(v, '>') && (lead == "\n" || lead == "")
    ensures Verbatim("<<" + lead + v + "\n>>")
  {
    NoCharNoPair(lead, '>');
    NoCharNoPair("\n", '>');
    NoPairConcat(lead, v, '>');
    NoPairConcat(lead + v, "\n", '>');
    BlockVerbatim(lead + v + "\n");
    BlockForm(lead, v);
  }

  lemma BlockForm(lead: string, v: string)
    ensures "<<" + (lead + v + "\n") + ">>" == "<<" + lead + v + "\n>>"
  {
  }

  /** A ">>" inside the value closes the block early; the rest is read in plain mode. */
  lemma EarlyClose(lead: string, v: string, close: nat)
    requires close == FindPair(v, '>', 0) < |v| && (lead == "\n" || lead == "")
    ensures Verbatim("<<" + lead + v + "\n>>") <==> Verbatim(v[close + 2..] + "\n>>")
  {
    var a, b := v[..close], v[close + 2..];
    PairSplit(v, close);
    SplitForm(lead, a, b);
    NoPairBefore(v, close);
    LeadVerbatim(lead, a);
    VerbatimAfter("<<" + (lead + a) + ">>", b + "\n>>");
  }

  lemma LeadVerbatim(lead: string, a: string)
    requires !HasPair(a, '>') && (a != "" ==> a[|a| - 1] != '>') && (lead == "\n" || lead == "")
    ensures Verbatim("<<" + (lead + a) + ">>")
  {
    NoCharNoPair(lead, '>');
    NoPairConcat(lead, a, '>');
    BlockVerbatim(lead + a);
  }

  lemma PairSplit(v: string, at: nat)
    requires PairAt(v, '>', at)
    ensures v == v[..at] + ">>" + v[at + 2..]
  {
  }

  lemma SplitForm(lead: string, a: string, b: string)
    ensures "<<" + lead + (a + ">>" + b) + "\n>>" == ("<<" + (lead + a) + ">>") + (b + "\n>>")
  {
  }

  lemma NoPairBefore(v: string, close: nat)
    requires close == FindPair(v, '>', 0) < |v|
    ensures !HasPair(v[..close], '>')
    ensures close > 0 ==> v[close - 1] != '>'
  {
    forall i ensures !PairAt(v[..close], '>', i) {
      assert PairAt(v[..close], '>', i) ==> PairAt(v, '>', i);
    }
    assert close > 0 ==> !PairAt(v, '>', close - 1);
  }

  // ---- The written argument reads back exactly for the representable values ----

  /** The text appended for (k, v) is one argument token, read as (k, v), and leaves nothing open. */
  ghost predicate ReadsBack(k: string, v: string) {
    var st := Run(START, ArgText(k, v), LookOther);
    st.mode.Plain? && AllReadAs(Finish(st), [(k, v)])
  }

  lemma ReadArgAt(k: string, value: string)
    requires Lacks(k, '=')
    ensures '=' in k + "=" + value
    ensures ReadArg(k + "=" + value) == (k, StripBlock(value))
  {
    var text := k + "=" + value;
    assert text[|k|] == '=' && text[..|k|] == k && text[|k| + 1..] == value;
    IndexOfUnique(text, '=', |k|);
  }

  lemma RunArg(k: string, v: string)
    requires Bare(k) && Lacks(k, '=') && Representable(v)
    ensures Run(START, k + "=" + Encode(v), LookOther) == Scan(Plain, k + "=" + KeptForm(v), Arg, [])
    ensures ReadsAs(Token(k + "=" + KeptForm(v), Arg), (k, v))
  {
    RunKey(k);
    RunSplit(START, k + "=", Encode(v), LookOther);
    LookMattersNot(k);
    RunRepresentable(Scan(Plain, k + "=", Arg, []), v);
    ReadArgAt(k, KeptForm(v));
  }

  /** After '=' in plain mode the next character makes no difference. */
  lemma LookMattersNot(k: string)
    ensures forall look :: Run(START, k + "=", look) == Run(START, k + "=", LookOther)
  {
    forall look ensures Run(START, k + "=", look) == Run(START, k + "=", LookOther) {
      RunSplit(START, k, "=", look);
      RunSplit(START, k, "=", LookOther);
      assert "="[1..] == "";
      var st := Run(START, k, LookOther);
      assert Step(st, '=', look) == Step(st, '=', LookOther);
    }
  }

  /** A key and verbatim text after it are one argument. */
  lemma VerbatimArgReads(k: string, value: string)
    requires Bare(k) && Lacks(k, '=') && Verbatim(value)
    ensures var text := k + "=" + value;
            Flat(text, Token(text, Arg)).Good() && ReadsAs(Token(text, Arg), (k, StripBlock(value)))
  {
    RunKey(k);
    LookMattersNot(k);
    RunSplit(START, k + "=", value, LookOther);
    RunVerbatim(Scan(Plain, k + "=", Arg, []), value, LookOther);
    ReadArgAt(k, value);
  }

  lemma ArgAfterSpace(k: string, v: string)
    ensures ArgText(k, v) == " " + (k + "=" + Encode(v))
    ensures Run(START, ArgText(k, v), LookOther) == Run(START, k + "=" + Encode(v), LookOther)
  {
    var text := k + "=" + Encode(v);
    Assoc(" ", k, "=");
    Assoc(" ", k + "=", Encode(v));
    assert (" " + text)[1..] == text;
  }

  lemma ReadsBackIfRepresentable(k: string, v: string)
    requires Bare(k) && Lacks(k, '=') && Representable(v)
    ensures ReadsBack(k, v)
  {
    ArgAfterSpace(k, v);
    RunArg(k, v);
    var value := k + "=" + KeptForm(v);
    assert value + "" == value;
    assert Finish(Scan(Plain, value, Arg, [])) == [Token(value, Arg)];
  }

  lemma KeptArg(k: string, e: string)
    requires Bare(k) && Lacks(k, '=')
    ensures Kept(Plain, k + "=" + e, LookOther) == k + "=" + Kept(Plain, e, LookOther)
    ensures EndMode(Plain, k + "=" + e, LookOther) == EndMode(Plain, e, LookOther)
  {
    var key, look := k + "=", Peek(e, LookOther);
    RunKey(k);
    LookMattersNot(k);
    RunConserves(START, key, look);
    var kept := Kept(Plain, key, look);
    assert "" + "" + kept == kept && "" + key == key;
    EndModeSplit(Plain, key, e, LookOther);
    KeptSplit(Plain, key, e, LookOther);
  }

  lemma RepresentableIfReadsBack(k: string, v: string)
    requires Bare(k) && Lacks(k, '=') && ReadsBack(k, v)
    ensures Representable(v)
  {
    var text := k + "=" + Encode(v);
    var st := Run(START, ArgText(k, v), LookOther);
    ArgAfterSpace(k, v);
    RunConserves(START, text, LookOther);
    FinishConserves(st);
    var kept := Kept(Plain, Encode(v), LookOther);
    KeptArg(k, Encode(v));
    SingleValue(Finish(st));
    assert ReadsAs(Finish(st)[0], (k, v)) && Finish(st)[0].value == k + "=" + kept;
    ReadArgAt(k, kept);
    FormConverse(v);
  }

  lemma SingleValue(tokens: seq<Token>)
    requires |tokens| == 1
    ensures Values(tokens) == tokens[0].value
  {
    assert tokens[..0] == [] && "" + tokens[0].value == tokens[0].value;
  }

  /** For every bare key without '=': soundness and completeness of form selection. */
  lemma FormSelectionExact(k: string, v: string)
    requires Bare(k) && Lacks(k, '=')
    ensures ReadsBack(k, v) <==> Representable(v)
  {
    if Representable(v) {
      ReadsBackIfRepresentable(k, v);
    } else if ReadsBack(k, v) {
      RepresentableIfReadsBack(k, v);
    }
  }

  lemma BothQuotesFail(k: string, v: string)
    requires Bare(k) && Lacks(k, '=') && '\n' !in v && '"' in v && '\'' in v
    ensures !ReadsBack(k, v)
  {
    FormSelectionExact(k, v);
  }

  lemma OpenBracketFails(k: string, open: char)
    requires Bare(k) && Lacks(k, '=') && (open == '[' || open == '{')
    ensures !ReadsBack(k, [open])
  {
    assert !Bare([open]);
    FormSelectionExact(k, [open]);
  }

  /** Two values that do not survive: one with both quotes, one with a bracket left open. */
  lemma FormSelectionFails()
    ensures !ReadsBack("k", "\"'") && !ReadsBack("k", "[")
  {
    var quotes := "\"'";
    PlainBare("k");
    assert quotes[0] == '"' && quotes[1] == '\'';
    BothQuotesFail("k", quotes);
    OpenBracketFails("k", '[');
  }

  lemma StripShortens(value: string)
    ensures Wrapped(value) ==> |StripBlock(value)| < |value|
    ensures |StripBlock(value)| <= |value|
  {
  }

  lemma FormConverse(v: string)
    requires EndMode(Plain, Encode(v), LookOther).Plain?
    requires StripBlock(Kept(Plain, Encode(v), LookOther)) == v
    ensures Representable(v)
  {
    var kept := Kept(Plain, Encode(v), LookOther);
    StripShortens(kept);
    KeptLength(Plain, v, LookOther);
    if '\n' in v {
      BlockKeptWhole(v);
      BlockFormVerbatim(v);
    } else if '"' in v {
      if '\'' in v {
        QuoteLost(v);
      } else {
        QuotedKept('\'', v);
      }
    } else if ' ' in v || '\t' in v {
      QuotedKept('"', v);
    } else {
      BareIsVerbatim(v);
    }
  }

  lemma QuotedKept(quote: char, v: string)
    requires (quote == '"' || quote == '\'') && Lacks(v, quote)
    ensures Kept(Plain, [quote] + v + [quote], LookOther) == v
  {
    RunQuoted(START, quote, v, LookOther);
    RunConserves(START, [quote] + v + [quote], LookOther);
    assert "" + v == v;
    var kept := Kept(Plain, [quote] + v + [quote], LookOther);
    assert "" + "" + kept == kept;
  }

  /** A single quote inside a single-quoted value is dropped or leaves the quotes open. */
  lemma QuoteLost(v: string)
    requires '\'' in v && EndMode(Plain, "'" + v + "'", LookOther).Plain?
    ensures |Kept(Plain, "'" + v + "'", LookOther)| < |v|
  {
    var at := IndexOf(v, '\'');
    assert v[..|v|] == v;
    var a, b := v[..at], v[at + 1..];
    SplitAt(v, '\'', at);
    QuoteSeam(a, b, "'");
    QuotedKept('\'', a);
    EndsPlain(a);
    QuoteAfter("'" + a + "'", b);
  }

  lemma QuoteSeam(a: string, b: string, quote: string)
    ensures quote + (a + quote + b) + quote == quote + a + quote + (b + quote)
  {
  }

  /** The scan of `head`, back in plain mode, then of b and a quote that closes. */
  lemma QuoteAfter(head: string, b: string)
    requires head != "" && head[|head| - 1] == '\'' && EndMode(Plain, head, LookOther).Plain?
    requires EndMode(Plain, head + (b + "'"), LookOther).Plain?
    ensures |Kept(Plain, head + (b + "'"), LookOther)| <= |Kept(Plain, head, LookOther)| + |b|
  {
    var tail := b + "'";
    LookMatters(Plain, head, Peek(tail, LookOther));
    EndModeSplit(Plain, head, tail, LookOther);
    KeptSplit(Plain, head, tail, LookOther);
    QuoteCloses(b);
  }

  lemma QuoteCloses(b: string)
    requires EndMode(Plain, b + "'", LookOther).Plain?
    ensures |Kept(Plain, b + "'", LookOther)| <= |b|
  {
    EndModeSplit(Plain, b, "'", LookOther);
    KeptSplit(Plain, b, "'", LookOther);
    var before := EndMode(Plain, b, LookOther);
    assert "'"[1..] == "";
    assert EndMode(before, "'", LookOther) == NextMode(before, '\'', LookOther);
    RunSound(START, b, LookOther);
    RunConserves(START, b, LookOther);
    assert before == Single;
    KeptLength(Plain, b, LookOther);
  }

  lemma EndsPlain(a: string)
    requires Lacks(a, '\'')
    ensures EndMode(Plain, "'" + a + "'", LookOther).Plain?
  {
    RunQuoted(START, '\'', a, LookOther);
    RunConserves(START, "'" + a + "'", LookOther);
  }

  function Newlines(s: string): nat {
    Count(s, '\n')
  }

  lemma BlockKeptShape(v: string) returns (inner: string)
    requires '\n' in v
    ensures Kept(Plain, Encode(v), LookOther) == "<<\n" + inner + ">>"
    ensures Newlines(inner) == Newlines(v) + 1
  {
    var open, mid, close := "<<\n", v + "\n", ">>";
    assert Encode(v) == open + (mid + close);
    KeptSplit(Plain, open, mid + close, LookOther);
    var look := Peek(mid + close, LookOther);
    KeptOpen(look);
    var mode := EndMode(Plain, open, look);
    KeptSplit(mode, mid, close, LookOther);
    KeptClose(EndMode(mode, mid, Peek(close, LookOther)));
    inner := Kept(mode, mid, Peek(close, LookOther));
    assert open + (inner + close) == open + inner + close;
    CountKept(mode, mid, Peek(close, LookOther), '\n');
    CountConcat(v, "\n", '\n');
    assert Newlines("\n") == 1 by { assert "\n"[1..] == ""; }
  }

  lemma StripShape(inner: string)
    ensures StripBlock("<<\n" + inner + ">>") == TrimBack(inner)
  {
    var form := "<<\n" + inner + ">>";
    assert form[..2] == "<<" && form[|form| - 2..] == ">>" && form[2..|form| - 2] == "\n" + inner;
    assert ("\n" + inner)[1..] == inner;
  }

  lemma TrimmedFrom(inner: string, v: string)
    requires TrimBack(inner) == v
    ensures inner == v || inner == v + "\n"
  {
  }

  lemma BlockRegroup(v: string)
    ensures "<<\n" + (v + "\n") + ">>" == "<<\n" + v + "\n>>"
  {
  }

  /** If the block form strips back to v, then the scanner kept all of it. */
  lemma BlockKeptWhole(v: string)
    requires '\n' in v && StripBlock(Kept(Plain, Encode(v), LookOther)) == v
    ensures Kept(Plain, Encode(v), LookOther) == Encode(v)
  {
    var inner := BlockKeptShape(v);
    StripShape(inner);
    TrimmedFrom(inner, v);
    BlockRegroup(v);
  }

  lemma KeptOpen(look: Look)
    ensures Kept(Plain, "<<\n", look) == "<<\n"
  {
    assert "<<\n"[1..] == "<\n" && "<\n"[1..] == "\n" && "\n"[1..] == "";
    assert Kept(Block, "\n", look) == "\n" + "";
    assert Kept(Block, "<\n", look) == "<" + "\n";
    assert Kept(Plain, "<<\n", look) == "<" + "<\n";
  }

  lemma KeptClose(mode: Mode)
    ensures Kept(mode, ">>", LookOther) == ">>"
  {
    assert ">>"[1..] == ">" && ">"[1..] == "";
    var next := NextMode(mode, '>', LookClose);
    assert Kept(next, ">", LookOther) == ">" + "";
    assert Kept(mode, ">>", LookOther) == ">" + ">";
  }

  // ---- Items for arguments ----

  function ArgItem(k: string, v: string): Item {
    if '\n' in v then BlockArg(k, v) else Flat(k + "=" + Encode(v), Token(k + "=" + v, Arg))
  }

  lemma ArgItemGood(k: string, v: string)
    requires Bare(k) && Lacks(k, '=') && Representable(v)
    ensures ArgItem(k, v).Text() == k + "=" + Encode(v)
    ensures ArgItem(k, v).Good() && ReadsAs(ArgItem(k, v).Tok(), (k, v))
  {
    RunArg(k, v);
    ArgItemToken(k, v);
  }

  lemma ArgItemToken(k: string, v: string)
    ensures ArgItem(k, v).Text() == k + "=" + Encode(v)
    ensures ArgItem(k, v).Tok() == Token(k + "=" + KeptForm(v), Arg)
  {
  }
}
