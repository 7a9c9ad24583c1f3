/** A message line as space-separated items, each scanning to exactly one token. */
module Items {
  import opened Strings
  import opened Scanner
  import opened ScannerLaws
  import opened Parsing

  /** A block argument is kept apart because framing may rejoin its lines without the opening newline. */
  datatype Item =
    | Flat(text: string, token: Token)
    | BlockArg(key: string, body: string)
  {
    function Text(): string {
      match this
      case Flat(text, _) => text
      case BlockArg(key, body) => key + "=" + ("<<\n" + body + "\n>>")
    }

    function Tok(): Token {
      match this
      case Flat(_, token) => token
      case BlockArg(_, _) => Token(Text(), Arg)
    }

    ghost predicate Good() {
      && Tok().value != ""
      && WellTyped(Tok())
      && Run(START, Text(), LookOther) == Scan(Plain, Tok().value, Tok().kind, [])
    }
  }

  ghost predicate AllGood(items: seq<Item>) {
    forall it :: it in items ==> it.Good()
  }

  function Tail(items: seq<Item>): string {
    if items == [] then "" else " " + items[0].Text() + Tail(items[1..])
  }

  function Line(items: seq<Item>): string
    requires items != []
  {
    items[0].Text() + Tail(items[1..])
  }

  function Toks(items: seq<Item>): seq<Token> {
    if items == [] then [] else [items[0].Tok()] + Toks(items[1..])
  }

  lemma {:induction false} TailAppend(a: seq<Item>, b: seq<Item>)
    ensures Tail(a + b) == Tail(a) + Tail(b)
  {
    if a == [] {
      assert a + b == b;
    } else {
      assert (a + b)[1..] == a[1..] + b;
      TailAppend(a[1..], b);
    }
  }

  lemma {:induction false} ToksAppend(a: seq<Item>, b: seq<Item>)
    ensures Toks(a + b) == Toks(a) + Toks(b)
  {
    if a == [] {
      assert a + b == b;
    } else {
      assert (a + b)[1..] == a[1..] + b;
      ToksAppend(a[1..], b);
    }
  }

  lemma {:induction false} ToksWellTyped(items: seq<Item>)
    requires AllGood(items)
    ensures AllWellTyped(Toks(items))
  {
    if items != [] {
      assert items[0].Good();
      ToksWellTyped(items[1..]);
    }
  }

  lemma ItemTokens(it: Item)
    requires it.Good()
    ensures Tokens(it.Text()) == [it.Tok()]
    ensures Run(START, it.Text(), LookOther).mode.Plain?
  {
    var value := it.Tok().value;
    assert value + "" == value;
    assert Finish(Scan(Plain, value, it.Tok().kind, [])) == [] + [it.Tok()];
  }

  lemma {:induction false} LineTokens(items: seq<Item>)
    requires items != [] && AllGood(items)
    ensures Tokens(Line(items)) == Toks(items)
    ensures Run(START, Line(items), LookOther).mode.Plain?
  {
    var first, rest := items[0], items[1..];
    assert first.Good();
    ItemTokens(first);
    if rest == [] {
      assert first.Text() + "" == first.Text();
      assert Toks(items) == [first.Tok()] + [];
    } else {
      LineTokens(rest);
      Assoc(first.Text(), " ", Line(rest));
      Assoc(" ", rest[0].Text(), Tail(rest[1..]));
      TokensCompose(first.Text(), Line(rest));
      PlainCompose(first.Text(), Line(rest));
    }
  }

  lemma PlainCompose(a: string, b: string)
    requires Run(START, a, LookOther).mode.Plain? && Run(START, b, LookOther).mode.Plain?
    ensures Run(START, a + " " + b, LookOther).mode.Plain?
  {
    var st := Run(START, a, LookOther);
    assert a + " " + b == a + (" " + b) && (" " + b)[1..] == b;
    RunSplit(START, a, " " + b, LookOther);
    var cut := Step(st, ' ', Peek(b, LookOther));
    RunConserves(cut, b, LookOther);
    RunConserves(START, b, LookOther);
  }

  // ---- Building over items ----

  function SansProps(p: Parsed): Parsed {
    p.(props := NO_PROPS)
  }

  /** The token is an argument that reads as the given pair. */
  ghost predicate ReadsAs(t: Token, arg: (string, string)) {
    t.kind == Arg && WellTyped(t) && ReadArg(t.value) == arg
  }

  ghost predicate AllReadAs(tokens: seq<Token>, args: seq<(string, string)>) {
    |tokens| == |args| && forall i :: 0 <= i < |tokens| ==> ReadsAs(tokens[i], args[i])
  }

  ghost predicate Settled(p: Parsed, i: nat) {
    i >= 1 && (p.kind == Publish ==> i >= 2)
  }

  lemma BuildArg(p: Parsed, i: nat, t: Token)
    requires Settled(p, i) && WellTyped(t) && t.kind == Arg
    ensures SansProps(BuildToken(p, i, t)) == SansProps(p.(args := p.args + [ReadArg(t.value)]))
  {
  }

  lemma BuildCons(p: Parsed, i: nat, t: Token, ts: seq<Token>)
    requires WellTyped(t) && AllWellTyped(ts)
    ensures AllWellTyped([t] + ts)
    ensures Build(p, i, [t] + ts) == Build(BuildToken(p, i, t), i + 1, ts)
  {
    assert ([t] + ts)[1..] == ts;
  }

  lemma ReadAsTail(tokens: seq<Token>, args: seq<(string, string)>)
    requires AllReadAs(tokens, args) && tokens != []
    ensures ReadsAs(tokens[0], args[0]) && AllReadAs(tokens[1..], args[1..])
    ensures tokens == [tokens[0]] + tokens[1..] && args == [args[0]] + args[1..]
  {
  }

  lemma BuildArgFirst(
    p: Parsed, i: nat, t: Token, arg: (string, string), tokens: seq<Token>, args: seq<(string, string)>)
    requires ReadsAs(t, arg) && AllWellTyped(tokens) && Settled(p, i)
    requires var q := BuildToken(p, i, t);
             SansProps(Build(q, i + 1, tokens)) == SansProps(q.(args := q.args + args))
    ensures AllWellTyped([t] + tokens)
    ensures SansProps(Build(p, i, [t] + tokens)) == SansProps(p.(args := p.args + ([arg] + args)))
  {
    BuildArg(p, i, t);
    BuildCons(p, i, t, tokens);
    Assoc(p.args, [arg], args);
  }

  lemma {:induction false} BuildArgs(p: Parsed, i: nat, tokens: seq<Token>, args: seq<(string, string)>)
    requires AllReadAs(tokens, args) && Settled(p, i)
    ensures AllWellTyped(tokens)
    ensures SansProps(Build(p, i, tokens)) == SansProps(p.(args := p.args + args))
    decreases tokens
  {
    if tokens == [] {
      assert p.args + args == p.args;
    } else {
      ReadAsTail(tokens, args);
      BuildArg(p, i, tokens[0]);
      BuildArgs(BuildToken(p, i, tokens[0]), i + 1, tokens[1..], args[1..]);
      BuildArgFirst(p, i, tokens[0], args[0], tokens[1..], args[1..]);
    }
  }

  function FlagItem(f: string): Item {
    Flat(f, Token(f, Word))
  }

  function FlagItems(flags: seq<string>): seq<Item> {
    if flags == [] then [] else [FlagItem(flags[0])] + FlagItems(flags[1..])
  }

  lemma {:induction false} BuildFlags(p: Parsed, i: nat, flags: seq<string>)
    requires Settled(p, i)
    ensures AllWellTyped(Toks(FlagItems(flags)))
    ensures SansProps(Build(p, i, Toks(FlagItems(flags)))) == SansProps(p.(flags := p.flags + flags))
    decreases flags
  {
    if flags == [] {
      assert p.flags + flags == p.flags;
    } else {
      var items := FlagItems(flags);
      assert items[1..] == FlagItems(flags[1..]);
      var t := items[0].Tok();
      BuildFlags(BuildToken(p, i, t), i + 1, flags[1..]);
      BuildCons(p, i, t, Toks(items[1..]));
      Assoc(p.flags, [flags[0]], flags[1..]);
      assert flags == [flags[0]] + flags[1..];
    }
  }
}
