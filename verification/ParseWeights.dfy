/** Parsing makes no newline, carriage return or '=': a text bounds how often they occur in what it parses to. */
module ParseWeights {
  import opened Strings
  import opened Scanner
  import opened ScannerLaws
  import opened Verbatims
  import opened Parsing
  import opened Forms
  import opened Items
  import opened TokenReads
  import opened IntactItems

  function ArgEquals(arg: (string, string)): nat {
    Count(arg.0, '=') + Count(arg.1, '=') + 1
  }

  function TextEquals(s: string): nat {
    Count(s, '=')
  }

  function ArgReturns(arg: (string, string)): nat {
    Count(arg.0, '\r') + Count(arg.1, '\r')
  }

  function Returns(s: string): nat {
    Count(s, '\r')
  }

  /** A newline, a carriage return or '='. */
  predicate Weighed(c: char) {
    c == '\n' || c == '\r' || c == '='
  }

  /** m and f weigh arguments and texts by how often c occurs in them, the '=' of an argument included. */
  ghost predicate Weighs(m: ((string, string)) -> nat, f: string -> nat, c: char) {
    || (c == '\n' && m == ArgNewlines && f == Newlines)
    || (c == '\r' && m == ArgReturns && f == Returns)
    || (c == '=' && m == ArgEquals && f == TextEquals)
  }

  function Weight(m: ((string, string)) -> nat, f: string -> nat, q: Parsed): nat {
    f(q.capability) + f(q.handle) + SumOf(m, q.args) + SumOf(f, q.flags)
  }

  lemma {:induction false} SumAppend<T>(m: T -> nat, xs: seq<T>, ys: seq<T>)
    ensures SumOf(m, xs + ys) == SumOf(m, xs) + SumOf(m, ys)
  {
    if xs == [] {
      assert xs + ys == ys;
    } else {
      assert (xs + ys)[1..] == xs[1..] + ys;
      SumAppend(m, xs[1..], ys);
    }
  }

  lemma SumOne<T>(m: T -> nat, xs: seq<T>, y: T)
    ensures SumOf(m, xs + [y]) == SumOf(m, xs) + m(y)
  {
    SumAppend(m, xs, [y]);
    assert [y][1..] == [];
  }

  // ---- Stripping and splitting ----

  lemma CountAround(a: string, b: string, d: string, c: char)
    ensures Count(a + b + d, c) == Count(a, c) + Count(b, c) + Count(d, c)
  {
    CountConcat(a + b, d, c);
    CountConcat(a, b, c);
  }

  lemma {:induction false} CountPair(d: char, c: char)
    ensures Count([d, d], c) == if c == d then 2 else 0
  {
    assert [d, d] == [d] + [d] && [d][1..] == "";
    CountConcat([d], [d], c);
  }

  lemma TrimCount(s: string, c: char)
    ensures Count(TrimFront(s), c) <= Count(s, c) && Count(TrimBack(s), c) <= Count(s, c)
    ensures c != '\n' ==> Count(TrimFront(s), c) == Count(s, c) && Count(TrimBack(s), c) == Count(s, c)
  {
    if s != "" && s[|s| - 1] == '\n' {
      assert s == s[..|s| - 1] + "\n";
      CountConcat(s[..|s| - 1], "\n", c);
      assert "\n"[1..] == "";
    }
  }

  /** Stripping takes away two '<' and two '>' and at most some newlines. */
  lemma StripCount(x: string, c: char)
    ensures Count(StripBlock(x), c) <= Count(x, c)
    ensures c != '\n' ==>
              Count(x, c) == Count(StripBlock(x), c) + if Wrapped(x) && (c == '<' || c == '>') then 2 else 0
  {
    if Wrapped(x) {
      var inner := x[2..|x| - 2];
      assert x == ['<', '<'] + inner + ['>', '>'];
      CountAround(['<', '<'], inner, ['>', '>'], c);
      CountPair('<', c);
      CountPair('>', c);
      TrimCount(inner, c);
      TrimCount(TrimFront(inner), c);
    }
  }

  lemma CountAt(s: string, d: char, i: nat, c: char)
    requires i < |s| && s[i] == d
    ensures Count(s, c) == Count(s[..i], c) + Count(s[i + 1..], c) + if c == d then 1 else 0
  {
    SplitAt(s, d, i);
    CountAround(s[..i], [d], s[i + 1..], c);
    assert [d][1..] == "";
  }

  /** An argument weighs no more than its text, and as much unless its block delimiters are stripped of newlines. */
  lemma ArgTextWeight(m: ((string, string)) -> nat, f: string -> nat, c: char, text: string)
    requires Weighs(m, f, c) && '=' in text
    ensures m(ReadArg(text)) <= Count(text, c)
    ensures c != '\n' || !Wrapped(text[IndexOf(text, '=') + 1..]) ==> m(ReadArg(text)) == Count(text, c)
  {
    assert text[..|text|] == text;
    var pos := IndexOf(text, '=');
    CountAt(text, '=', pos, c);
    StripCount(text[pos + 1..], c);
  }

  lemma NameWeight(name: string, c: char)
    ensures var pos := IndexOf(name, ':');
            c != ':' && pos < |name| ==> Count(name, c) == Count(name[..pos], c) + Count(name[pos + 1..], c)
  {
    var pos := IndexOf(name, ':');
    if pos < |name| {
      CountAt(name, ':', pos, c);
    }
  }

  // ---- Building ----

  function TokensCount(toks: seq<Token>, c: char): nat {
    if toks == [] then 0 else Count(toks[0].value, c) + TokensCount(toks[1..], c)
  }

  lemma FirstWeight(m: ((string, string)) -> nat, f: string -> nat, c: char, t: Token)
    requires Weighs(m, f, c) && WellTyped(t)
    ensures Weight(m, f, BuildFirst(FRESH, t)) <= Count(t.value, c)
  {
    if t.kind == Handle {
      assert t.value == ['~'] + t.value[1..];
      CountConcat(['~'], t.value[1..], c);
      NameWeight(t.value[1..], c);
    }
  }

  lemma TokenWeight(m: ((string, string)) -> nat, f: string -> nat, c: char, q: Parsed, i: nat, t: Token)
    requires Weighs(m, f, c) && WellTyped(t) && i > 0
    ensures Weight(m, f, BuildToken(q, i, t)) <= Weight(m, f, q) + Count(t.value, c)
  {
    match t.kind
    case Arg =>
      ArgTextWeight(m, f, c, t.value);
      SumOne(m, q.args, ReadArg(t.value));
    case Handle =>
      assert t.value == ['~'] + t.value[1..];
      CountConcat(['~'], t.value[1..], c);
    case Word =>
      SumOne(f, q.flags, t.value);
  }

  lemma {:induction false} BuildWeight(
    m: ((string, string)) -> nat, f: string -> nat, c: char, q: Parsed, i: nat, toks: seq<Token>)
    requires Weighs(m, f, c) && AllWellTyped(toks) && i > 0
    ensures Weight(m, f, Build(q, i, toks)) <= Weight(m, f, q) + TokensCount(toks, c)
    decreases toks
  {
    if toks != [] {
      assert WellTyped(toks[0]);
      TokenWeight(m, f, c, q, i, toks[0]);
      BuildWeight(m, f, c, BuildToken(q, i, toks[0]), i + 1, toks[1..]);
    }
  }

  lemma {:induction false} ValuesCons(t: Token, toks: seq<Token>)
    ensures Values([t] + toks) == t.value + Values(toks)
  {
    var all := [t] + toks;
    if toks == [] {
      assert all[..0] == [] && "" + t.value == t.value + "";
    } else {
      var init, last := toks[..|toks| - 1], toks[|toks| - 1];
      assert all[..|all| - 1] == [t] + init;
      ValuesCons(t, init);
      Assoc(t.value, Values(init), last.value);
    }
  }

  lemma {:induction false} CountValues(toks: seq<Token>, c: char)
    ensures Count(Values(toks), c) == TokensCount(toks, c)
  {
    if toks != [] {
      SeqCons(toks);
      ValuesCons(toks[0], toks[1..]);
      CountConcat(toks[0].value, Values(toks[1..]), c);
      CountValues(toks[1..], c);
    }
  }

  lemma {:induction false} CountRepeat(d: char, n: nat, c: char)
    requires c != d
    ensures Count(Repeat(d, n), c) == 0
  {
    if n > 0 {
      assert Repeat(d, n)[1..] == Repeat(d, n - 1);
      CountRepeat(d, n - 1, c);
    }
  }

  lemma NoClosers(mode: Mode, c: char)
    requires BracketsKnown(mode) && c != ']' && c != '}' && c != '>'
    ensures Count(AutoClose(mode), c) == 0
  {
    match mode
    case Bracket(open, depth) => CountRepeat(Closing(open), depth, c);
    case Block =>
      CountPair('>', c);
      assert ['>', '>'] == ">>";
    case _ =>
  }

  /** The tokens of a text hold its newlines and its '=', no more and no less. */
  lemma TokensHold(message: string, c: char)
    requires Weighed(c)
    ensures TokensCount(Tokens(message), c) == Count(message, c)
  {
    var mode := EndMode(Plain, message, LookOther);
    TokensConserve(message);
    CountValues(Tokens(message), c);
    CountConcat(Kept(Plain, message, LookOther), AutoClose(mode), c);
    CountKept(Plain, message, LookOther, c);
    ModesKnown(message, LookOther);
    NoClosers(mode, c);
  }

  lemma ParseWeight(m: ((string, string)) -> nat, f: string -> nat, c: char, message: string)
    requires Weighs(m, f, c)
    ensures Weight(m, f, Parse(message)) <= Count(message, c)
  {
    var toks := Tokens(message);
    TokensWellTyped(message);
    TokensHold(message, c);
    if toks != [] {
      assert WellTyped(toks[0]);
      FirstWeight(m, f, c, toks[0]);
      BuildWeight(m, f, c, BuildFirst(FRESH, toks[0]), 1, toks[1..]);
    }
  }

  // ---- Items ----

  lemma GoodCount(it: Item, c: char)
    requires it.Good() && c != ' ' && c != '"' && c != '\''
    ensures Count(it.Text(), c) == Count(it.Tok().value, c)
  {
    GoodKept(it);
    CountKept(Plain, it.Text(), LookOther, c);
  }

  lemma CountTail(it: Item, items: seq<Item>, c: char)
    requires c != ' '
    ensures Count(Tail([it] + items), c) == Count(it.Text(), c) + Count(Tail(items), c)
  {
    assert ([it] + items)[1..] == items;
    CountAround(" ", it.Text(), Tail(items), c);
    assert " "[1..] == "";
  }

  // ---- Nothing more ----

  lemma SumPositive<T(!new)>(m: T -> nat, ys: seq<T>)
    requires forall x :: m(x) > 0
    ensures ys != [] ==> SumOf(m, ys) > 0
  {
    if ys != [] {
      assert m(ys[0]) > 0;
    }
  }

  /** If xs is found in ys and ys weighs no more, then ys holds nothing else. */
  lemma {:induction false} CoverAll<T(!new)>(m: T -> nat, xs: seq<T>, ys: seq<T>)
    requires Covers(m, xs, ys) && SumOf(m, ys) <= SumOf(m, xs)
    requires forall x :: m(x) > 0
    ensures forall i :: 0 <= i < |ys| ==> ys[i] in xs
    decreases xs
  {
    SumPositive(m, ys);
    if xs != [] {
      assert m(xs[0]) > 0;
      var j :| 0 <= j < |ys| && ys[j] == xs[0];
      var rest := ys[..j] + ys[j + 1..];
      CoversLess(m, xs, ys, j);
      SumWithout(m, ys, j);
      CoverAll(m, xs[1..], rest);
      forall i | 0 <= i < |ys| ensures ys[i] in xs {
        if i != j {
          assert rest[if i < j then i else i - 1] == ys[i];
        }
      }
    }
  }
}
