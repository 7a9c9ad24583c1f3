/** What a message's tokens read as, and why no newline is missing from them if the fields are all there. */
module TokenReads {
  import opened Strings
  import opened Ordered
  import opened Scanner
  import opened ScannerLaws
  import opened Parsing
  import opened Wire
  import opened Items
  import opened Forms
  import opened LostNewlines
  import opened ThinScan

  // ---- Arguments and flags of a list of tokens ----

  ghost function ArgsOf(toks: seq<Token>): seq<(string, string)>
    requires AllWellTyped(toks)
  {
    if toks == [] then []
    else
      assert WellTyped(toks[0]);
      (if toks[0].kind == Arg then [ReadArg(toks[0].value)] else []) + ArgsOf(toks[1..])
  }

  function FlagsOf(toks: seq<Token>): seq<string> {
    if toks == [] then [] else (if toks[0].kind == Word then [toks[0].value] else []) + FlagsOf(toks[1..])
  }

  predicate NoHandle(toks: seq<Token>) {
    forall t :: t in toks ==> t.kind != Handle
  }

  /** From there on, tokens only add arguments and flags, and may set the handle. */
  lemma {:induction false} BuildRest(q: Parsed, i: nat, toks: seq<Token>)
    requires AllWellTyped(toks) && Settled(q, i)
    ensures var r := Build(q, i, toks);
            && r.kind == q.kind && r.capability == q.capability
            && (NoHandle(toks) ==> r.handle == q.handle)
            && r.args == q.args + ArgsOf(toks) && r.flags == q.flags + FlagsOf(toks)
    decreases toks
  {
    if toks == [] {
      assert q.args + [] == q.args && q.flags + [] == q.flags;
    } else {
      var t := toks[0];
      BuildRest(BuildToken(q, i, t), i + 1, toks[1..]);
      var args := if t.kind == Arg then [ReadArg(t.value)] else [];
      var flags := if t.kind == Word then [t.value] else [];
      assert q.args + [] == q.args && q.flags + [] == q.flags;
      Assoc(q.args, args, ArgsOf(toks[1..]));
      Assoc(q.flags, flags, FlagsOf(toks[1..]));
    }
  }

  ghost predicate ThinTokens(toks: seq<Token>, toks': seq<Token>) {
    |toks'| == |toks| && forall i :: 0 <= i < |toks| ==> ThinToken(toks[i], toks'[i])
  }

  lemma ThinTokensTail(toks: seq<Token>, toks': seq<Token>)
    requires ThinTokens(toks, toks') && toks != []
    ensures ThinToken(toks[0], toks'[0]) && ThinTokens(toks[1..], toks'[1..])
  {
  }

  ghost predicate ThinArgs(args: seq<(string, string)>, args': seq<(string, string)>) {
    |args'| == |args| && forall i :: 0 <= i < |args| ==> ThinArg(args[i], args'[i])
  }

  ghost predicate ThinTexts(xs: seq<string>, ys: seq<string>) {
    |ys| == |xs| && forall i :: 0 <= i < |xs| ==> Thin(xs[i], ys[i])
  }

  lemma ThinArgsCons(
    arg: (string, string), args: seq<(string, string)>, arg': (string, string), args': seq<(string, string)>)
    requires ThinArg(arg, arg') && ThinArgs(args, args')
    ensures ThinArgs([arg] + args, [arg'] + args')
  {
  }

  lemma ThinTextsCons(x: string, xs: seq<string>, y: string, ys: seq<string>)
    requires Thin(x, y) && ThinTexts(xs, ys)
    ensures ThinTexts([x] + xs, [y] + ys)
  {
  }

  lemma {:induction false} ThinFields(toks: seq<Token>, toks': seq<Token>)
    requires ThinTokens(toks, toks') && AllWellTyped(toks) && AllWellTyped(toks')
    ensures ThinArgs(ArgsOf(toks), ArgsOf(toks')) && ThinTexts(FlagsOf(toks), FlagsOf(toks'))
    decreases toks
  {
    if toks != [] {
      var t, t', rest, rest' := toks[0], toks'[0], toks[1..], toks'[1..];
      ThinTokensTail(toks, toks');
      ThinFields(rest, rest');
      assert WellTyped(t) && WellTyped(t');
      assert [] + ArgsOf(rest) == ArgsOf(rest) && [] + ArgsOf(rest') == ArgsOf(rest');
      assert [] + FlagsOf(rest) == FlagsOf(rest) && [] + FlagsOf(rest') == FlagsOf(rest');
      match t.kind
      case Arg =>
        ThinRead(t.value, t'.value);
        ThinArgsCons(ReadArg(t.value), ArgsOf(rest), ReadArg(t'.value), ArgsOf(rest'));
      case Word => ThinTextsCons(t.value, FlagsOf(rest), t'.value, FlagsOf(rest'));
      case Handle =>
    }
  }

  /** The tokens read as the same argument, or are the same. */
  ghost predicate SameRead(t: Token, t': Token) {
    && t'.kind == t.kind
    && (t'.value == t.value
        || (t.kind == Arg && '=' in t.value && '=' in t'.value && ReadArg(t'.value) == ReadArg(t.value)))
  }

  ghost predicate AllSameRead(toks: seq<Token>, toks': seq<Token>) {
    |toks'| == |toks| && forall i :: 0 <= i < |toks| ==> SameRead(toks[i], toks'[i])
  }

  lemma SameReadCons(t: Token, t': Token, toks: seq<Token>, toks': seq<Token>)
    requires SameRead(t, t') && AllSameRead(toks, toks')
    ensures AllSameRead([t] + toks, [t'] + toks')
  {
  }

  lemma SeqCons<T>(s: seq<T>)
    requires s != []
    ensures s == [s[0]] + s[1..]
  {
  }

  lemma SameHead<T>(a: seq<T>, x: seq<T>, b: seq<T>, y: seq<T>)
    requires a + x == b + y && |a| == |b|
    ensures a == b && x == y
  {
    assert a == (a + x)[..|a|] && b == (b + y)[..|b|];
    assert x == (a + x)[|a|..] && y == (b + y)[|b|..];
  }

  lemma SameFirst(t: Token, t': Token, arg: seq<(string, string)>, arg': seq<(string, string)>,
                  flag: seq<string>, flag': seq<string>)
    requires WellTyped(t) && WellTyped(t') && t'.kind == t.kind && t.kind != Handle
    requires t.kind == Arg ==> arg == [ReadArg(t.value)] && arg' == [ReadArg(t'.value)]
    requires t.kind == Word ==> flag == [t.value] && flag' == [t'.value]
    requires arg == arg' && flag == flag'
    ensures SameRead(t, t')
  {
    if t.kind == Arg {
      assert arg[0] == arg'[0];
    } else {
      assert flag[0] == flag'[0];
    }
  }

  lemma {:induction false} SameFieldsSameRead(toks: seq<Token>, toks': seq<Token>)
    requires ThinTokens(toks, toks') && AllWellTyped(toks) && AllWellTyped(toks') && NoHandle(toks)
    requires ArgsOf(toks') == ArgsOf(toks) && FlagsOf(toks') == FlagsOf(toks)
    ensures AllSameRead(toks, toks')
    decreases toks
  {
    if toks != [] {
      ThinTokensTail(toks, toks');
      ThinFields(toks[1..], toks'[1..]);
      var t, t' := toks[0], toks'[0];
      assert WellTyped(t) && WellTyped(t');
      var arg := if t.kind == Arg then [ReadArg(t.value)] else [];
      var arg' := if t'.kind == Arg then [ReadArg(t'.value)] else [];
      var flag, flag' := if t.kind == Word then [t.value] else [], if t'.kind == Word then [t'.value] else [];
      SameHead(arg, ArgsOf(toks[1..]), arg', ArgsOf(toks'[1..]));
      SameHead(flag, FlagsOf(toks[1..]), flag', FlagsOf(toks'[1..]));
      SameFirst(t, t', arg, arg', flag, flag');
      SameFieldsSameRead(toks[1..], toks'[1..]);
      SameReadCons(toks[0], toks'[0], toks[1..], toks'[1..]);
      SeqCons(toks);
      SeqCons(toks');
    }
  }

  /** Tokens that read the same build the same fields. */
  lemma {:induction false} BuildSame(q: Parsed, q': Parsed, i: nat, toks: seq<Token>, toks': seq<Token>)
    requires AllWellTyped(toks) && AllWellTyped(toks') && AllSameRead(toks, toks')
    requires SansProps(q) == SansProps(q') && i >= 1
    requires q.kind == Publish && i == 1 && toks != [] ==> toks'[0].value == toks[0].value
    ensures SansProps(Build(q, i, toks)) == SansProps(Build(q', i, toks'))
    decreases toks
  {
    if toks != [] {
      assert SameRead(toks[0], toks'[0]);
      assert q'.kind == SansProps(q').kind && q.kind == SansProps(q).kind;
      BuildSame(BuildToken(q, i, toks[0]), BuildToken(q', i, toks'[0]), i + 1, toks[1..], toks'[1..]);
    }
  }

  // ---- No newline is missing if the fields are all there ----

  function SumOf<T>(m: T -> nat, xs: seq<T>): nat {
    if xs == [] then 0 else m(xs[0]) + SumOf(m, xs[1..])
  }

  lemma {:induction false} SumWithout<T>(m: T -> nat, xs: seq<T>, j: nat)
    requires j < |xs|
    ensures SumOf(m, xs) == m(xs[j]) + SumOf(m, xs[..j] + xs[j + 1..])
    decreases xs
  {
    if j == 0 {
      assert xs[..0] + xs[1..] == xs[1..];
    } else {
      SumWithout(m, xs[1..], j - 1);
      var rest := xs[1..][..j - 1] + xs[1..][j..];
      assert (xs[..j] + xs[j + 1..])[1..] == rest;
    }
  }

  ghost predicate Covers<T(!new)>(m: T -> nat, xs: seq<T>, ys: seq<T>) {
    && (forall i, j :: 0 <= i < j < |xs| && m(xs[i]) > 0 ==> xs[i] != xs[j])
    && (forall i :: 0 <= i < |xs| && m(xs[i]) > 0 ==> xs[i] in ys)
  }

  lemma CoversLess<T(!new)>(m: T -> nat, xs: seq<T>, ys: seq<T>, j: nat)
    requires xs != [] && Covers(m, xs, ys) && j < |ys| && m(xs[0]) > 0 && ys[j] == xs[0]
    ensures Covers(m, xs[1..], ys[..j] + ys[j + 1..])
  {
    var rest := ys[..j] + ys[j + 1..];
    forall i | 0 <= i < |xs[1..]| && m(xs[1..][i]) > 0 ensures xs[1..][i] in rest {
      var k :| 0 <= k < |ys| && ys[k] == xs[i + 1];
      assert rest[if k < j then k else k - 1] == ys[k];
    }
  }

  /** Distinct elements found in ys weigh no more than all of ys. */
  lemma {:induction false} CoverSum<T(!new)>(m: T -> nat, xs: seq<T>, ys: seq<T>)
    requires Covers(m, xs, ys)
    ensures SumOf(m, xs) <= SumOf(m, ys)
    decreases xs
  {
    if xs != [] {
      if m(xs[0]) > 0 {
        var j :| 0 <= j < |ys| && ys[j] == xs[0];
        CoversLess(m, xs, ys, j);
        CoverSum(m, xs[1..], ys[..j] + ys[j + 1..]);
        SumWithout(m, ys, j);
      } else {
        assert Covers(m, xs[1..], ys);
        CoverSum(m, xs[1..], ys);
      }
    }
  }

  ghost predicate NoHeavier<T(!new)>(m: T -> nat, xs: seq<T>, ys: seq<T>) {
    |ys| == |xs| && forall i :: 0 <= i < |xs| ==> m(ys[i]) <= m(xs[i])
  }

  lemma {:induction false} LighterSum<T(!new)>(m: T -> nat, xs: seq<T>, ys: seq<T>)
    requires NoHeavier(m, xs, ys)
    ensures SumOf(m, ys) <= SumOf(m, xs)
    ensures SumOf(m, ys) == SumOf(m, xs) ==> forall i :: 0 <= i < |xs| ==> m(ys[i]) == m(xs[i])
    decreases xs
  {
    if xs != [] {
      assert NoHeavier(m, xs[1..], ys[1..]);
      LighterSum(m, xs[1..], ys[1..]);
      assert forall i :: 0 < i < |xs| ==> xs[i] == xs[1..][i - 1] && ys[i] == ys[1..][i - 1];
    }
  }

  /** If the distinct elements of xs are all in ys, and ys is nowhere heavier, then it is nowhere lighter. */
  lemma CoverEqual<T(!new)>(m: T -> nat, xs: seq<T>, ys: seq<T>)
    requires Covers(m, xs, ys) && NoHeavier(m, xs, ys)
    ensures forall i :: 0 <= i < |xs| ==> m(ys[i]) == m(xs[i])
  {
    CoverSum(m, xs, ys);
    LighterSum(m, xs, ys);
  }

  function ArgNewlines(arg: (string, string)): nat {
    Newlines(arg.0) + Newlines(arg.1)
  }

  lemma ThinArgCount(arg: (string, string), arg': (string, string))
    requires ThinArg(arg, arg')
    ensures ArgNewlines(arg') <= ArgNewlines(arg)
    ensures ArgNewlines(arg') == ArgNewlines(arg) ==> arg' == arg
  {
    ThinCount(arg.0, arg'.0);
    if Thin(arg.1, arg'.1) {
      ThinCount(arg.1, arg'.1);
    }
  }

  lemma ArgsAllThere(args: seq<(string, string)>, args': seq<(string, string)>)
    requires ThinArgs(args, args') && Covers(ArgNewlines, args, args')
    ensures args' == args
  {
    forall i | 0 <= i < |args|
      ensures ArgNewlines(args'[i]) <= ArgNewlines(args[i])
      ensures ArgNewlines(args'[i]) == ArgNewlines(args[i]) ==> args'[i] == args[i]
    {
      ThinArgCount(args[i], args'[i]);
    }
    CoverEqual(ArgNewlines, args, args');
  }

  lemma FlagsAllThere(flags: seq<string>, flags': seq<string>)
    requires ThinTexts(flags, flags') && Covers(Newlines, flags, flags')
    ensures flags' == flags
  {
    forall i | 0 <= i < |flags|
      ensures Newlines(flags'[i]) <= Newlines(flags[i])
      ensures Newlines(flags'[i]) == Newlines(flags[i]) ==> flags'[i] == flags[i]
    {
      ThinCount(flags[i], flags'[i]);
    }
    CoverEqual(Newlines, flags, flags');
  }

  // ---- What the fields hold was in the tokens ----

  lemma {:induction false} PutFrom(args: Args, k: string, v: string, x: (string, string))
    requires x in Put(args, k, v)
    ensures x == (k, v) || x in args
  {
    if args != [] && k != args[0].0 && !Before(k, args[0].0) {
      if x != args[0] {
        PutFrom(args[1..], k, v, x);
      }
    }
  }

  lemma {:induction false} PutAllFrom(args: Args, more: seq<(string, string)>, x: (string, string))
    requires x in PutAll(args, more)
    ensures x in args || x in more
    decreases more
  {
    if more != [] {
      PutAllFrom(Put(args, more[0].0, more[0].1), more[1..], x);
      if x in Put(args, more[0].0, more[0].1) {
        PutFrom(args, more[0].0, more[0].1, x);
      }
    }
  }

  lemma {:induction false} OthersFrom(args: seq<(string, string)>, names: set<string>, x: (string, string))
    requires x in Others(args, names)
    ensures x in args
  {
    if x != args[0] {
      OthersFrom(args[1..], names, x);
    }
  }

  lemma {:induction false} LastValueFrom(args: seq<(string, string)>, key: string)
    requires LastValue(args, key) != ""
    ensures (key, LastValue(args, key)) in args
  {
    var last := |args| - 1;
    if args[last].0 != key {
      LastValueFrom(args[..last], key);
    } else {
      assert args[last] == (key, LastValue(args, key));
    }
  }
}
