/** What delimited text is scanned to, with the delimiters spelled out. */
module Delimiters {
  import opened Strings
  import opened Scanner
  import opened ScannerLaws
  import opened Verbatims

  /** One plain word, or nothing for the empty text. */
  function WordOf(text: string): seq<Token> {
    if text == "" then [] else [Token(text, Word)]
  }

  lemma RunToWord(s: string, text: string)
    requires Run(START, s, LookOther) == START.(value := text)
    ensures Tokens(s) == WordOf(text)
  {
    assert text + "" == text && [] + [Token(text, Word)] == [Token(text, Word)];
  }

  /** Quotes of either kind delimit one word whatever is inside: spaces, equals signs and tildes count for nothing. */
  lemma QuotedWord(v: string)
    ensures Lacks(v, '"') ==> Tokens("\"" + v + "\"") == WordOf(v)
    ensures Lacks(v, '\'') ==> Tokens("'" + v + "'") == WordOf(v)
  {
    assert START.value + v == v;
    if Lacks(v, '"') {
      RunQuoted(START, '"', v, LookOther);
      assert ['"'] + v + ['"'] == "\"" + v + "\"";
      RunToWord("\"" + v + "\"", v);
    }
    if Lacks(v, '\'') {
      RunQuoted(START, '\'', v, LookOther);
      assert ['\''] + v + ['\''] == "'" + v + "'";
      RunToWord("'" + v + "'", v);
    }
  }

  /** A block is one word with its delimiters. */
  lemma BlockWord(body: string)
    requires !HasPair(body, '>') && (body == "" || body[|body| - 1] != '>')
    ensures Tokens("<<" + body + ">>") == [Token("<<" + body + ">>", Word)]
  {
    var text := "<<" + body + ">>";
    RunBlock(START, body, LookOther);
    assert START.value + text == text;
    RunToWord(text, text);
  }

  /** "[" is closed by "]", and "{" by "}". */
  predicate Brackets(open: char, close: char) {
    (open == '[' && close == ']') || (open == '{' && close == '}')
  }

  lemma {:induction false} NestingIsCount(open: char, close: char, s: string)
    requires Brackets(open, close)
    ensures Nesting(open, s) == Count(s, open) - Count(s, close)
  {
    if s != "" {
      NestingIsCount(open, close, s[1..]);
    }
  }

  /** No beginning of s closes more than it opens. */
  ghost predicate NeverUnder(open: char, close: char, s: string) {
    forall n :: 0 <= n <= |s| ==> Count(s[..n], close) <= Count(s[..n], open)
  }

  lemma NeverUnderStaysOpen(open: char, close: char, s: string)
    requires Brackets(open, close)
    ensures StaysOpen(open, 1, s) <==> NeverUnder(open, close, s)
  {
    forall n | 0 <= n <= |s| ensures Nesting(open, s[..n]) == Count(s[..n], open) - Count(s[..n], close) {
      NestingIsCount(open, close, s[..n]);
    }
  }

  /** Text that closes as many brackets as it opens, never too soon, is one word between a pair of them. */
  lemma BracketedWord(open: char, close: char, body: string)
    requires Brackets(open, close) && NeverUnder(open, close, body) && Count(body, open) == Count(body, close)
    ensures Tokens([open] + body + [close]) == [Token([open] + body + [close], Word)]
  {
    var text := [open] + body + [close];
    NeverUnderStaysOpen(open, close, body);
    NestingIsCount(open, close, body);
    BalancedGroupVerbatim(START, open, body, LookOther);
    assert START.value + text == text;
    RunToWord(text, text);
  }

  lemma RunOpened(open: char, close: char, body: string)
    requires Brackets(open, close) && StaysOpen(open, 1, body)
    ensures 1 + Nesting(open, body) >= 1
    ensures Run(START, [open] + body, LookOther)
         == Scan(Bracket(open, 1 + Nesting(open, body)), [open] + body, Word, [])
  {
    RunHead(START, open, body, LookOther);
    var inside := Step(START, open, Peek(body, LookOther));
    assert START.value + [open] == [open] && inside == Scan(Bracket(open, 1), [open], Word, []);
    RunStaysOpen(inside, body, LookOther);
  }

  /** Brackets left open are closed at the end of the input, as many as are missing. */
  lemma UnclosedWord(open: char, close: char, body: string)
    requires Brackets(open, close) && NeverUnder(open, close, body)
    ensures var missing := 1 + Count(body, open) - Count(body, close);
            missing >= 1 && Tokens([open] + body) == [Token([open] + body + Repeat(close, missing), Word)]
  {
    NeverUnderStaysOpen(open, close, body);
    NestingIsCount(open, close, body);
    RunOpened(open, close, body);
    NothingBefore([open] + body + Repeat(close, 1 + Nesting(open, body)));
  }

  lemma NothingBefore(text: string)
    ensures [] + [Token(text, Word)] == [Token(text, Word)]
  {
  }

  /** A block left open is closed at the end of the input. */
  lemma UnclosedBlockWord(body: string)
    requires !HasPair(body, '>')
    ensures Tokens("<<" + body) == [Token("<<" + body + ">>", Word)]
  {
    RunSplit(START, "<<", body, LookOther);
    RunOpens(START, Peek(body, LookOther));
    assert START.value + "<<" == "<<";
    RunInBlock(START.(mode := Block, value := "<<"), body, LookOther);
    NothingBefore("<<" + body + ">>");
  }
}
