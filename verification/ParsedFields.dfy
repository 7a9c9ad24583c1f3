/** What any message parses to, field by field, in terms of its tokens. */
module ParsedFields {
  import opened Strings
  import opened Scanner
  import opened ScannerLaws
  import opened BareText
  import opened Parsing
  import opened ParsingLaws
  import opened Wire
  import opened Items
  import opened Forms
  import opened Rendering
  import opened PacketParse
  import opened RoundTrip
  import opened TokenReads

  // ---- Values ----

  /** s without one c at its front, if it has one. */
  ghost predicate OffFront(s: string, c: char, t: string) {
    if s != "" && s[0] == c then s == [c] + t else t == s
  }

  ghost predicate OffBack(s: string, c: char, t: string) {
    if s != "" && s[|s| - 1] == c then s == t + [c] else t == s
  }

  ghost predicate Block(written: string) {
    exists inner :: written == "<<" + inner + ">>"
  }

  /** A value of an argument is read whole, unless it is all one block: then without the delimiters and one newline
      inside each of them. */
  ghost predicate ValueRead(written: string, value: string) {
    if Block(written) then
      exists inner, mid :: written == "<<" + inner + ">>" && OffFront(inner, '\n', mid) && OffBack(mid, '\n', value)
    else value == written
  }

  lemma ValueIsRead(written: string)
    ensures ValueRead(written, StripBlock(written))
  {
    if Wrapped(written) {
      var inner := written[2..|written| - 2];
      assert written == "<<" + inner + ">>";
      assert inner != "" && inner[0] == '\n' ==> inner == ['\n'] + TrimFront(inner);
      var mid := TrimFront(inner);
      assert mid != "" && mid[|mid| - 1] == '\n' ==> mid == TrimBack(mid) + ['\n'];
      assert OffFront(inner, '\n', mid) && OffBack(mid, '\n', TrimBack(mid));
    }
    assert Block(written) ==> Wrapped(written);
  }

  /** An argument's key ends at its first equals sign. */
  ghost predicate ArgRead(text: string, arg: (string, string)) {
    exists written :: text == arg.0 + "=" + written && Lacks(arg.0, '=') && ValueRead(written, arg.1)
  }

  lemma ArgIsRead(text: string)
    requires '=' in text
    ensures ArgRead(text, ReadArg(text))
  {
    var pos := IndexOf(text, '=');
    assert text[..|text|] == text;
    SplitAt(text, '=', pos);
    ValueIsRead(text[pos + 1..]);
  }

  // ---- Arguments, flags and handle of a list of tokens ----

  /** In order, one argument for each token of that type. */
  ghost predicate ArgsRead(toks: seq<Token>, args: seq<(string, string)>)
    decreases toks
  {
    if toks == [] then args == []
    else if toks[0].kind == Arg then
      args != [] && ArgRead(toks[0].value, args[0]) && ArgsRead(toks[1..], args[1..])
    else ArgsRead(toks[1..], args)
  }

  ghost predicate FlagsRead(toks: seq<Token>, flags: seq<string>)
    decreases toks
  {
    if toks == [] then flags == []
    else if toks[0].kind == Word then flags != [] && flags[0] == toks[0].value && FlagsRead(toks[1..], flags[1..])
    else FlagsRead(toks[1..], flags)
  }

  predicate LastHandleAt(toks: seq<Token>, i: int) {
    0 <= i < |toks| && toks[i].kind == Handle && forall j :: i < j < |toks| ==> toks[j].kind != Handle
  }

  /** The name in the last handle token; before if there is none. */
  ghost predicate HandleRead(toks: seq<Token>, before: string, handle: string) {
    if NoHandle(toks) then handle == before
    else exists i :: LastHandleAt(toks, i) && toks[i].value == "~" + handle
  }

  lemma {:induction false} ArgsAreRead(toks: seq<Token>)
    requires AllWellTyped(toks)
    ensures ArgsRead(toks, ArgsOf(toks))
  {
    if toks != [] {
      var t, rest := toks[0], toks[1..];
      assert WellTyped(t);
      ArgsAreRead(rest);
      if t.kind == Arg {
        ArgIsRead(t.value);
        assert ([ReadArg(t.value)] + ArgsOf(rest))[1..] == ArgsOf(rest);
      } else {
        assert [] + ArgsOf(rest) == ArgsOf(rest);
      }
    }
  }

  lemma {:induction false} FlagsAreRead(toks: seq<Token>)
    ensures FlagsRead(toks, FlagsOf(toks))
  {
    if toks != [] {
      var t, rest := toks[0], toks[1..];
      FlagsAreRead(rest);
      if t.kind == Word {
        assert ([t.value] + FlagsOf(rest))[1..] == FlagsOf(rest);
      } else {
        assert [] + FlagsOf(rest) == FlagsOf(rest);
      }
    }
  }

  lemma HandleReadCons(t: Token, rest: seq<Token>, before: string, handle: string)
    requires WellTyped(t) && HandleRead(rest, if t.kind == Handle then t.value[1..] else before, handle)
    ensures HandleRead([t] + rest, before, handle)
  {
    var all := [t] + rest;
    assert all[0] == t && forall i :: 0 <= i < |rest| ==> all[i + 1] == rest[i];
    if NoHandle(rest) {
      if t.kind == Handle {
        assert t.value == "~" + t.value[1..];
        assert forall j :: 0 < j < |all| ==> all[j] == rest[j - 1];
        assert LastHandleAt(all, 0);
      }
    } else {
      var i :| LastHandleAt(rest, i) && rest[i].value == "~" + handle;
      assert forall j :: i + 1 < j < |all| ==> all[j] == rest[j - 1];
      assert LastHandleAt(all, i + 1);
    }
  }

  lemma {:induction false} BuildHandle(q: Parsed, i: nat, toks: seq<Token>)
    requires AllWellTyped(toks) && Settled(q, i)
    ensures HandleRead(toks, q.handle, Build(q, i, toks).handle)
    decreases toks
  {
    if toks != [] {
      var t := toks[0];
      assert WellTyped(t);
      BuildHandle(BuildToken(q, i, t), i + 1, toks[1..]);
      HandleReadCons(t, toks[1..], q.handle, Build(q, i, toks).handle);
      SeqCons(toks);
    }
  }

  // ---- The message ----

  /** The tokens of a message from those that only add to it: what they add. */
  ghost predicate Adds(p: Parsed, toks: seq<Token>, handle: string) {
    ArgsRead(toks, p.args) && FlagsRead(toks, p.flags) && HandleRead(toks, handle, p.handle)
  }

  /** A first handle token: its name is the handle, or up to the first colon the handle and after it the command. */
  ghost predicate AddressRead(p: Parsed, name: string, rest: seq<Token>) {
    if Lacks(name, ':') then p.capability == "" && Adds(p, rest, name)
    else exists handle :: name == handle + ":" + p.capability && Lacks(handle, ':') && Adds(p, rest, handle)
  }

  /** p is what the tokens say. */
  ghost predicate ReadFrom(p: Parsed, toks: seq<Token>) {
    if toks == [] then p == FRESH
    else
      var first, rest := toks[0], toks[1..];
      if first.kind == Handle then
        p.kind == Response && exists name :: first.value == "~" + name && AddressRead(p, name, rest)
      else if first.kind == Word && first.value == "witness" then
        p.kind == Witness && p.capability == "witness" && Adds(p, rest, "")
      else if first.kind == Word && first.value == "publish" then
        && p.kind == Publish
        && if rest == [] then p.capability == "" && Adds(p, [], "")
           else p.capability == rest[0].value && Adds(p, rest[1..], "")
      else p.kind == Request && p.capability == first.value && Adds(p, rest, "")
  }

  lemma RestAdds(q: Parsed, i: nat, toks: seq<Token>)
    requires AllWellTyped(toks) && Settled(q, i) && q.args == [] && q.flags == []
    ensures var p := Build(q, i, toks);
            p.kind == q.kind && p.capability == q.capability && Adds(p, toks, q.handle)
  {
    BuildRest(q, i, toks);
    BuildHandle(q, i, toks);
    ArgsAreRead(toks);
    FlagsAreRead(toks);
    assert [] + ArgsOf(toks) == ArgsOf(toks) && [] + FlagsOf(toks) == FlagsOf(toks);
  }

  lemma AddressIsRead(t: Token, rest: seq<Token>)
    requires t.kind == Handle && WellTyped(t) && AllWellTyped(rest)
    ensures var p := Build(BuildFirst(FRESH, t), 1, rest);
            p.kind == Response && AddressRead(p, t.value[1..], rest)
  {
    var name, q := t.value[1..], BuildFirst(FRESH, t);
    var pos := IndexOf(name, ':');
    RestAdds(q, 1, rest);
    if pos < |name| {
      SplitAt(name, ':', pos);
      assert name == name[..pos] + ":" + name[pos + 1..];
    }
  }

  lemma PublishIsRead(t: Token, rest: seq<Token>)
    requires t == Token("publish", Word) && AllWellTyped(rest)
    ensures var p := Build(BuildFirst(FRESH, t), 1, rest);
            && p.kind == Publish
            && if rest == [] then p.capability == "" && Adds(p, [], "")
               else p.capability == rest[0].value && Adds(p, rest[1..], "")
  {
    var q := BuildFirst(FRESH, t);
    if rest != [] {
      RestAdds(q.(capability := rest[0].value), 2, rest[1..]);
    }
  }

  /** Every message is read as its tokens say: the first decides the kind, and the rest add to it in order. */
  lemma ParseReads(message: string)
    ensures ReadFrom(Parse(message), Tokens(message))
  {
    var toks := Tokens(message);
    TokensWellTyped(message);
    if toks != [] {
      var t, rest := toks[0], toks[1..];
      assert WellTyped(t) && Parse(message) == Build(BuildFirst(FRESH, t), 1, rest);
      match t.kind
      case Handle =>
        AddressIsRead(t, rest);
        assert t.value == "~" + t.value[1..];
      case Arg => RestAdds(BuildFirst(FRESH, t), 1, rest);
      case Word =>
        if t.value == "publish" {
          PublishIsRead(t, rest);
        } else {
          RestAdds(BuildFirst(FRESH, t), 1, rest);
        }
    }
  }

  // ---- The reading leaves no choice ----

  lemma ValueReadUnique(written: string, v: string, v': string)
    requires ValueRead(written, v) && ValueRead(written, v')
    ensures v == v'
  {
    if Block(written) {
      var inner, mid :| written == "<<" + inner + ">>" && OffFront(inner, '\n', mid) && OffBack(mid, '\n', v);
      var inner', mid' :| written == "<<" + inner' + ">>" && OffFront(inner', '\n', mid') && OffBack(mid', '\n', v');
      assert inner == written[2..|written| - 2] == inner';
      OffFrontUnique(inner, '\n', mid, mid');
      OffBackUnique(mid, '\n', v, v');
    }
  }

  lemma OffFrontUnique(s: string, c: char, t: string, t': string)
    requires OffFront(s, c, t) && OffFront(s, c, t')
    ensures t == t'
  {
    if s != "" && s[0] == c {
      assert t == s[1..] == t';
    }
  }

  lemma OffBackUnique(s: string, c: char, t: string, t': string)
    requires OffBack(s, c, t) && OffBack(s, c, t')
    ensures t == t'
  {
    if s != "" && s[|s| - 1] == c {
      assert t == s[..|s| - 1] == t';
    }
  }

  lemma SplitUnique(c: char, a: string, b: string, a': string, b': string)
    requires Lacks(a, c) && Lacks(a', c) && a + [c] + b == a' + [c] + b'
    ensures a == a' && b == b'
  {
    var s := a + [c] + b;
    IndexOfUnique(s, c, |a|);
    IndexOfUnique(s, c, |a'|);
    assert s[..|a|] == a && s[..|a'|] == a' && s[|a| + 1..] == b && s[|a'| + 1..] == b';
  }

  lemma ArgReadUnique(text: string, arg: (string, string), arg': (string, string))
    requires ArgRead(text, arg) && ArgRead(text, arg')
    ensures arg == arg'
  {
    var w :| text == arg.0 + "=" + w && Lacks(arg.0, '=') && ValueRead(w, arg.1);
    var w' :| text == arg'.0 + "=" + w' && Lacks(arg'.0, '=') && ValueRead(w', arg'.1);
    SplitUnique('=', arg.0, w, arg'.0, w');
    ValueReadUnique(w, arg.1, arg'.1);
  }

  lemma {:induction false} ArgsReadUnique(toks: seq<Token>, args: seq<(string, string)>, args': seq<(string, string)>)
    requires ArgsRead(toks, args) && ArgsRead(toks, args')
    ensures args == args'
    decreases toks
  {
    if toks != [] {
      if toks[0].kind == Arg {
        ArgReadUnique(toks[0].value, args[0], args'[0]);
        ArgsReadUnique(toks[1..], args[1..], args'[1..]);
        SeqCons(args);
        SeqCons(args');
      } else {
        ArgsReadUnique(toks[1..], args, args');
      }
    }
  }

  lemma {:induction false} FlagsReadUnique(toks: seq<Token>, flags: seq<string>, flags': seq<string>)
    requires FlagsRead(toks, flags) && FlagsRead(toks, flags')
    ensures flags == flags'
    decreases toks
  {
    if toks != [] {
      if toks[0].kind == Word {
        FlagsReadUnique(toks[1..], flags[1..], flags'[1..]);
        SeqCons(flags);
        SeqCons(flags');
      } else {
        FlagsReadUnique(toks[1..], flags, flags');
      }
    }
  }

  lemma HandleReadUnique(toks: seq<Token>, before: string, h: string, h': string)
    requires HandleRead(toks, before, h) && HandleRead(toks, before, h')
    ensures h == h'
  {
    if !NoHandle(toks) {
      var i :| LastHandleAt(toks, i) && toks[i].value == "~" + h;
      var j :| LastHandleAt(toks, j) && toks[j].value == "~" + h';
      assert h == toks[i].value[1..] && h' == toks[j].value[1..];
    }
  }

  lemma AddsUnique(p: Parsed, p': Parsed, toks: seq<Token>, handle: string)
    requires Adds(p, toks, handle) && Adds(p', toks, handle)
    ensures p.args == p'.args && p.flags == p'.flags && p.handle == p'.handle
  {
    ArgsReadUnique(toks, p.args, p'.args);
    FlagsReadUnique(toks, p.flags, p'.flags);
    HandleReadUnique(toks, handle, p.handle, p'.handle);
  }

  lemma AddressUnique(p: Parsed, p': Parsed, name: string, rest: seq<Token>)
    requires AddressRead(p, name, rest) && AddressRead(p', name, rest) && p.kind == p'.kind
    ensures SansProps(p) == SansProps(p')
  {
    if Lacks(name, ':') {
      AddsUnique(p, p', rest, name);
    } else {
      var h :| name == h + ":" + p.capability && Lacks(h, ':') && Adds(p, rest, h);
      var h' :| name == h' + ":" + p'.capability && Lacks(h', ':') && Adds(p', rest, h');
      SplitUnique(':', h, p.capability, h', p'.capability);
      AddsUnique(p, p', rest, h);
    }
  }

  /** So a message's fields are exactly the ones its tokens say. */
  lemma ReadFromUnique(p: Parsed, p': Parsed, toks: seq<Token>)
    requires ReadFrom(p, toks) && ReadFrom(p', toks)
    ensures SansProps(p) == SansProps(p')
  {
    if toks != [] {
      var first, rest := toks[0], toks[1..];
      if first.kind == Handle {
        var name, name' :| first.value == "~" + name && AddressRead(p, name, rest)
                           && first.value == "~" + name' && AddressRead(p', name', rest);
        assert name == first.value[1..] == name';
        AddressUnique(p, p', name, rest);
      } else if first.kind == Word && first.value == "publish" {
        AddsUnique(p, p', if rest == [] then [] else rest[1..], "");
      } else {
        AddsUnique(p, p', rest, "");
      }
    }
  }

  /** The fields read from a message are the only ones its tokens allow. */
  lemma ParseIffReads(message: string, p: Parsed)
    ensures Tokens(message) != [] ==> (ReadFrom(p, Tokens(message)) <==> SansProps(p) == SansProps(Parse(message)))
    ensures Tokens(message) == [] ==> Parse(message) == FRESH
  {
    ParseReads(message);
    if ReadFrom(p, Tokens(message)) {
      ReadFromUnique(p, Parse(message), Tokens(message));
    }
  }

  // ---- Two messages that are never accepted ----

  lemma OfItems(first: Item, rest: seq<Item>)
    requires first.Good() && AllGood(rest)
    ensures ReadFrom(Parse(Line([first] + rest)), [first.Tok()] + Toks(rest))
  {
    var items := [first] + rest;
    assert AllGood(items) && items[1..] == rest;
    LineTokens(items);
    ParseReads(Line(items));
  }

  /** A first token that is a handle without a colon: a response to no command, whatever follows. */
  lemma LoneHandleRejected(name: string, rest: seq<Item>)
    requires Atom(name) && Lacks(name, ':') && AllGood(rest)
    ensures var p := Parse(Line([HandleWord(name)] + rest));
            && p.kind == Response && p.capability == "" && (NoHandle(Toks(rest)) ==> p.handle == name)
            && Validate(p) == Malformed("response missing command; [ ~h ] should be [ ~h:c ]")
  {
    var message := Line([HandleWord(name)] + rest);
    HandleItem(name);
    OfItems(HandleWord(name), rest);
    assert ([HandleWord(name).Tok()] + Toks(rest))[1..] == Toks(rest);
    assert ("~" + name)[1..] == name;
    RejectionNamesRule(message, "response missing command; [ ~h ] should be [ ~h:c ]");
  }

  /** A first token that is an argument: a request whose command is that argument, whatever follows. */
  lemma LeadingArgRejected(key: string, value: string, rest: seq<Item>)
    requires Atom(key) && SafeBare(value) && AllGood(rest)
    ensures var p := Parse(Line([BareItem(key, value)] + rest));
            && p.kind == Request && p.capability == key + "=" + value
            && Validate(p) == Malformed("first token cannot be argument")
  {
    var message := Line([BareItem(key, value)] + rest);
    BareItemGood(key, value);
    OfItems(BareItem(key, value), rest);
    assert ([BareItem(key, value).Tok()] + Toks(rest))[1..] == Toks(rest);
    assert (key + "=" + value)[|key|] == '=';
    RejectionNamesRule(message, "first token cannot be argument");
  }

  // ---- Responses without a handle ----

  /** A response or error response fit to be written but for its handle, which is missing. */
  ghost predicate Handleless(p: Packet) {
    var c := p.content;
    && (p.ResponsePacket? || p.ErrorPacket?) && c.handle == ""
    && Bare(c.command) && c.command != "" && c.command[0] != '~' && c.command != "witness" && c.command != "publish"
    && (forall i :: 0 <= i < |c.args| ==> SafeArg(c.args[i])) && SafeFlags(c.flags)
    && (p.ErrorPacket? ==> SafeBare(p.code) && SafeQuoted(p.what))
    && NoCrLf(Serialized(p))
  }

  function HandlelessRest(p: Packet): seq<Item> {
    NextItems(p) + (ArgItems(p.content.args) + FlagItems(TailFlags(p)))
  }

  lemma HandlelessText(p: Packet)
    requires Handleless(p)
    ensures Serialized(p) == Line([PlacedItem(p.content.command)] + HandlelessRest(p)) + "\n"
  {
    ArgItemsText(p.content.args);
    NextItemsText(p);
    FlagItemsText(TailFlags(p));
    LineParts(PlacedItem(p.content.command), NextItems(p), ArgItems(p.content.args), FlagItems(TailFlags(p)));
    match p
    case ResponsePacket(c) => ResponseText(c);
    case ErrorPacket(_, _, _) => ErrorText(p);
  }

  lemma HandlelessGood(p: Packet)
    requires Handleless(p)
    ensures AllGood(HandlelessRest(p))
  {
    match p {
      case ResponsePacket(c) => ResponseNextGood(c.flags);
      case ErrorPacket(_, code, what) => ErrorNextGood(code, what);
    }
    ArgItemsRead(p.content.args);
    TailFlagsSafe(p);
    FlagItemsGood(TailFlags(p));
  }

  lemma {:induction false} NoHandleFlags(flags: seq<string>)
    ensures NoHandle(Toks(FlagItems(flags)))
  {
    if flags != [] {
      NoHandleFlags(flags[1..]);
    }
  }

  lemma NoHandleAppend(a: seq<Token>, b: seq<Token>)
    requires NoHandle(a) && NoHandle(b)
    ensures NoHandle(a + b)
  {
  }

  lemma NextNoHandle(p: Packet)
    requires Handleless(p)
    ensures NoHandle(Toks(NextItems(p)))
  {
    match p {
      case ResponsePacket(c) =>
        assert FlagItems(["ok"] + Without(c.flags, "ok")) == NextItems(p);
        NoHandleFlags(["ok"] + Without(c.flags, "ok"));
      case ErrorPacket(_, code, what) =>
        CodeWhatRead(code, what);
        ConsText(FlagItem("error"), OptItem(code, BareItem("code", code)) + OptItem(what, QuotedItem("what", what)));
    }
  }

  lemma HandlelessTokens(p: Packet)
    requires Handleless(p)
    ensures NoHandle(Toks(HandlelessRest(p)))
  {
    var args, flags := ArgItems(p.content.args), FlagItems(TailFlags(p));
    ArgItemsRead(p.content.args);
    NoHandleFlags(TailFlags(p));
    ToksAppend(args, flags);
    NoHandleAppend(Toks(args), Toks(flags));
    ToksAppend(NextItems(p), args + flags);
    NextNoHandle(p);
    NoHandleAppend(Toks(NextItems(p)), Toks(args + flags));
  }

  lemma CommandRead(p: Parsed, t: Token, rest: seq<Token>)
    requires ReadFrom(p, [t] + rest) && NoHandle(rest)
    requires WellTyped(t) && BuildFirst(FRESH, t).kind == Request
    ensures p.kind == Request && p.capability == t.value && p.handle == ""
  {
    assert ([t] + rest)[1..] == rest;
  }

  /** A response written without a handle begins with its command, so neither form reads it back: it is read as a
      request to that command, and rejected as one without a handle. */
  lemma HandlelessIsRequest(p: Packet)
    requires Handleless(p)
    ensures FromRaw(p, Serialized(p)) == None
    ensures var q := Parse(Normalise(Serialized(p)));
            && q.kind == Request && q.capability == p.content.command && q.handle == ""
            && ('=' !in p.content.command ==> Validate(q) == Malformed("request missing handle"))
  {
    var first, rest := PlacedItem(p.content.command), HandlelessRest(p);
    HandlelessText(p);
    NormaliseLine(Line([first] + rest));
    CommandBuilt(p.content.command);
    HandlelessGood(p);
    OfItems(first, rest);
    HandlelessTokens(p);
    CommandRead(Parse(Line([first] + rest)), first.Tok(), Toks(rest));
    RejectionNamesRule(Line([first] + rest), "request missing handle");
  }
}
