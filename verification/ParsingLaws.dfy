/** The builder composes over tokens, and the validator accepts exactly a grammar. */
module ParsingLaws {
  import opened Scanner
  import opened ScannerLaws
  import opened Parsing

  lemma {:induction false} BuildSplit(p: Parsed, i: nat, a: seq<Token>, b: seq<Token>)
    requires AllWellTyped(a) && AllWellTyped(b)
    ensures AllWellTyped(a + b)
    ensures Build(p, i, a + b) == Build(Build(p, i, a), i + |a|, b)
    decreases a
  {
    if a == [] {
      assert a + b == b;
    } else {
      assert (a + b)[1..] == a[1..] + b;
      BuildSplit(BuildToken(p, i, a[0]), i + 1, a[1..], b);
    }
  }

  predicate HasKey(args: seq<(string, string)>, key: string) {
    exists i :: 0 <= i < |args| && args[i].0 == key
  }

  /** The five remembered bits are membership in what was built. */
  ghost predicate PropsAgree(p: Parsed) {
    p.props == Props("ok" in p.flags, "error" in p.flags,
                     HasKey(p.args, "code"), HasKey(p.args, "what"), HasKey(p.args, "body"))
  }

  lemma HasKeyAppend(args: seq<(string, string)>, arg: (string, string), key: string)
    ensures HasKey(args + [arg], key) <==> HasKey(args, key) || arg.0 == key
  {
    var longer := args + [arg];
    assert longer[|args|] == arg;
    assert forall i :: 0 <= i < |args| ==> longer[i] == args[i];
  }

  lemma ArgPropsAgree(p: Parsed, arg: (string, string))
    requires PropsAgree(p)
    ensures PropsAgree(p.(args := p.args + [arg], props := NoteArg(p.props, arg.0)))
  {
    HasKeyAppend(p.args, arg, "code");
    HasKeyAppend(p.args, arg, "what");
    HasKeyAppend(p.args, arg, "body");
  }

  lemma FlagPropsAgree(p: Parsed, flag: string)
    requires PropsAgree(p)
    ensures PropsAgree(p.(flags := p.flags + [flag], props := NoteFlag(p.props, flag)))
  {
  }

  lemma TokenPropsAgree(p: Parsed, i: nat, t: Token)
    requires PropsAgree(p) && WellTyped(t)
    ensures PropsAgree(BuildToken(p, i, t))
  {
    match t.kind
    case Arg => ArgPropsAgree(p, ReadArg(t.value));
    case Word => FlagPropsAgree(p, t.value);
    case Handle =>
  }

  lemma {:induction false} BuildPropsAgree(p: Parsed, i: nat, tokens: seq<Token>)
    requires AllWellTyped(tokens) && PropsAgree(p)
    ensures PropsAgree(Build(p, i, tokens))
    decreases tokens
  {
    if tokens != [] {
      TokenPropsAgree(p, i, tokens[0]);
      BuildPropsAgree(BuildToken(p, i, tokens[0]), i + 1, tokens[1..]);
    }
  }

  lemma ParsePropsAgree(message: string)
    ensures PropsAgree(Parse(message))
  {
    TokensWellTyped(message);
    BuildPropsAgree(FRESH, 0, Tokens(message));
  }

  /** The stated rules of each kind, in terms of what the message contains. */
  ghost predicate WellFormed(p: Parsed) {
    match p.kind
    case Request => p.capability != "" && '=' !in p.capability && p.handle != ""
    case Response =>
      && p.capability != "" && p.handle != ""
      && ("ok" in p.flags <==> "error" !in p.flags)
      && ("error" in p.flags ==> HasKey(p.args, "code") && HasKey(p.args, "what"))
    case Witness => HasKey(p.args, "body")
    case Publish => p.capability != "" && '=' !in p.capability && p.capability[0] != '~'
    case Unknown => false
  }

  /** Validation accepts exactly the well-formed messages. */
  lemma ValidateIsGrammar(message: string)
    ensures Validate(Parse(message)).Accepted? <==> WellFormed(Parse(message))
  {
    ParsePropsAgree(message);
  }

  /** The first of the rules of its kind that the message breaks is the one that text names. */
  ghost predicate Breaks(p: Parsed, text: string) {
    match p.kind
    case Request =>
      var named := p.capability != "";
      var command := '=' !in p.capability;
      || (text == "request missing command" && !named)
      || (text == "first token cannot be argument" && named && !command)
      || (text == "request missing handle" && named && command && p.handle == "")
    case Response =>
      var addressed := p.capability != "" && p.handle != "";
      var ok, error := "ok" in p.flags, "error" in p.flags;
      || (text == "response missing command; [ ~h ] should be [ ~h:c ]" && p.capability == "")
      || (text == "response missing handle" && p.capability != "" && p.handle == "")
      || (text == "response missing ok or error flag" && addressed && !ok && !error)
      || (text == "response has both ok and error flags" && addressed && ok && error)
      || (text == "error response missing code" && addressed && !ok && error && !HasKey(p.args, "code"))
      || (text == "error response missing what" && addressed && !ok && error
          && HasKey(p.args, "code") && !HasKey(p.args, "what"))
    case Witness => text == "witness missing body" && !HasKey(p.args, "body")
    case Publish =>
      var named, argument := p.capability != "", '=' in p.capability;
      || (text == "publish missing topic" && !named)
      || (text == "publish missing topic; cannot be argument; [ k=v ] should be [ t ]" && named && argument)
      || (text == "publish missing topic; cannot be handle; [ ~h ] should be [ t ]"
          && named && !argument && p.capability[0] == '~')
    case Unknown => text == "unknown message type"
  }

  lemma RejectionBreaks(p: Parsed, text: string)
    requires PropsAgree(p)
    ensures Validate(p) == Malformed(text) <==> Breaks(p, text)
  {
    match p.kind
    case Request =>
    case Response =>
    case Witness =>
    case Publish =>
    case Unknown =>
  }

  lemma VerdictRules(p: Parsed)
    requires PropsAgree(p)
    ensures match Validate(p) case Accepted => WellFormed(p) case Malformed(text) => Breaks(p, text)
  {
    match Validate(p)
    case Accepted =>
    case Malformed(text) => RejectionBreaks(p, text);
  }

  /** The reported text is that of the first rule broken, whatever the message. */
  lemma RejectionNamesRule(message: string, text: string)
    ensures Validate(Parse(message)) == Malformed(text) <==> Breaks(Parse(message), text)
  {
    ParsePropsAgree(message);
    RejectionBreaks(Parse(message), text);
  }

  lemma {:induction false} BuildKeepsKind(p: Parsed, i: nat, tokens: seq<Token>)
    requires AllWellTyped(tokens) && i > 0
    ensures Build(p, i, tokens).kind == p.kind
    decreases tokens
  {
    if tokens != [] {
      BuildKeepsKind(BuildToken(p, i, tokens[0]), i + 1, tokens[1..]);
    }
  }

  /** The kind stays unknown only for a message of plain spaces and empty quotes. */
  lemma UnknownIffNoTokens(message: string)
    ensures Parse(message).kind == Unknown <==> Tokens(message) == []
  {
    TokensWellTyped(message);
    var tokens := Tokens(message);
    if tokens != [] {
      BuildKeepsKind(BuildToken(FRESH, 0, tokens[0]), 1, tokens[1..]);
    }
  }
}
