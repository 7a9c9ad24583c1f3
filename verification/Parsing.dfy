/** Tokens to a message: the builder and the validator, as functions of the tokens. */
module Parsing {
  import opened Strings
  import opened Scanner
  import opened ScannerLaws

  datatype Kind = Unknown | Request | Response | Witness | Publish

  datatype Props = Props(flagOk: bool, flagError: bool, argCode: bool, argWhat: bool, argBody: bool)

  const NO_PROPS := Props(false, false, false, false, false)

  /** What a parser and the message it fills hold together. */
  datatype Parsed = Parsed(
    kind: Kind,
    capability: string,
    handle: string,
    args: seq<(string, string)>,
    flags: seq<string>,
    props: Props)

  const FRESH := Parsed(Unknown, "", "", [], [], NO_PROPS)

  /** "<<...>>", the form whose delimiters the builder strips. */
  predicate Wrapped(value: string) {
    && |value| >= 4 && value[0] == '<' && value[1] == '<'
    && value[|value| - 2] == '>' && value[|value| - 1] == '>'
  }

  function TrimFront(s: string): string {
    if s != "" && s[0] == '\n' then s[1..] else s
  }

  function TrimBack(s: string): string {
    if s != "" && s[|s| - 1] == '\n' then s[..|s| - 1] else s
  }

  function StripBlock(value: string): string {
    if Wrapped(value) then TrimBack(TrimFront(value[2..|value| - 2])) else value
  }

  function ReadArg(text: string): (string, string)
    requires '=' in text
  {
    var pos := IndexOf(text, '=');
    assert pos < |text| by {
      assert text[..|text|] == text;
    }
    (text[..pos], StripBlock(text[pos + 1..]))
  }

  function NoteArg(props: Props, key: string): Props {
    if key == "code" then props.(argCode := true)
    else if key == "what" then props.(argWhat := true)
    else if key == "body" then props.(argBody := true)
    else props
  }

  function NoteFlag(props: Props, flag: string): Props {
    if flag == "ok" then props.(flagOk := true)
    else if flag == "error" then props.(flagError := true)
    else props
  }

  /** The first token decides the kind. */
  function BuildFirst(p: Parsed, t: Token): Parsed
    requires WellTyped(t)
  {
    match t.kind
    case Arg => p.(kind := Request, capability := t.value)
    case Handle =>
      var name := t.value[1..];
      var pos := IndexOf(name, ':');
      if pos == |name| then p.(kind := Response, handle := name)
      else p.(kind := Response, handle := name[..pos], capability := name[pos + 1..])
    case Word =>
      if t.value == "witness" then p.(kind := Witness, capability := t.value)
      else if t.value == "publish" then p.(kind := Publish)
      else p.(kind := Request, capability := t.value)
  }

  function BuildOther(p: Parsed, t: Token): Parsed
    requires WellTyped(t)
  {
    match t.kind
    case Arg =>
      var (key, value) := ReadArg(t.value);
      p.(args := p.args + [(key, value)], props := NoteArg(p.props, key))
    case Handle => p.(handle := t.value[1..])
    case Word => p.(flags := p.flags + [t.value], props := NoteFlag(p.props, t.value))
  }

  function BuildToken(p: Parsed, i: nat, t: Token): Parsed
    requires WellTyped(t)
  {
    if i == 0 then BuildFirst(p, t)
    else if p.kind == Publish && i == 1 then p.(capability := t.value)
    else BuildOther(p, t)
  }

  ghost predicate AllWellTyped(tokens: seq<Token>) {
    forall t :: t in tokens ==> WellTyped(t)
  }

  ghost function Build(p: Parsed, i: nat, tokens: seq<Token>): Parsed
    requires AllWellTyped(tokens)
    decreases tokens
  {
    if tokens == [] then p else Build(BuildToken(p, i, tokens[0]), i + 1, tokens[1..])
  }

  /** What a fresh parser makes of a message. */
  ghost function Parse(message: string): Parsed {
    TokensWellTyped(message);
    Build(FRESH, 0, Tokens(message))
  }

  // ---- Validation ----

  datatype Verdict = Accepted | Malformed(what: string)

  function Validate(p: Parsed): Verdict {
    match p.kind
    case Request =>
      if p.capability == "" then Malformed("request missing command")
      else if '=' in p.capability then Malformed("first token cannot be argument")
      else if p.handle == "" then Malformed("request missing handle")
      else Accepted
    case Response =>
      if p.capability == "" then Malformed("response missing command; [ ~h ] should be [ ~h:c ]")
      else if p.handle == "" then Malformed("response missing handle")
      else if !p.props.flagOk && !p.props.flagError then Malformed("response missing ok or error flag")
      else if p.props.flagOk && p.props.flagError then Malformed("response has both ok and error flags")
      else if p.props.flagError && !p.props.argCode then Malformed("error response missing code")
      else if p.props.flagError && !p.props.argWhat then Malformed("error response missing what")
      else Accepted
    case Witness =>
      if !p.props.argBody then Malformed("witness missing body") else Accepted
    case Publish =>
      if p.capability == "" then Malformed("publish missing topic")
      else if '=' in p.capability then
        Malformed("publish missing topic; cannot be argument; [ k=v ] should be [ t ]")
      else if p.capability[0] == '~' then
        Malformed("publish missing topic; cannot be handle; [ ~h ] should be [ t ]")
      else Accepted
    case Unknown => Malformed("unknown message type")
  }
}
