/** The five message kinds as values, their wire text, and how parsed text becomes one of them again. */
module Wire {
  import opened Ordered
  import opened Parsing

  datatype Option<+T> = None | Some(value: T)

  datatype Content = Content(command: string, handle: string, args: Args, flags: Flags)

  const EMPTY_CONTENT := Content("", "", [], [])

  datatype Packet =
    | RequestPacket(content: Content)
    | ResponsePacket(content: Content)
    | ErrorPacket(content: Content, code: string, what: string)
    | WitnessPacket(content: Content, body: string)
    | PublishPacket(content: Content, topic: string)

  // ---- Writing ----

  /** Block form for values with a newline, then single quotes, double quotes, or bare. */
  function Encode(v: string): string {
    if '\n' in v then "<<\n" + v + "\n>>"
    else if '"' in v then "'" + v + "'"
    else if ' ' in v || '\t' in v then "\"" + v + "\""
    else v
  }

  function ArgText(k: string, v: string): string {
    " " + k + "=" + Encode(v)
  }

  function ArgsText(args: Args): string {
    if args == [] then "" else ArgText(args[0].0, args[0].1) + ArgsText(args[1..])
  }

  function FlagsText(flags: Flags): string {
    if flags == [] then "" else " " + flags[0] + FlagsText(flags[1..])
  }

  function Without(flags: Flags, f: string): Flags {
    if flags == [] then []
    else (if flags[0] == f then [] else [flags[0]]) + Without(flags[1..], f)
  }

  function Optional(name: string, text: string): string {
    if name == "" then "" else text
  }

  function Address(c: Content): string {
    if c.handle == "" then c.command else "~" + c.handle + ":" + c.command
  }

  function Serialized(p: Packet): string {
    var c := p.content;
    match p
    case RequestPacket(_) =>
      c.command + Optional(c.handle, " ~" + c.handle) + ArgsText(c.args) + FlagsText(c.flags) + "\n"
    case ResponsePacket(_) =>
      Address(c) + " ok" + FlagsText(Without(c.flags, "ok")) + ArgsText(c.args) + "\n"
    case ErrorPacket(_, code, what) =>
      Address(c) + " error" + Optional(code, " code=" + code) + Optional(what, " what=\"" + what + "\"")
      + ArgsText(c.args) + FlagsText(c.flags) + " node_error\n"
    case WitnessPacket(_, body) =>
      "witness" + Optional(body, " body=\"" + body + "\"") + ArgsText(c.args) + FlagsText(c.flags) + "\n"
    case PublishPacket(_, topic) =>
      "publish" + Optional(topic, " " + topic) + ArgsText(c.args) + FlagsText(c.flags) + "\n"
  }

  // ---- Reading ----

  /** args without the entries stored in fields of their own. */
  function Others(args: seq<(string, string)>, names: set<string>): seq<(string, string)> {
    if args == [] then []
    else (if args[0].0 in names then [] else [args[0]]) + Others(args[1..], names)
  }

  /** The last value given for a key, else "". */
  function LastValue(args: seq<(string, string)>, key: string): string {
    if args == [] then ""
    else if args[|args| - 1].0 == key then args[|args| - 1].1
    else LastValue(args[..|args| - 1], key)
  }

  function ContentOf(p: Parsed, names: set<string>): Content {
    Content(p.capability, p.handle, PutAll([], Others(p.args, names)), InsertAll([], p.flags))
  }

  function RequestOf(p: Parsed): Packet {
    RequestPacket(ContentOf(p, {}))
  }

  function ResponseOf(p: Parsed): Packet {
    ResponsePacket(ContentOf(p, {}))
  }

  function ErrorOf(p: Parsed): Packet {
    ErrorPacket(ContentOf(p, {"code", "what"}), LastValue(p.args, "code"), LastValue(p.args, "what"))
  }

  /** A witness keeps neither command nor handle; nor does a publish. */
  function WitnessOf(p: Parsed): Packet {
    WitnessPacket(ContentOf(p, {"body"}).(command := "", handle := ""), LastValue(p.args, "body"))
  }

  function PublishOf(p: Parsed): Packet {
    PublishPacket(ContentOf(p, {}).(command := "", handle := ""), p.capability)
  }

  // ---- One-shot reading ----

  /** Carriage returns that end a line are dropped. */
  function DropCr(raw: string): string {
    if raw == "" then ""
    else (if raw[0] == '\r' && |raw| > 1 && raw[1] == '\n' then "" else [raw[0]]) + DropCr(raw[1..])
  }

  function DropLast(s: string): string {
    if s != "" && s[|s| - 1] == '\n' then s[..|s| - 1] else s
  }

  function Normalise(raw: string): string {
    DropLast(DropCr(raw))
  }

  ghost function RequestFromRaw(raw: string): Option<Packet> {
    var p := Parse(Normalise(raw));
    if p.kind == Request then Some(RequestOf(p)) else None
  }

  ghost function ResponseFromRaw(raw: string): Option<Packet> {
    var p := Parse(Normalise(raw));
    if p.kind == Response then Some(ResponseOf(p)) else None
  }

  ghost function ErrorFromRaw(raw: string): Option<Packet> {
    var p := Parse(Normalise(raw));
    if p.kind == Response then Some(ErrorOf(p)) else None
  }

  ghost function WitnessFromRaw(raw: string): Option<Packet> {
    var p := Parse(Normalise(raw));
    if p.kind == Witness then Some(WitnessOf(p)) else None
  }

  ghost function PublishFromRaw(raw: string): Option<Packet> {
    var p := Parse(Normalise(raw));
    if p.kind == Publish then Some(PublishOf(p)) else None
  }

  /** The constructor for messages of the given packet's kind. */
  ghost function FromRaw(like: Packet, raw: string): Option<Packet> {
    match like
    case RequestPacket(_) => RequestFromRaw(raw)
    case ResponsePacket(_) => ResponseFromRaw(raw)
    case ErrorPacket(_, _, _) => ErrorFromRaw(raw)
    case WitnessPacket(_, _) => WitnessFromRaw(raw)
    case PublishPacket(_, _) => PublishFromRaw(raw)
  }
}
