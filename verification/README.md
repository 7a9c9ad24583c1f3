# Verified model of the Spore client libraries

This project models the Spore wire protocol end to end: the tokenizer, builder and validator of the
parser library, the serializers of the five message kinds, the stream framing and dispatch of the
listening client, the one-shot constructors from raw bytes, and the Go callback registry over the C
handler lists. Each part that works step by step is a class or a method with the original's loops and
fields, proved against a reference function over values; the theorems are about those functions.

`dafny verify dfyconfig.toml` checks the whole project.

## How it fits together

| file | contents |
|---|---|
| `Strings`, `Ordered` | searches; sorted listings standing for `std::map` and `std::set` |
| `Scanner`, `ScannerLaws`, `Verbatims`, `BareText` | the five-mode scanner, what every scan obeys, and the text that needs no quotes |
| `Parsing`, `ParsingLaws`, `ParserObjects` | builder and validator as functions, their laws, and the parser and message classes |
| `Delimiters`, `ParsedFields` | what delimited text scans to, and every field a message parses to, in terms of its tokens |
| `Wire`, `Messages`, `Receiving` | the five kinds as values and as classes, writing and reading |
| `Forms`, `Items`, `Rendering`, `PacketParse`, `RoundTrip`, `Canonical` | when written text reads back, for one argument and for whole messages |
| `ParseWeights`, `MessageWeights`, `ForcedReads`, `OneShotExact` | why nothing else reads back: what a text holds bounds what it parses to |
| `Framing`, `FramingLaws`, `FrameGrammar`, `FrameText`, `Dispatch`, `Outcomes` | reassembly of frames from a byte stream, frames by their characters alone, and what becomes of each, field by field |
| `MessageFraming`, `StreamMessages`, `StreamRoundTrip`, `Silence`, `Delivery` | streams of messages, from the sender to the receiver's handlers, and the messages never heard of |
| `LostNewlines`, `ThinScan`, `TokenReads`, `IntactItems`, `MessageTokens`, `SeamArrivals`, `ForcedArrivals`, `StreamExact` | what a message reads as when the listener loses some of its newlines, and which messages survive |
| `Client`, `HandlerCalls`, `EdgeMessages` | registration, sends and the listen loop, which handlers a frame reaches, and messages at the edges of the framing rules |
| `Registry`, `Callbacks`, `GoDelivery` | the two-level handler registry, the flat set it refines, and events through both levels |

## What turned out not to hold as hoped

- A message's lines need not be one frame: a quoted value with `<<` and no `>>` after it on the line reads back in
  one shot, but the listener takes the line for the start of a block and never delivers it
  (`spore_c/source/client.cpp:443-455`). `Delivery.UnclosedPairStalls` gives the messages, and
  `StreamRoundTrip.OneLineArrivesIff` is exact for messages of one line.
- So does a quoted `<<`, closed or not, on the line that ends the last multi-line value
  (`spore_c/source/client.cpp:467-471`): `EdgeMessages.ReopeningStalls` gives the messages, and
  `Silence.HeardNothingIff` says exactly of which messages nothing is heard.
- A close line that reopens a block is appended without its newline (`spore_c/source/client.cpp:467-471`),
  so a multi-line value after another one loses a leading newline on a stream, though not in one-shot
  reading. `Delivery.StreamLosesNewline` gives a message, and `Dispatch.FrameTextAgrees` says exactly when the two
  readings see the same text.
- `StreamExact.StreamKeepsMessageIff` puts the two together: when a message arrives on a stream as one-shot reading
  would give it.
- A response without a handle is written as its command first, so it reads back as a request
  (`spore_c/source/response.cpp:9-43`): `ParsedFields.HandlelessIsRequest`.
- The writer's choice of form does not suit every value. `Forms.FormSelectionExact` states exactly which values
  read back: for instance a value with a double quote must not hold a single quote, and a bare value must
  leave no bracket open. `Forms.FormSelectionFails` gives one of each, and `OneShotExact.OneShotIff` says the same of
  whole messages.
- Sending on a received error response repeats its fixed flags. `Canonical.ErrorResendSettles` states exactly when
  the bytes stay the same, and that they settle after one round; `Canonical.ErrorResendDiffers` gives a response
  whose bytes do not.

## Assumptions

- A `char` stands for one byte. Messages hold no NUL byte, since texts are passed on as C strings.
- Message lengths and counters are unbounded integers: lengths stay below 2^31 and ids do not wrap.
- How the two writes of a send went is a parameter of the send, and a failed write leaves no byte on the wire; each
  read returns some bytes until one returns none.
- Handlers are not registered or removed from inside a callback, freed C handles are not used, and a fresh parser
  and message are used for each parse, as the library itself does.
- Callbacks are numbers; a handler call is an entry of the client's `calls` log holding the message's value.

## Model

| member | source | states |
|---|---|---|
| `OneShotExact.OneShotIff` | spore_c/source/spore_c.cpp:15-46 | A message whose names, flags and address or topic are proper reads back from its own text, with only the flags its kind always carries added, if and only if every value suits the form in which it is written (arguments representable, `code` bare, `what` and `body` without a double quote) and no line of the text ends in a carriage return. |
| `RoundTrip.OneShotRoundTrip` | spore_c/source/spore_c.cpp:15-46 | For every sendable message of all five kinds, reading its serialization gives the message back; only `ok`, or `error` and `node_error`, are added. |
| `Forms.FormSelectionExact` | spore_c/source/message.cpp:47-65 | For every bare key without `=` and every value: the written argument scans to one argument token, returns to plain mode and reads back as (key, value) if and only if the value is representable, a condition on its text by the branch that writes it: no `>>` or bare text after the first one; not both quotes; bare or with a blank. |
| `BareText.BareIsVerbatim` | parser/source/parser.cpp:90-227 | The scanner copies a text into one token and is back in plain mode if and only if the text is bare: balanced bracket groups, blocks up to their first `>>` and other characters, with no space or quote among them. |
| `StreamExact.StreamKeepsMessageIff` | spore_c/source/client.cpp:440-472 | Every sendable, deliverable message whose lines are one frame that shows every item as written, but for block-end newlines next to which the value has none of its own, is heard as what one-shot reading would give; and a message that loses newlines at clean seams only, or has no multi-line value, or holds no newline in a key, a handle or a response's flags, is heard so only if that is the case. |
| `StreamExact.StreamKeepsIntact` | spore_c/source/client.cpp:421-620 | For every sequence of deliverable messages whose lines are each one frame, in any chunks: each is reported once, in order, the intact ones as one-shot reading would give them, and of the traceable ones no others. |
| `StreamRoundTrip.OneLineArrivesIff` | spore_c/source/client.cpp:440-456 | A sendable, deliverable message of one line is delivered as itself if its line does not open a block that it leaves open; otherwise nothing is heard of it. |
| `StreamRoundTrip.StreamArrives` | spore_c/source/client.cpp:421-620 | For every sequence of messages whose lines each make one frame (orderly, or with no close line that reopens a block), in any chunks, the reports are one for each message, in order, with its exact bytes, and nothing is left over. |
| `Delivery.StreamReachesHandlers` | spore_c/source/client.cpp:421-620 | Listening to a stream of deliverable messages makes exactly the calls of each message's handlers, message by message. |
| `Delivery.PlainStreamReachesHandlers` | spore_c/source/client.cpp:421-620 | For every sequence of deliverable messages without newline or `<<` outside their multi-line values, without `>>` in them and with no leading newline in a later one, in any chunks, every handler is called with exactly what one-shot reading gives, message by message. |
| `Delivery.CarriedReachHandlers` | spore_c/source/client.cpp:421-620 | The same for every sequence of deliverable messages whose lines are each one frame that shows them intact. |
| `FrameGrammar.StreamIsGrouped` | spore_c/source/client.cpp:421-479 | For every stream in any chunks, the loop's frames are those of the one grouping of its lines, none of which holds a newline, and the grouping and the buffer are the bytes. |
| `FrameGrammar.LoopMatchesGrammar` | spore_c/source/client.cpp:440-479 | For any grouping of lines into frames and an unfinished tail, the loop completes exactly those frames, with their text and bytes, and never the tail; `FrameText.FrameIff` says by their characters alone which lines are a frame. |
| `FrameText.FrameIff` | spore_c/source/client.cpp:440-472 | Lines are one frame, or the beginning of one, exactly by their text without a final carriage return: the first has a `<<` with no `>>` after the first one, and of the later ones the last and no other is `>>`, alone or before a space, and holds no `<<`. |
| `FrameText.EndsIff` | spore_c/source/client.cpp:437-470 | A line ends a multi-line frame if and only if its text is `>>`, alone or before a space, and holds no `<<`, closed or not. |
| `FrameText.OpensIff` | spore_c/source/client.cpp:440-447 | A line opens a multi-line frame if and only if no `>>` follows the first `<<` of its text. |
| `FrameText.ReopensIff` | spore_c/source/client.cpp:461-471 | A close line keeps the frame open, and loses its newline, if and only if it holds `<<`. |
| `FrameText.StreamFollowsText` | spore_c/source/client.cpp:421-479 | For every stream in any chunks, the completed frames are those of the grouping of its lines by their text alone. |
| `Silence.HeardNothingIff` | spore_c/source/client.cpp:440-479 | Nothing is heard of a sendable message if and only if, after blank lines, its lines open a block and no later line ends it. |
| `Silence.ReopenedLastLine` | spore_c/source/client.cpp:458-472 | An orderly message that begins with an open block and has a multi-line value ends in a line that begins with `>>`; it is never heard of if and only if that line also holds `<<`. |
| `Silence.OrderlyHeardIff` | spore_c/source/client.cpp:458-472 | An orderly message that begins with an open block is one frame if its last line ends the block, and is never heard of otherwise. |
| `FrameGrammar.GroupingUnique` | spore_c/source/client.cpp:440-479 | No sequence of lines can be cut into frames and an unfinished tail in two ways. |
| `Dispatch.StreamAgreesWithRaw` | spore_c/source/client.cpp:421-614 | Every frame completed from any stream in any chunks comes from whole lines; its text is the one-shot normalisation of its bytes iff no later line reopens a block, and then a delivered message is what its kind's constructor makes of those bytes. |
| `FramingLaws.ChunkingIndependent` | spore_c/source/client.cpp:421-436 | For every byte stream and every cut, the state and the completed frames are those of the uncut stream, and no newline stays in the buffer. |
| `FramingLaws.RawConservation` | spore_c/source/client.cpp:427-434 | Completed frames, the frame in progress and the buffer hold exactly the bytes received, in order. |
| `ScannerLaws.BestEffortIsCompletion` | parser/source/parser.cpp:229-244 | For every message, closing at end of input gives the tokens of the message with the missing closers written out, and that text ends in plain mode. |
| `ScannerLaws.TokensCompose` | parser/source/parser.cpp:84-97 | If `a` ends in plain mode, then for every `b` the tokens of `a`, a space and `b` are those of `a` followed by those of `b`, in spite of the lookahead. |
| `ScannerLaws.TokensConserve` | parser/source/parser.cpp:84-251 | The token values, concatenated, are the input minus plain spaces and quote delimiters, plus the closers, in order. |
| `ParsingLaws.ValidateIsGrammar` | parser/source/parser.cpp:363-428 | Validation accepts a message exactly when it satisfies its kind's declarative rules. |
| `ParsingLaws.RejectionNamesRule` | parser/source/parser.cpp:374-427 | For every message, each of the fourteen error texts is reported if and only if all earlier rules of the kind hold and the one it names fails, in terms of the parsed command, handle, flags and argument keys. |
| `Outcomes.DeliveredTells` | spore_c/source/client.cpp:507-614 | Every non-empty frame whose text is well formed is delivered with its exact bytes as a packet of the parsed kind, an error exactly if the flags of a response lack `ok`, with command, handle and flags as parsed and every argument's last value. |
| `Outcomes.DeliveredError` | spore_c/source/client.cpp:533-561 | An error response is delivered with the last `code` and the last `what` argument. |
| `Outcomes.RejectedNamesRule` | spore_c/source/client.cpp:494-505 | A frame is rejected with a text if and only if that text names the first rule its message breaks; the code is `Malformed` and the line is the frame's. |
| `Outcomes.OutcomeKinds` | spore_c/source/client.cpp:475-505 | A frame is dropped, delivered or rejected exactly as it is empty, well formed or neither. |
| `HandlerCalls.FrameReaches` | spore_c/source/client.cpp:494-614 | Every non-empty frame is reported exactly once to each handler registered for it and to no other: a well-formed one to the handlers of its kind, any other to the parse-error handlers with the rule broken and its line. |
| `HandlerCalls.SentReachesHandlers` | spore_c/source/client.cpp:288-399 | What a client's successful sends left on the wire, in whatever chunks it is read, makes exactly the calls of another client's handlers for the messages sent, in order, if they are streamable and deliverable. |
| `HandlerCalls.PlainSentReachesHandlers` | spore_c/source/client.cpp:288-399 | The same for plain messages, as one-shot reading gives them. |
| `ParsedFields.ParseIffReads` | parser/source/parser.cpp:254-361 | For every message, the parsed fields are the only ones that agree with its tokens: the first decides kind, command and handle (a handle without a colon is a handle without a command, an argument is a command), a publish takes the second as its topic, and the rest give the arguments, split at the first `=` with a block's delimiters and boundary newlines off, the flags, and the last handle, in order. |
| `ParsedFields.LoneHandleRejected` | parser/source/parser.cpp:267-285 | A message that begins with a handle without a colon is a response with that handle and no command, rejected as such whatever follows. |
| `ParsedFields.LeadingArgRejected` | parser/source/parser.cpp:262-266 | A message that begins with an argument is a request with that argument for a command, rejected as such whatever follows. |
| `StreamRoundTrip.WellFormedIffDeliverable` | parser/source/parser.cpp:374-422 | A sendable message passes validation if and only if its own fields meet its kind's conditions. |
| `Canonical.ResendIsIdentical` | spore_c/source/response.cpp:9-25 | Serializing what was read back gives identical bytes, for every kind but the error response. |
| `Canonical.ErrorResendSettles` | spore_c/source/response.cpp:27-43 | An error response is a fixed point from its second sending on; the first resend is identical if and only if it already carried `error` and `node_error`. |
| `Canonical.AdditionOrderIrrelevant` | spore_c/source/message.cpp:37-45 | Arguments with distinct keys, and flags, give the same message in whatever order they are added. |
| `Registry.RunRefines` | spore_go/internal/spore_c/callbacks.go:134-281 | After any sequence of operations, stale and repeated handles included, the two levels hold exactly the flat set of callbacks. |
| `Registry.DispatchIsFlat` | spore_go/internal/spore_c/callbacks.go:69-132 | After any such sequence an event reaches each live callback of its client and kind exactly once and no other. |
| `Callbacks.CallbackTable.Event` | spore_go/internal/spore_c/callbacks.go:69-80 | After any sequence of calls, an event reaches each callback live in the flat set exactly once and no other. |
| `GoDelivery.EventReachesLive` | spore_go/internal/spore_c/callbacks.go:69-132 | If the C client's list holds the registrations that the Go package's operations left there, an event handed to that list reaches each live Go callback exactly once and no other. |
| `ParserObjects.Parser.Tokenize` | parser/source/parser.cpp:62-252 | The five-mode loop yields exactly the tokens of the reference machine, the closing of anything left open included. |
| `ParserObjects.Parser.Parse` | parser/source/parser.cpp:43-60 | Parsing clears the last error and fills the message from the text's tokens; without a message object nothing else changes. |
| `Clients.Client.Listen` | spore_c/source/client.cpp:401-624 | Over all reads up to the first that returns nothing, the calls made are exactly those of the frames of the bytes received; unconnected, only the error is set. |
| `ScannerLaws.ExtraSpaces` | parser/source/parser.cpp:88-97 | Extra plain-mode spaces before, after and between parts change no token. |
| `ScannerLaws.RunClosesBlock` | parser/source/parser.cpp:213-237 | A block left open is closed by `>>` even when the input ends in a lone `>`. |
| `ScannerLaws.TokensWellTyped` | parser/source/parser.cpp:117-135 | Every token is non-empty, handle tokens start with `~`, argument tokens contain `=`: the builder's `substr(1)` and `find('=')` are always defined. |
| `Verbatims.BalancedGroupVerbatim` | parser/source/parser.cpp:193-208 | Any balanced bracket group, whatever it contains, is copied unchanged into one token. |
| `Verbatims.DepthSinceEntry` | parser/source/parser.cpp:193-208 | Inside brackets there is an entry point in plain mode since which the depth is opens minus closes of that bracket and never fell to zero. |
| `Verbatims.RunBlock` | parser/source/parser.cpp:136-147 | A `<<...>>` block with no inner `>>` is copied whole and leaves plain mode. |
| `Verbatims.CloseSooner` | parser/source/parser.cpp:136-160 | Text kept whole with its closing pair on a line of its own is kept whole with the pair at the end of the line before. |
| `Verbatims.RunQuoted` | parser/source/parser.cpp:161-188 | Quoted text without its own quote is copied without the delimiters. |
| `Delimiters.BracketedWord` | parser/source/parser.cpp:193-208 | Between `[` and `]`, or `{` and `}`, text that closes as many of them as it opens and never too soon is one word. |
| `Delimiters.UnclosedWord` | parser/source/parser.cpp:229-235 | Brackets left open are closed at the end of the input, as many as are missing and each with its own closer. |
| `Delimiters.UnclosedBlockWord` | parser/source/parser.cpp:236-240 | A block left open is closed with `>>` at the end of the input. |
| `Delimiters.QuotedWord` | parser/source/parser.cpp:161-188 | Either kind of quotes makes one word of what it encloses; spaces, `=` and `~` inside count for nothing. |
| `Delimiters.BlockWord` | parser/source/parser.cpp:136-147 | A block is one word, delimiters included. |
| `ParserObjects.Parser.BuildFirstToken` | parser/source/parser.cpp:260-304 | The first token decides kind, capability and handle as the reference builder does. |
| `ParserObjects.Parser.SplitArg` | parser/source/parser.cpp:315-330 | Splits at the first `=`, strips block delimiters and one boundary newline on each side. |
| `ParserObjects.Parser.BuildOtherToken` | parser/source/parser.cpp:311-356 | Later tokens add an argument, set the handle or add a flag, and note the five properties. |
| `ParserObjects.Parser.BuildMessage` | parser/source/parser.cpp:254-361 | The loop over tokens leaves parser and message in exactly the state of the reference builder. |
| `ParserObjects.Parser.ValidateMessage` | parser/source/parser.cpp:363-428 | Sets exactly the error of the first violated rule, or none; a null message is reported as missing. `ParsingLaws.VerdictRules` says which rule that is. |
| `ParsingLaws.VerdictRules` | parser/source/parser.cpp:374-427 | Whenever the five property bits agree with the message, it is accepted only if it satisfies its kind's rules and else reported with the text of the first rule it breaks. |
| `ParsingLaws.ParsePropsAgree` | parser/source/parser.cpp:332-353 | After any parse the five property bits are membership in the built arguments and flags. |
| `ParsingLaws.UnknownIffNoTokens` | parser/source/parser.cpp:424-427 | The kind stays unknown exactly for messages without a token. |
| `Forms.BlockFormVerbatim` | spore_c/source/message.cpp:49-52 | The block form of a multi-line value is kept whole exactly when it has no `>>`, or the text after the first one, up to the closing `>>`, is bare. |
| `Forms.SimpleRepresentable` | spore_c/source/message.cpp:57-64 | Values of ordinary characters and spaces are representable. |
| `Forms.FormSelectionFails` | spore_c/source/message.cpp:53-64 | A value with both quotes and one with an open bracket do not read back. |
| `Messages.Message.GetArg` | spore_c/source/message.cpp:17-21 | Lookup in the argument map, the empty string if the key is absent. |
| `Messages.Message.AddArg` | spore_c/source/message.cpp:37-40 | Keeps keys strictly sorted and updates the map at exactly this key. |
| `Messages.Message.AddFlag` | spore_c/source/message.cpp:42-45 | Keeps flags strictly sorted and adds exactly this flag to the set. |
| `Messages.Message.SerializeArg` | spore_c/source/message.cpp:47-65 | Appends the argument in block, single-quoted, double-quoted or bare form. |
| `Messages.Message.SerializeArgs` | spore_c/source/request.cpp:14-14 | The loop appends all arguments in key order. |
| `Messages.Message.SerializeFlags` | spore_c/source/request.cpp:15-15 | The loop appends all flags in order. |
| `Messages.Request.Serialize` | spore_c/source/request.cpp:9-18 | Stores exactly the wire text of the request and changes nothing else. |
| `Messages.Response.Serialize` | spore_c/source/response.cpp:9-25 | Stores exactly the wire text of the response, `ok` written once. |
| `Messages.ResponseError.Serialize` | spore_c/source/response.cpp:27-43 | Stores exactly the wire text of the error response. |
| `Messages.Witness.Serialize` | spore_c/source/witness.cpp:9-18 | Stores exactly the wire text of the witness. |
| `Messages.Publish.Serialize` | spore_c/source/publish.cpp:9-18 | Stores exactly the wire text of the publish. |
| `Ordered.PutSorted` | spore_c/source/message.cpp:37-40 | Insertion into the sorted listing is update of the map it lists. |
| `Ordered.InsertSorted` | spore_c/source/message.cpp:42-45 | Insertion into the sorted listing is addition to the set it lists. |
| `Ordered.ArgsCanonical` | spore_c/source/message.h:54-54 | A map has exactly one strictly sorted listing. |
| `Ordered.FlagsCanonical` | spore_c/source/message.h:55-55 | A set has exactly one strictly sorted listing. |
| `Ordered.BeforeIff` | spore_c/source/message.h:54-55 | The order of keys and flags is lexicographic: a beginning comes first, otherwise the smaller character where they first differ. |
| `Ordered.FindIsLookup` | spore_c/source/message.cpp:17-21 | Search in the listing is lookup in the map. |
| `Receiving.ParseRaw` | spore_c/source/spore_c.cpp:15-28 | The normalising loop drops every line-ending carriage return and one final newline, and parses the rest. |
| `Receiving.PopulateMessage` | spore_c/source/spore_c.cpp:31-46 | Copies command, handle, arguments (later values win; error fields skipped on request) and flags. |
| `Receiving.AddArgs` | spore_c/source/spore_c.cpp:35-42 | Adds the arguments outside the skipped names, later values winning. |
| `Receiving.RequestCreateFromRaw` | spore_c/source/spore_c.cpp:223-240 | A request built from raw bytes, or null if the bytes are not a request. |
| `Receiving.ResponseCreateFromRaw` | spore_c/source/spore_c.cpp:331-348 | A response built from raw bytes, or null if the bytes are not a response. |
| `Receiving.ResponseErrorCreateFromRaw` | spore_c/source/spore_c.cpp:439-466 | An error response built from raw bytes with code and what in their own fields, or null. |
| `Receiving.WitnessCreateFromRaw` | spore_c/source/spore_c.cpp:587-616 | A witness built from raw bytes with its body apart, or null. |
| `Receiving.PublishCreateFromRaw` | spore_c/source/spore_c.cpp:693-718 | A publish built from raw bytes with the capability as topic, or null. |
| `Outcomes.FromRawTells` | spore_c/source/spore_c.cpp:223-718 | A one-shot constructor refuses exactly the messages of another kind, and gives the others with command, handle and flags as parsed and every argument's last value, the kind's own fields apart. |
| `ParsedFields.HandlelessIsRequest` | spore_c/source/response.cpp:9-43 | A response or error response written without a handle begins with its command: neither constructor reads it back, and it is read as a request without a handle. |
| `Receiving.MakeError` | spore_c/source/client.cpp:541-561 | The listener's error object: last code and what, all other arguments, all flags. |
| `Receiving.MakeWitness` | spore_c/source/client.cpp:580-598 | The listener's witness object: last body, all other arguments, all flags, no command or handle. |
| `PacketParse.PacketParses` | parser/source/parser.cpp:254-361 | The line of any sendable message parses to exactly its fields, with its arguments as their items read. |
| `RoundTrip.FieldsReadBack` | spore_c/source/spore_c.cpp:31-46 | From those parsed fields the constructors rebuild the message, with only the flags its kind always carries added. |
| `Canonical.SerializedCanonical` | spore_c/source/request.cpp:14-15 | The text depends only on the fields, the argument map and the flag set. |
| `Canonical.ErrorResendDiffers` | spore_c/source/response.cpp:27-43 | A concrete error response whose first resend is other bytes. |
| `FramingLaws.ReceiveSplit` | spore_c/source/client.cpp:421-436 | Two reads leave the state of one read of both. |
| `FrameGrammar.GroupingExists` | spore_c/source/client.cpp:440-479 | Every sequence of lines has such a grouping. |
| `Dispatch.AcceptedIsDispatchable` | spore_c/source/client.cpp:507-617 | An accepted message has a kind (the default branch is unreachable) and is taken for a packet of that kind; a response is taken for an error exactly when it lacks `ok`, and then has code, what, command and handle. |
| `Dispatch.NormaliseFrame` | spore_c/source/spore_c.cpp:15-28 | One-shot reading of a frame's bytes joins its stripped lines with every newline kept. |
| `Dispatch.FrameTextAgrees` | spore_c/source/client.cpp:432-472 | The listener's text of a frame equals the one-shot normalisation of its bytes if and only if no close line reopens a block. |
| `Dispatch.DeliveredAgreesWithRaw` | spore_c/source/client.cpp:507-614 | In that case the delivered message is the one its kind's constructor makes of the delivered bytes. |
| `MessageFraming.WalkFrames` | spore_c/source/client.cpp:440-472 | For every text: reading it character by character tells whether its lines are one frame, and gives that frame's text. |
| `StreamMessages.ShownTrimmed` | spore_c/source/client.cpp:467-471 | The frame of an orderly message shows every block after the first without its opening newline and all else as sent. |
| `StreamMessages.ReceiveMessage` | spore_c/source/client.cpp:288-299 | A message whose lines are one frame, with the newline every send adds, becomes that frame and a blank one, and leaves the loop idle. |
| `StreamMessages.WireSafeStreamable` | spore_c/source/client.cpp:440-472 | A message without newline or `<<` outside its multi-line values and without `>>` in them always makes one frame. |
| `LostNewlines.ThinRead` | parser/source/parser.cpp:315-330 | An argument read from text short of some newlines has the key short of some of them, and a value that is short of some or has fewer for good. |
| `ThinScan.ThinRun` | parser/source/parser.cpp:84-227 | Scanning a text as the listener shows it ends in the mode, kind and token of scanning the text, short of the newlines lost. |
| `ThinScan.ShownLineItems` | spore_c/source/client.cpp:440-472 | At clean seams, what the listener shows of a line of items is as many items, each one token of the same type short of the newlines lost. |
| `TokenReads.SameFieldsSameRead` | parser/source/parser.cpp:311-356 | Tokens short of some newlines that give the same arguments and flags read the same one by one. |
| `IntactItems.IntactIff` | parser/source/parser.cpp:315-330 | What is shown of an item reads as the item did if and only if it is the item as written, or its block without a newline at an end where the value has none of its own. |
| `IntactItems.ShownAllIntactGood` | spore_c/source/client.cpp:440-472 | The items of a line that are all shown intact are one good token each and read as they do. |
| `StreamExact.FrameReported` | spore_c/source/client.cpp:494-614 | The frame of a message delivers it as one-shot reading would if every item is intact, and for traceable messages only if. |
| `ForcedArrivals.ArrivalForced` | parser/source/parser.cpp:254-361 | Wherever its lines were joined, a message without multi-line values, or with its names on one line, arrives from its frame only if the frame showed every item intact. |
| `ForcedReads.WholeToken` | parser/source/parser.cpp:84-251 | If the first token of a text and what follows it has every character of the text, newlines apart, then the text was read whole and left nothing open. |
| `ParseWeights.ParseWeight` | parser/source/parser.cpp:254-361 | What a text parses to holds no more newlines, carriage returns or `=` than the text. |
| `MessageWeights.TextWeight` | spore_c/source/request.cpp:9-18 | A message's text holds exactly the carriage returns and `=` of its fields, the `=` between key and value included, and without blocks exactly their newlines. |
| `SeamArrivals.DeliveredIsIntact` | spore_c/source/client.cpp:440-472 | If newlines are lost at clean seams only, a message is delivered as one-shot reading would give it only if the frame shows every item intact. |
| `StreamExact.OrderlyCleanSeams` | spore_c/source/client.cpp:467-471 | Orderly messages, with any number of blocks, lose newlines at clean seams only. |
| `StreamExact.OrderlyIntactIff` | spore_c/source/client.cpp:467-471 | An orderly message whose lines are one frame is intact if and only if it keeps every newline or no multi-line value after another begins with a newline. |
| `StreamRoundTrip.OrderlyKeepsIff` | spore_c/source/client.cpp:467-471 | Among frames that are orderly or keep every newline: it is heard so if and only if every newline is kept or no multi-line value after another begins with a newline. |
| `StreamRoundTrip.StreamCompletes` | spore_c/source/client.cpp:421-479 | Messages whose lines are each one frame complete exactly those frames, whatever the chunks, and leave nothing over. |
| `StreamRoundTrip.FrameArrives` | spore_c/source/client.cpp:494-505 | The frame of a streamable message is delivered as that message, with the arguments that arrive, if it is deliverable and otherwise reported as an error with its line. |
| `Delivery.CallsOncePerHandler` | spore_c/source/client.cpp:525-525 | A delivery calls every handler of the list once, in registration order. |
| `Delivery.CallsIgnoreChunking` | spore_c/source/client.cpp:421-436 | All handler calls, error reports included, are the same for any cut of any byte stream. |
| `StreamRoundTrip.WireOfSends` | spore_c/source/client.cpp:288-299 | One more message appends its text and a newline to the wire text of the messages before. |
| `Delivery.StreamLosesNewline` | spore_c/source/client.cpp:467-471 | A concrete request reads back in one shot but is heard on a stream with its second block one leading newline short. |
| `Delivery.UnclosedPairStalls` | spore_c/source/client.cpp:443-455 | A request whose quoted value holds `<<` and no `>>` after it reads back in one shot, but nothing is heard of it on a stream. |
| `Delivery.ClosedPairArrives` | spore_c/source/client.cpp:443-447 | With a `>>` after it on the same line, it is delivered as it is. |
| `EdgeMessages.ReopeningStalls` | spore_c/source/client.cpp:467-471 | A request with a multi-line value and after it a quoted one that holds `<<`, closed or not, reads back in one shot and is never heard of on a stream. |
| `EdgeMessages.MarkedArrives` | spore_c/source/client.cpp:460-466 | A multi-line value with a line that begins with `>>` and goes on without a space is delivered as it is. |
| `Clients.Client.RegisterRequestHandler` | spore_c/source/client.cpp:201-209 | Appends a new registration with the next id to its kind's list only, and keeps every list exactly the registered handlers of its own kind, each once; the other kinds are alike. |
| `Clients.Client.UnregisterHandler` | spore_c/source/client.cpp:251-284 | Removes the registration from the list of its kind, keeping the order of the rest, and changes no other; every list again holds exactly the registered handlers of its own kind, each once. |
| `Clients.EraseTakesFirst` | spore_c/source/client.cpp:256-264 | Erasing takes out exactly the first occurrence of a registration and keeps the order of the rest. |
| `Clients.UnregisterUndoesRegister` | spore_c/source/client.cpp:251-284 | Unregistering a new registration restores its list. |
| `Clients.Client.HandlersFor` | spore_c/source/client.cpp:507-614 | The list a packet goes to holds exactly the registered handlers for its kind, each once; both response forms go to one list. |
| `Clients.Client.WriteRaw` | spore_c/source/client.cpp:288-299 | Puts the data and a newline on the wire; a failed first write sends nothing, a failed second only the data, each with its own error text. |
| `Clients.Client.Send` | spore_c/source/client.cpp:301-319 | Puts exactly the wire text of the one message on the wire, newline included, and keeps the bytes sent those of the messages sent; or reports the missing connection, the missing request or the failed write. The sends of the other kinds are alike. |
| `Clients.Client.SendRaw` | spore_c/source/client.cpp:626-636 | Puts exactly the data and a newline on the wire, or reports the missing connection or the failed write. |
| `Clients.Client.Deliver` | spore_c/source/client.cpp:507-617 | An accepted message goes once to every handler of the list for its packet; `HandlerCalls.FrameReaches` says which those are and what they are given. |
| `Clients.Client.HandleFrame` | spore_c/source/client.cpp:474-618 | A completed frame is blank, rejected to the parse-error handlers or delivered. |
| `Clients.Client.Reassemble` | spore_c/source/client.cpp:436-474 | What one line does to the frame in progress, as the reference step does; `FrameText` gives its three tests by the characters of the line. |
| `Clients.Client.TakeOneLine` | spore_c/source/client.cpp:432-503 | One line's effect on the frame in progress and on the calls made. |
| `Clients.Client.DrainBuffer` | spore_c/source/client.cpp:429-436 | The inner loop takes every complete line out of the buffer and terminates. |
| `Clients.UpToEndCuts` | spore_c/source/client.cpp:421-425 | The reads taken in are those before the first that returns nothing. |
| `Registry.StepKeepsInv` | spore_go/internal/spore_c/callbacks.go:134-281 | After every on, off and destroy, a handler map exists iff it is non-empty iff its bridge is the single entry of the C list. |
| `Callbacks.CallbackTable.ClientOn` | spore_go/internal/spore_c/callbacks.go:134-145 | One step of the registry: adds a callback, registering the bridge for the first of its kind, and gives out a new handler; the tables stay what the operations so far make of empty ones. |
| `Callbacks.CallbackTable.Drop` | spore_go/internal/spore_c/callbacks.go:207-218 | Removes a callback as the registry model does, unregistering the bridge with the last of its kind. |
| `Callbacks.CallbackTable.ClientOff` | spore_go/internal/spore_c/callbacks.go:199-265 | One step of the registry for the handler's place: nothing for a foreign or spent handler, otherwise its callback is dropped and it is cleared. |
| `Callbacks.CallbackTable.ClientDestroy` | spore_go/internal/spore_c/spore_c.go:61-64 | One step of the registry: forgets every callback, bridge and registration of the client and nothing else. |
| `Callbacks.CallbackTable.Bridge` | spore_go/internal/spore_c/callbacks.go:69-80 | The snapshot holds every live callback exactly once. |

## Left out

- RoundTrip.OneShotRoundTrip: one direction; `OneShotExact.OneShotIff` is exact in the values, for messages whose keys and flags are bare and hold no `=`, whose flags do not begin with `~`, and whose command, handle or topic the reader can find again.
- StreamExact.StreamKeepsMessageIff: the only-if half leaves open the messages that have a multi-line value, and a newline in a key, in the handle or in a response's flag, and a line that loses its newline right after a space or quote, or between two `<` or two `>`, all three at once.
- StreamExact.StreamKeepsIntact: a message whose lines are not one frame takes its neighbours' lines into its frame; which frames then form is covered by `FrameGrammar.StreamIsGrouped`.
- StreamRoundTrip.StreamArrives: for messages whose frames keep every newline or are orderly; for all others, which of them arrive is `StreamExact.StreamKeepsIntact`.
- Callbacks.CallbackTable.ClientOn: one method over the five kinds, for five copies of the same code that differ only in the map they name; the mutex is modelled by each method being one step.
- Callbacks.CallbackTable.Event: the C client's handler vectors are a table of tokens here and lists of objects in `Clients.Client`; that both hold as many registrations is a premise of `GoDelivery.EventReachesLive`.
- Socket setup, handshake, timeouts and partial writes: operating-system input and output.
- Null-check wrappers, accessor macros, `copyArgIds`, `copyFlags` and the remaining getters: one-branch code.
- cgo string conversion, finalizers and the thin Go message types: foreign calls and wrappers.
- Reuse of one parser or message object across parses, beyond what the contracts of `Parse` and `BuildMessage` say about any starting state.
