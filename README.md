# WhatsApp auto-responder core, modelled in Dafny

A model of the decision logic in `index.js` of a small WhatsApp bot with a web dashboard.
It covers three parts:

- **The `messages.upsert` handler.** It walks a batch of inbound messages. It skips
  messages without content and messages the bot sent itself. It takes a message's text
  from the first non-empty of three content shapes. A text that starts with `!` becomes
  one quoted reply: `!ping`, `!echo <text>`, `!help`, or the unknown-command reply.
  The whole walk sits inside one `try`/`catch`, so the first exception ends the batch.
  The exception is either a message with content but no key, or a rejected send.
- **The `connection.update` handler.** It turns one update into the ordered events
  pushed to dashboard clients: `qr`, `log` and `connected`. It also decides whether to
  start a new session after 2000 ms. It restarts on every closure except a logout.
- **The protocol-version fallback used at start-up.**

Modules:

- `Wrappers`: `Option` and JavaScript truthiness of optional strings.
- `JsText`: the string operations the parser uses, restricted to ASCII. These are `\s`,
  `trim`, `split(/\s+/)`, `join(' ')` and `toLowerCase`.
- `Inbound`: message shapes and text extraction.
- `Commands`: the command grammar and the reply table.
- `Dispatcher`: the batch loop. `Dispatch` is its specification over prefixes of the
  batch. `HandleUpsert` is the loop itself, proved equal to `Dispatch`.
- `Connection`: the connection-update handler as a function from an update to a
  `Reaction`.
- `Startup`: the version fallback.

Outside inputs are parameters:

- `sendOk(k)` says whether the k-th send of a batch is accepted.
- `encode(qr)` is what the QR image encoder produced for a payload.
- `Fetched`/`FetchFailed` is what the version lookup gave.
- The `json` field of a disconnect error is what `JSON.stringify` gives for it.

The whole loop sits in one `try`/`catch` (index.js:112-149). So the first exception ends
the batch: either a message with content but no key, or a rejected send.
`DispatchMeaning` and `AbortIsFinal` state this.

## Model

| member | source | states |
|---|---|---|
| JsText.ToLower | index.js:128 | lower-casing keeps the length, maps each character by itself, leaves no upper-case letter, keeps whitespace where it was, and leaves lower-case text unchanged |
| JsText.TrimStart | index.js:127 | the result is a suffix of the input, everything dropped is whitespace, and the result does not start with whitespace |
| JsText.TrimEnd | index.js:127 | the result is a prefix of the input, everything dropped is whitespace, and the result does not end with whitespace |
| JsText.Trim | index.js:127 | the result neither starts nor ends with whitespace; it is empty exactly when the input is all whitespace; a string already trimmed is unchanged |
| JsText.TrimPadded | index.js:127 | trimming a non-empty trimmed string padded with whitespace on both sides gives back that string |
| JsText.Split | index.js:127 | splitting on whitespace runs yields at least one piece and no piece holds whitespace |
| JsText.Gaps | index.js:127 | the whitespace runs between the pieces of a split are one fewer than the pieces |
| JsText.GapsAreSeparators | index.js:127 | every run `split(/\s+/)` removes is non-empty and all whitespace |
| JsText.SplitRebuild | index.js:127 | the pieces of a split, written out with the whitespace runs that stood between them, give back the original string, so splitting loses nothing but those runs |
| JsText.SplitAfterSpaceRun | index.js:127 | a run of whitespace in front of a string adds one empty piece in front of that string's pieces |
| JsText.Join | index.js:132 | `join(' ')` is empty exactly when there are no words or only one empty word; it starts with the first word, followed by a space when there is a second word |
| JsText.JoinIsSingleSpaced | index.js:132 | `join(' ')` writes the words out with one space between each two |
| JsText.SplitJoinWith | index.js:127 | splitting words written out with any non-empty whitespace runs between them gives back exactly those words |
| JsText.SplitAfterWord | index.js:127 | a run of non-space characters in front of a string glues onto that string's first piece |
| JsText.SplitTrimmedIsWords | index.js:127 | a trimmed non-empty string splits into non-empty pieces only |
| JsText.SplitJoin | index.js:127-132 | splitting the single-space join of words gives back exactly those words |
| JsText.JoinEnds | index.js:132 | the join of words is non-empty, so the echo placeholder is used only when there are no arguments |
| Inbound.ExtractText | index.js:118-122 | the text is the conversation text if non-empty, else the extended text if non-empty, else the image caption if non-empty, else empty; it is empty exactly when all three are missing or empty |
| Commands.AfterPrefix | index.js:127 | `text.slice(1)` is empty for an empty text, and otherwise the text is its first character followed by the result |
| Commands.Tokens | index.js:127 | the tokens of `slice(1).trim().split(/\s+/)` are at least one and hold no whitespace; the first is empty exactly when only whitespace follows the `!`, and then it is the only one; otherwise every token is a non-empty word |
| Commands.ParseCommand | index.js:127-128 | the command name has no upper-case letter and no whitespace; it is empty exactly when only whitespace follows the `!`, and then there are no arguments; otherwise every argument is a non-empty word |
| Commands.ParseReadsEveryWord | index.js:127-128 | when something other than whitespace follows the `!`, the name is the first word lower-cased, and the first word and the arguments, written out with the whitespace runs between them, give back the trimmed text after the `!` |
| Commands.ReplyText | index.js:129-142 | `ping` gets `Pong!`, `help` gets the help line, `echo` gets its joined arguments or the placeholder when they join to nothing, any other name gets `Unknown command: ` followed by the name; a reply is never empty |
| Commands.Answer | index.js:126-142 | every command text gets a non-empty reply |
| Commands.ParseWritten | index.js:127-128 | `!`, optional whitespace, words separated by any non-empty whitespace runs, and optional whitespace parse back to the lower-cased first word and exactly the other words |
| Commands.ParseNamed | index.js:127-128 | `!name arg1 … argN` parses to the lower-cased name and exactly those arguments |
| Commands.ParseBare | index.js:127-128 | `!name` alone parses to the lower-cased name and no arguments |
| Commands.BarePrefix | index.js:127-141 | `!` followed by nothing or only whitespace names the empty command, which is answered `Unknown command: ` |
| Commands.EchoReply | index.js:131-133 | `echo` answers with the placeholder exactly when it has no arguments, and otherwise with the arguments joined by single spaces |
| Commands.EchoRoundTrip | index.js:127-133 | `!echo` in any letter case, followed by words separated by any whitespace runs, sends back exactly those words separated by single spaces |
| Commands.NameIgnoresCase | index.js:128 | two command texts, with any whitespace between their words, that differ only in the letter case of the name parse to the same name |
| Dispatcher.Step | index.js:115-142 | a message without content or from the bot itself is skipped; a message throws exactly when it has content but no key; it gets a reply exactly when it has content, a key, is not from the bot and its text starts with `!`; the reply goes to the sender's conversation, quotes the message and carries the answer to its text |
| Dispatcher.OnUpsert | index.js:111-113 | an upsert without a `messages` array sends nothing and completes; otherwise at most one reply is sent per message |
| Dispatcher.AtMostOneReplyEach | index.js:114-146 | a batch never sends more replies than it has messages |
| Dispatcher.HandleUpsert | index.js:111-150 | the loop sends exactly the replies, and ends with exactly the outcome, that the batch specification `OnUpsert` gives for the same input and send results |
| Dispatcher.DispatchNext | index.js:114 | a batch that has not stopped handles one more message as one turn of the loop |
| Dispatcher.AbortIsFinal | index.js:112-149 | once a prefix of the batch has thrown, the messages after it change neither the replies nor the outcome |
| Dispatcher.DispatchMeaning | index.js:111-150 | a completed batch sent every reply the batch calls for; a batch stopped at message `at` sent exactly the replies of the messages before it, and message `at` either has no key or is the command whose send was rejected; every send in the outbox was accepted |
| Dispatcher.DispatchCompletes | index.js:111-150 | a batch where no message lacks its key and every send is accepted completes and sends every reply it calls for |
| Dispatcher.RepliesAnswerMessages | index.js:126-142 | every reply quotes a message of the batch, and it is the one reply that message gets |
| Dispatcher.RepliesConcat | index.js:114-146 | the replies of a joined batch are the replies of its parts, in order |
| Dispatcher.IgnoredLast | index.js:115-145 | a skipped message at the end of a batch changes neither the replies nor the outcome |
| Dispatcher.IgnoredMessageChangesNothing | index.js:115-145 | a skipped message inserted anywhere in a batch changes neither the replies nor the outcome, apart from shifting the abort position |
| Dispatcher.SelfMessagesIgnored | index.js:116 | no reply ever quotes a message the bot sent itself |
| Dispatcher.SingleReply | index.js:114-146 | a batch of one message that calls for a reply sends exactly that reply and completes when the send is accepted |
| Dispatcher.PingAnswer | index.js:127-130 | `!` followed by a word that lower-cases to `ping` is answered `Pong!` |
| Dispatcher.PingScenario | index.js:126-130 | one message `!ping` in any letter case from someone else gets exactly one quoted `Pong!` to its sender |
| Dispatcher.NoCommandNoSend | index.js:113-145 | a batch of messages that are all skipped sends nothing and completes |
| Connection.FailureLineIsNoCloseLine | index.js:82-104 | a failed-encoding log line is never the logout line or the reconnect line |
| Connection.CloseReason | index.js:95 | the closing reason is `undefined` without an error, the error's message when it is non-empty, and the error's JSON text otherwise |
| Connection.QrEmits | index.js:76-84 | without a non-empty payload nothing is sent; a successful encoding sends the data URL and then the scan hint; a failed encoding sends only the failure line with the encoder's message; so every QR image is the encoder's data URL, and the step never changes connection status or announces a reconnect decision |
| Connection.OpenEmits | index.js:86-90 | on open, `connected: true` and then the connected line are sent; otherwise nothing is |
| Connection.CloseEmits | index.js:92-107 | on a closure exactly three events are sent: `connected: false`, the closing reason, and then the logout line when the status code is the logout code or the reconnect line otherwise, never both; without a closure nothing is sent; the close step never sends a QR image or `connected: true` |
| Connection.OnConnectionUpdate | index.js:73-108 | the events are the QR step's, then the open step's, then the close step's; a new session is scheduled, after 2000 ms, exactly when the connection closed and the status code is not the logout code (a missing code included); `connected: true` is sent exactly on open and `connected: false` exactly on close; a successful encoding is the first event |
| Connection.QrBeforeStatus | index.js:76-93 | every QR image is sent before any change of connection status |
| Connection.CloseAnnouncedLast | index.js:92-107 | a closure ends with `connected: false`, the closing reason, and then the logout line or the reconnect line, depending on the status code |
| Connection.NoAnnouncementUnlessClosed | index.js:76-107 | without a closure, neither the logout line nor the reconnect line is sent |
| Connection.OneRestartPerClosure | index.js:98-106 | over any run of updates, the number of scheduled restarts equals the number of closures that were not logouts |
| Startup.NegotiatedVersion | index.js:60 | the session uses the fetched version, or `[2, 2307, 9]` when the lookup fails |

## Left out

- The Express server, the `/status` route, the Socket.IO connection handler and the clear-auth request: they are web plumbing around the core.
- Creating the protocol socket, the file-backed auth state and saving credentials on `creds.update`: these are library calls with no decision logic in this file.
- `fetchLatestBaileysVersion` itself: its result is the `VersionFetch` parameter.
- `qrcode.toDataURL`: its result is the `encode` parameter.
- `JSON.stringify` of a disconnect error: it is the `json` field of the error.
- Whether a send is accepted: it is the `sendOk` parameter.
- `setTimeout(startBot, 2000)` and the restarted session: the model records the decision and the delay, not the timer or the new session.
- Asynchrony: handlers are modelled one call at a time, so overlapping `await`s of two handlers are not modelled.
- Console and pino logging: these have no effect on behaviour.
- `dotenv` and `PORT`: these are configuration of the web server.
- JsText.ToLower: only ASCII letters are lower-cased, whereas JavaScript's `toLowerCase` maps every Unicode letter.
- JsText.IsSpace: covers ASCII whitespace only, whereas JavaScript's `\s` and `trim` also treat other Unicode spaces, such as U+00A0 and U+FEFF, as whitespace.
- Field types: message fields are modelled as absent or strings. A non-string `conversation` or `text` value, which JavaScript would coerce, is not modelled.
- Connection.LoggedOut: the value 401 of `DisconnectReason.loggedOut` comes from the protocol library's enum, which is not part of this model.
- Dispatcher.Dispatch: it is generic over the reply function, which the handler instantiates with `Commands.Answer`. Its meaning is stated by `DispatchMeaning`, `AtMostOneReplyEach` and the other lemmas about it, not by its own contract.
