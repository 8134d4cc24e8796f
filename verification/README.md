# CEC–MQTT bridge: the translation layer

This project models the translation layer of a bridge between an HDMI-CEC adapter and an MQTT broker. The layer lives in `lib/lib.go`. In one direction it turns CEC events into MQTT publications:

- the startup device snapshot;
- received commands;
- finished key presses;
- source activations;
- raw adapter traffic, with a hex republication of the CEC frame.

In the other direction it turns two MQTT control topics into CEC calls.

The broker and the adapter are left abstract. Every step is a pure function that returns the ordered list of what the bridge does, as `Action`s:

- `Publish(topic, payload, retained)`;
- `Transmit(command)`;
- `KeySend(address, key)`.

The key-send handler returns an `Outcome`. That outcome is either `Completed(actions)` or `Panicked(assertion)`, naming the type assertion that failed.

Modules:

- `Text`: the Go standard-library string functions the bridge relies on.
  - `strings.TrimSpace`, using `unicode.IsSpace`'s white-space set.
  - `strconv.FormatBool`.
  - `strconv.Itoa`, together with a decimal parser as its inverse.
- `Topics`: the topic names, and namespacing by the configured prefix.
- `Actions`: the action type, `PublishMQTT`, and one forwarding loop as a fold over its channel. It also holds the broker's retained-message store, which is the "what a late subscriber sees" reading of the retained flag (section 3.3.1.3 of MQTT 3.1.1: a retained publication with an empty payload clears the topic).
- `Classifier`: a hand-written recogniser for the raw-message pattern `^(>>|<<)\s([0-9A-Fa-f]{2}(?::[0-9A-Fa-f]{2})*)`. It is proved against a reference definition of the captured language.
- `Forwarding`: the snapshot and the bodies of the four forwarding loops.
- `Handlers`: the two subscribed handlers and their subscription map.

Two points of the code deserve a note:

- **White space after the marker.** The pattern's `\s` is RE2's Perl class. It accepts exactly one of five characters: tab, newline, form feed, carriage return or space. It does not accept vertical tab or any non-ASCII space. `Classify` accepts the same five characters.
- **Unreadable key-send requests.** When `json.Unmarshal` fails, the handler logs "Could not parse payload" at error level (lib/lib.go:217). There is no `return` after that log call. Control reaches the unchecked type assertions at lib/lib.go:219-220, and on the nil map the first of them panics. `OnKeySend` models the panic. A decoded object with a missing or mistyped field panics at the same assertions. `OnKeySendIntended` models the handler with two corrections: the missing `return` added, and both assertions replaced by checked (comma-ok) ones that drop the request (see Findings).

## Model

| member | source | states |
|---|---|---|
| Text.TrimSpaceEmptyIffBlank | lib/lib.go:74 | Trimming leaves nothing exactly when the prefix consists only of `unicode.IsSpace` characters (the empty prefix included). |
| Text.TrimSpaceDropsOnlySpace | lib/lib.go:74 | Trimming keeps a contiguous slice of the prefix and drops only white space before and after it. |
| Text.TrimSpaceEnds | lib/lib.go:74 | What trimming keeps neither starts nor ends with white space. |
| Text.FormatBool | lib/lib.go:92-93 | The payload is "true" exactly for true and "false" exactly for false. |
| Text.Itoa | lib/lib.go:92 | The rendering is non-empty, with a leading '-' exactly for negative numbers and decimal digits otherwise. It is canonical: the only rendering that starts with '0' is "0", and no digit after a '-' is a leading '0'. |
| Text.NatToDecimal | lib/lib.go:131 | A natural number renders as digits only, with no leading zero except for 0 itself. |
| Text.ItoaRoundTrip | lib/lib.go:131 | Reading the decimal rendering of a key code back gives the same key code. |
| Text.ItoaInjective | lib/lib.go:92 | Distinct logical addresses render differently. |
| Text.ItoaHasNoSlash | lib/lib.go:92 | A rendered address contains no '/', so it cannot add a topic level. |
| Topics.Prefixify | lib/lib.go:73-79 | A blank prefix leaves the subtopic unchanged. Any other prefix is joined, untrimmed, with one '/'. |
| Topics.PrefixifyExamples | lib/lib.go:73-79 | The empty prefix gives "cec/key". A prefix of two spaces gives "x" for "x". "home/tv" gives "home/tv/cec/key". |
| Topics.PrefixifyEndsWithSubtopic | lib/lib.go:73-79 | Whatever the prefix, the namespaced topic ends with the subtopic. |
| Topics.PrefixifyInjective | lib/lib.go:73-79 | Under one prefix, distinct subtopics never share a topic. |
| Topics.SourceTopic | lib/lib.go:92-97 | The device topic is exactly as long as "cec/source/", the rendered address, one '/' and the attribute together. Its content is pinned by SourceTopicParses. |
| Topics.SourceTopicParses | lib/lib.go:92-97 | An independent decoder reads the address and the attribute back from every device topic. It takes "cec/source/", a decimal number up to the first '/', then the rest. |
| Topics.SourceTopicInjective | lib/lib.go:92-97 | Address and attribute can be read back from `cec/source/<addr>/<attr>`. |
| Actions.PublishMQTT | lib/lib.go:101-104 | The topic is namespaced exactly once. Payload and retained flag pass through unchanged. |
| Actions.ForwardAppend | lib/lib.go:108-117 | A forwarding loop keeps its channel's order: the output for two batches in turn is the first batch's output followed by the second's. |
| Actions.RetainFrame | lib/lib.go:101-104 | Publications on other topics, and non-retained publications on any topic, leave a topic's retained message as it was. |
| Actions.RetainLast | lib/lib.go:101-104 | The last retained publication on a topic decides what a new subscriber is shown there, whatever non-retained publications follow it on that topic. |
| Actions.LiveAfterRetained | lib/lib.go:101-104 | A non-retained publication after a retained one on the same topic does not displace the retained message. |
| Forwarding.DeviceActions | lib/lib.go:92-97 | Each device gives three retained publications, in this order: `active` as "true"/"false" of its active flag, then `name` with the OSD name verbatim, then `power` with the power status verbatim. |
| Forwarding.Initialize | lib/lib.go:81-99 | n devices give 3n publications, all retained. |
| Actions.ForwardLayout | lib/lib.go:83-98 | When every event gives n actions, event i's actions sit, in order, at positions n·i to n·i+n−1 of the loop's output. |
| Forwarding.SnapshotLayout | lib/lib.go:83-97 | Device i's three publications sit at positions 3i to 3i+2 of the snapshot. |
| Forwarding.SnapshotAvoids | lib/lib.go:81-99 | The snapshot publishes on no topic of an address it does not list. |
| Forwarding.SnapshotRetainedState | lib/lib.go:81-99 | From any prior broker state, when addresses are distinct, every listed device's three topics afterwards show that device's state. |
| Forwarding.OnCommand | lib/lib.go:113-115 | A command gives exactly one non-retained publication of its string, verbatim, on cec/command/rx. |
| Forwarding.CommandsVerbatim | lib/lib.go:106-117 | Over a whole channel, there is one publication per command, in arrival order, each carrying that command's string. |
| Forwarding.OnKeyPress | lib/lib.go:128-132 | Duration 0 gives exactly one non-retained publication on cec/key. Its payload is the canonical decimal rendering of the key code, and it parses back to that code. Any other duration gives nothing. |
| Forwarding.KeyPressesCollapse | lib/lib.go:120-135 | Over a whole channel, the output is one publication per finished press, in order, carrying its decimal key code. Repeats give nothing. |
| Forwarding.OnSourceActivation | lib/lib.go:145-150 | An activation gives exactly one retained publication, "true"/"false" of its state, on the device's `active` topic. |
| Forwarding.ActivationMatchesSnapshot | lib/lib.go:92-93 | An activation publishes exactly what the snapshot publishes first for a device in that state. |
| Forwarding.ActivationRetainedState | lib/lib.go:145-150 | After an activation, the device's `active` topic shows the new state, and every other topic keeps its retained message. |
| Forwarding.HexTopic | lib/lib.go:180-184 | `<<` traffic goes to cec/message/hex/rx and `>>` traffic to cec/message/hex/tx, each exactly. |
| Forwarding.OnMessage | lib/lib.go:170-185 | Unless logOnly, the first publication is the line verbatim, not retained, on cec/message. A hex publication follows exactly when the line matches: retained, carrying the capture, on the topic for its direction. There are at most two publications. |
| Forwarding.MessageHexPublication | lib/lib.go:175-185 | A retained publication appears exactly when the line starts with `>>`/`<<`, one `\s` character and two hex digits. |
| Forwarding.MessageHexPayload | lib/lib.go:175-185 | On a match, the last publication goes to hex/rx for `<<` and to hex/tx for `>>`. Its payload is the longest HH(:HH)* word after the white space. |
| Forwarding.MessagesBounded | lib/lib.go:165-187 | The message loop publishes at most twice per line. |
| Classifier.ColonOctets | lib/lib.go:157 | The `(?::HH)*` part consumes a multiple of three characters, no more than the input holds. |
| Classifier.OctetRun | lib/lib.go:157 | The capture group consumes nothing, or 2 more than a multiple of 3 characters. |
| Classifier.OctetRunSound | lib/lib.go:157 | What the recogniser captures is a word of HH(:HH)*. |
| Classifier.OctetRunMaximal | lib/lib.go:157 | No longer prefix is in HH(:HH)*: the greedy star takes the longest word. |
| Classifier.Classify | lib/lib.go:157 | A line matches exactly when it starts with `>>` or `<<`, one `\s` character and two hex digits. Nothing later affects the verdict, because there is no end anchor. |
| Classifier.ClassifyCapture | lib/lib.go:175-183 | The direction is read off the marker. The capture is the longest HH(:HH)* word right after the white space, and excludes the marker. |
| Classifier.ClassifyIgnoresTrailingText | lib/lib.go:157 | ">> 10:8F x" captures "10:8F" as outbound. |
| Classifier.ClassifyStopsAtHalfOctet | lib/lib.go:157 | ">> 10:8" captures "10". |
| Classifier.ClassifyInbound | lib/lib.go:157 | "<< 04" captures "04" as inbound. |
| Classifier.ClassifyRejects | lib/lib.go:157 | These do not match: ">>10:8F", ">> 1", a vertical tab after the marker, and "hello world". |
| Handlers.OnCommandSend | lib/lib.go:196-204 | An empty payload gives no action at all. Any other payload gives exactly the empty non-retained acknowledgement on cec/command/tx, then Transmit of the payload. |
| Handlers.OnKeySend | lib/lib.go:211-225 | Empty payload: nothing. The handler panics exactly when the payload is non-empty and the decoded request lacks a numeric address or a string key. The outcome names the failed assertion: a parse failure, or a missing or non-numeric address, fails the address assertion; a good address with a missing or non-string key fails the key assertion. Otherwise, an empty key gives nothing, and a non-empty key gives the acknowledgement on cec/key/send, then KeySend. |
| Handlers.ParseFailureFallsThrough | lib/lib.go:215-219 | A payload that does not parse behaves exactly like an empty object: it panics at the address assertion, before any acknowledgement. |
| Handlers.OnKeySendIntended | lib/lib.go:216-220 | The corrected handler: an empty, unreadable or ill-typed request, or one with an empty key, gives no action. A well-typed one with a non-empty key is acknowledged and sent. |
| Handlers.IllTypedRequestPanics | lib/lib.go:219-220 | A valid JSON request whose address is a string panics at the address assertion as written, and gives no action in the corrected handler. |
| Handlers.IntendedAgreesUnlessPanic | lib/lib.go:211-225 | Wherever the written handler completes, the corrected one does the same. Wherever it panics, the corrected one does nothing. |
| Handlers.HandlersAckBeforeCall | lib/lib.go:196-224 | Every completed handler call makes at most one CEC call, and only after an empty acknowledgement on its own namespaced request topic. |
| Handlers.Subscriptions | lib/lib.go:59-66 | The two handlers are subscribed on the namespaced cec/key/send and cec/command/tx, and on nothing else. |
| Handlers.Deliver | lib/lib.go:59-66 | With topics matched by equality, a message on the namespaced cec/command/tx goes to the command handler. One on the namespaced cec/key/send goes to the key handler. One on any other topic triggers nothing. |
| Handlers.AcksComeBackInert | lib/lib.go:196-225 | With topics matched by equality, every acknowledgement lands on a subscribed topic. Delivered back with its empty payload, it triggers no action, so there is no echo loop. |
| Handlers.KeySendScenario | lib/lib.go:219-224 | Address 4 with key "0x41" gives the acknowledgement, then KeySend(4, "0x41"). |

## Left out

- Creating the CEC connection and the MQTT client (lib/lib.go:24-48). It is adapter and broker I/O, and startup panics.
- Broker calls and QoS values. Publishing and subscribing become values, and the `token.Wait()` calls are not modelled.
- Subscription order (lib/lib.go:63). Go map iteration order is unspecified, and the model keeps only the resulting topic-to-handler map.
- Goroutines, `select`, cancellation through the context, and the buffered channels (lib/lib.go:106-188). A loop is modelled as its body applied to one event, or as a fold over a finite stream of events. Cancellation simply ends the stream.
- The regular expression's compile-error branch (lib/lib.go:158-162). The pattern is a constant and compiles, so the branch is dead.
- `sendMutex` (lib/lib.go:190-194, 208-209). Each handler call is one atomic step here.
- JSON decoding (lib/lib.go:214-215) is `encoding/json`, which is not part of this model. The handler takes its result as input: a parse failure, or the decoded map. A JSON `null` decodes to the empty map, as a nil map reads.
- Handlers.OnKeySend: the address is taken as an already-integral number. The float64 value of the JSON number and its `int(address)` truncation (lib/lib.go:219, 224) are floating point, which is not modelled.
- Logging through `slog` and the `debug` global. They have no effect on the actions.
- The order of the device list (lib/lib.go:82-83). It is a Go map in the source. The model takes a sequence and states per-device properties, which hold in any order.
- Forwarding.SnapshotRetainedState assumes the adapter lists each logical address at most once. The map's key is not the logical address (lib/lib.go:83-87 reads both separately), so nothing in the code enforces this. If two entries share an address, the entry published later in map order decides what that address's topics show.
- `main.go`. It is flag parsing, signal handling and goroutine wiring, and it contains its own unprefixed copy of the snapshot.
- Handlers.Deliver: topics are matched by equality with the subscribed topics. MQTT wildcard filters are not modelled: a prefix containing `+` or `#` would make the subscription a filter matching other topics too, and an invalid one (a `#` that is not last) fails to subscribe. The subscribe token's error is never read (lib/lib.go:64-65), so then nothing is delivered. Handlers.AcksComeBackInert inherits the same equality matching.
- Handlers.Deliver dispatches to the handler as written (`OnKeySend`), because that is what the bridge runs. The corrected handler is related to it by IntendedAgreesUnlessPanic.
- Handlers.OnKeySendIntended: `json.Unmarshal` can return an error and still fill the map. In `{"address":4,"key":"x","n":1e400}`, for example, the out-of-range number's error is recorded and decoding goes on. The code as written then logs, acknowledges and sends. Adding the missing `return` would drop the request. `Decoding` has no case for "error with a filled map", so the model does not distinguish it from a clean decoding: both handlers send.
- Text.TrimSpace works on Unicode scalar values. The source's byte-level handling of invalid UTF-8 is not modelled.

## Findings

| source | as written | input that shows it | evidently intended | confidence | as-written member | corrected member |
|---|---|---|---|---|---|---|
| lib/lib.go:216-220 | A JSON parse failure is only logged, and execution continues to `payload["address"].(float64)` on the nil map. | Payload `hello` on cec/key/send: Unmarshal fails, and the unchecked assertion on the missing address panics the handler. | Log the failure and return without acknowledging or calling CEC. The error-level log "Could not parse payload" at lib/lib.go:217 has no `return` after it. | not executed | Handlers.ParseFailureFallsThrough | Handlers.OnKeySendIntended |
| lib/lib.go:219-220 | The fields of a decoded object are read with unchecked type assertions `.(float64)` and `.(string)`. | Payload `{"address":"4","key":"k"}` on cec/key/send: it parses, and the address assertion panics on the string. | Checked (comma-ok) assertions that drop a request with a missing or mistyped field, as the parse-failure log suggests for unreadable requests. | not executed | Handlers.IllTypedRequestPanics | Handlers.OnKeySendIntended |
