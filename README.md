# WebRTC signalling relay: a verified model

This project models the core of a small WebRTC signalling relay, a Cloudflare
Worker written in TypeScript (`src/index.ts`). Browser peers open a WebSocket to
`/ws`. Each connection derives a session identifier from its
`sec-websocket-key` header and registers its socket in a process-wide
`socketMap`. After that, the connection's message listener answers `offer`,
`answer`, `answer-ok` and `ice-candidate` frames.

The model has five modules:

- `Wrappers`: the `Option` type, standing for JavaScript's `undefined`/`null`.
- `Ids`: the identifier builder `createId`. It includes JavaScript's
  `String.prototype.slice` with its index clamping, the default seed, and a
  positional parser that inverts the builder.
- `Registry`: `socketMap`. It is kept as a `map` plus the keys in insertion
  order, because a JavaScript `Map` iterates in that order. The module also has
  `getSocket` (a falsy key finds nothing) and first-writer-wins insertion.
- `Router`: the outbound message union, and `Replies`. `Replies` lists the
  frames that one decoded inbound frame makes the listener send.
- `Session`: class `Relay`. It holds the registry, the key each installed
  listener captured, and an append-only outbox of `(channel, message)` sends.
  `HandleSession` is the registration branch. `OnMessage` runs the listener, and
  `SendIceCandidates` is the `forEach` loop over the registry.

The code sends every frame through `sendMessage`, which writes to the
connection's own socket. The model follows that. `offer`, `answer` and
`answer-ok` look up the target only to decide whether to send. They then reply
to the sender, and the target's channel receives nothing: every send that
`Session.Relay.OnMessage` appends is on the sender's channel. One would expect
an `ice-candidate` frame to be broadcast to every other registered peer. The
code instead sends every copy back to the sender, one per registry entry whose
key is not the sender's own (`Router.IceCandidateReplies`,
`Router.ThreePeerIceCandidate`).

`Session.AnswerScenario` runs the relay end to end. Two peers register with
handshake keys `abc123` and `def456`, and the second sends an `answer` naming
the first. The answer comes back on the second peer's own channel, carrying the
first peer's key and the description. A frame on a channel without a listener,
and a frame that fails to decode, then add nothing.

The following are parameters of the model: the two `nanoid(6)` tokens, the
`nanoid(6)` default seed, and the text of `Date.now()`. JSON decoding is an
abstract input. `None` stands for a frame whose parse, or whose destructuring
of `payload`, throws and is caught.

## Model

| member | source | states |
|---|---|---|
| `Ids.JsSlice` | src/index.ts:47 | For indices inside the string, `slice` is the ordinary subsequence. A reversed range with a non-negative end gives the empty string. The result is never longer than the string, and, when `start <= end`, never longer than `end - start`. |
| `Ids.DefaultSeed` | src/index.ts:45 | A present seed is used as given. An absent seed is replaced by the fresh fallback token. |
| `Ids.CreateId` | src/index.ts:45-48 | An identifier has 15 to 27 characters, so it is never falsy. It starts with the first random token followed by `-`. |
| `Ids.CreateIdShape` | src/index.ts:45-48 | With a clock text of at least 6 characters, the identifier is exactly r1, `-`, the last 6 clock characters, `-`, r2, `-`, and the seed's first min(6, \|seed\|) characters. Its length is 21 + min(6, \|seed\|). |
| `Ids.ParseId` | src/index.ts:47 | An accepted identifier splits into two 6-character tokens, a 6-character stamp and a seed prefix of at most 6 characters. |
| `Ids.ParseCreateId` | src/index.ts:47 | Parsing a built identifier by position gives back r1, the 6-character stamp, r2 and the seed prefix. |
| `Ids.ParseIdJoins` | src/index.ts:47 | Any string the positional parser accepts is exactly what `CreateId` builds from the parts it returns, taking the stamp as the clock text and the seed prefix as the seed. This is the other direction of the round trip. |
| `Ids.UnseededIdIsRandom` | src/index.ts:45-47 | Without a seed, the last segment of the identifier is the default token. |
| `Registry.Truthy` | src/index.ts:43 | The falsy test on an optional string: absent and `""` are falsy. It has no contract of its own; `Registry.GetSocket` and `Session.Relay.HandleSession` carry the properties that use it (the same test appears at line 57). |
| `Registry.GetSocket` | src/index.ts:42-44 | The lookup finds a channel if and only if the key is present, non-empty and registered. The channel it finds is the registered one. |
| `Registry.SetIfAbsent` | src/index.ts:66-68 | After insertion the key is registered. An existing binding is kept (first writer wins); otherwise the key is bound to the new channel. No other entry changes, and no key is lost. |
| `Registry.SetIfAbsentKeepsOrder` | src/index.ts:66-68 | Insertion keeps the insertion-ordered key sequence duplicate-free and in step with the map's keys. |
| `Registry.LookupAfterSet` | src/index.ts:42-44 | After registering a non-empty key, looking it up returns the binding by first-writer-wins. Lookups of every other key are unchanged. |
| `Registry.KeysAfterSet` | src/index.ts:66-68 | The Map's insertion order after `set`: a new key is appended, an existing key keeps its place. It has no contract of its own; `Registry.SetIfAbsentKeepsOrder` and `Session.Relay.HandleSession` carry its properties. |
| `Registry.OrderedKeysSize` | src/index.ts:129 | The iteration sequence has exactly as many keys as the registry has entries. |
| `Router.To` | src/index.ts:53-55 | Addressing a list of messages to a channel keeps their order and count. Every element is addressed to that channel. |
| `Router.Fanout` | src/index.ts:129-139 | The `forEach` over the registry keys. It has no contract of its own; `Router.FanoutShape`, `Router.IceCandidateReplies` and `Session.Relay.SendIceCandidates` carry its properties. |
| `Router.Replies` | src/index.ts:77-147 | The switch on `type` and the catch of a failed parse. It has no contract of its own; `Router.PointToPointReplies`, `Router.IceCandidateReplies`, `Router.RepliesKeys`, `Router.IgnoredReplies` and `Session.Relay.OnMessage` carry its properties. |
| `Router.FanoutShape` | src/index.ts:128-139 | For distinct keys, the loop emits \|keys\| messages, minus one if the sender's key is among them. Each message is `ice-candidate` with the sender's key and the candidate unchanged. |
| `Router.IceCandidateReplies` | src/index.ts:128-139 | An `ice-candidate` frame gives one reply per registry entry, minus one if the sender's own key is registered. Each reply is `{key: ownKey, candidate}`. |
| `Router.PointToPointReplies` | src/index.ts:80-127 | For `offer`, `answer` and `answer-ok` there are zero replies when the target key finds no channel, and exactly one otherwise. Its key is the sender's for `offer` and `answer-ok` and the target key for `answer`. `desc` is copied unchanged. |
| `Router.RepliesKeys` | src/index.ts:79-143 | Every reply's key names either the sender (`offer`, `answer-ok`, `ice-candidate`) or a registered target key (`answer`). |
| `Router.IgnoredReplies` | src/index.ts:141-147 | A frame that fails to decode, or whose type is not one of the four handled types, gets no reply. |
| `Router.ThreePeerIceCandidate` | src/index.ts:128-139 | Suppose peers A, B and C are registered and A sends an `ice-candidate`. Then A receives two copies carrying its own key, and B and C receive nothing. |
| `Session.Relay.constructor` | src/index.ts:24 | The relay starts with an empty registry, no listeners and no sends. |
| `Session.Relay.Send` | src/index.ts:53-55 | `sendMessage` appends exactly one frame for the given channel. |
| `Session.Relay.HandleSession` | src/index.ts:49-74 | A missing or empty handshake key gives exactly one `error` frame. In that case the registry, key order and listeners are unchanged and no key is returned. Otherwise the derived identifier is inserted first-writer-wins, and the key order is extended if the identifier is new. The channel's listener captures the identifier, and exactly one `register` frame with that identifier goes to the channel. Existing entries never change. |
| `Session.Relay.OnMessage` | src/index.ts:75-148 | A frame on a channel without a listener is ignored. Otherwise the sends appended are exactly `Replies` for the captured key. Every appended send is on the sender's channel, so a target on another channel receives nothing. For `ice-candidate`, exactly \|registry\| - 1 frames are appended, each `{key: ownKey, candidate}`, because the listener's own key is always registered. The registry, key order and listeners are unchanged. |
| `Session.Relay.SendIceCandidates` | src/index.ts:128-139 | The loop appends, on the sender's channel, exactly the fan-out over the keys in insertion order. |
| `Session.RegisteredIdIsFound` | src/index.ts:42-48 | Right after registration, looking up a derived identifier finds its channel, or the channel that already held that identifier. |

## Left out

- `fetch` and `websocketHandler` (src/index.ts:153-181): request routing and the WebSocket upgrade are platform glue. They return 404 off `/ws`, 400 without `Upgrade: websocket`, otherwise 101.
- `createDebug` and every `debugLog` call (src/index.ts:25-41): console logging only. They change no state and send no messages.
- The `close` listener (src/index.ts:149-151) only logs. The model has no method for it, so nothing removes a registry entry. `HandleSession` and `OnMessage` state that existing entries never change.
- `nanoid` and `Date.now()`: randomness and the clock are parameters. Identifier uniqueness is probabilistic and is not stated. Splitting an identifier on `-` is not an inverse, because `-` is in nanoid's alphabet; the model parses by position instead.
- `Ids.CreateIdShape`: stated only for clock texts of at least 6 characters, which `Date.now()` always gives. For shorter texts the model computes what `slice` does, but no lemma describes it.
- `Ids.JsSlice`: JavaScript's `slice` counts UTF-16 code units, while the model counts Dafny characters (Unicode scalar values). The two agree on everything `createId` slices: header values are byte strings and the clock text is digits.
- `Ids.JsSlice`: its contract covers in-range indices, reversed ranges with a non-negative end and the length bound, not every clamping case. Its body follows the clamping rules in full.
- `JSON.parse`, `JSON.stringify`, `socket.accept`, `addEventListener` and `send`: decoding is an abstract `Option<Inbound>`, and a send is an append to the outbox. A `type` that is not a string is modelled as some other string. A `key` that is not a string is modelled as absent; `getSocket` treats both the same way.
- Line 77 calls `toString()` on the event object instead of reading `.data`. What that produces at runtime is foreign behaviour, and the model does not depend on it.
- Session descriptions and ICE candidates are opaque `Blob` values that are only copied.
- Concurrency: the runtime is single-threaded and cooperative. Each event is one atomic method call on the shared `Relay`.
