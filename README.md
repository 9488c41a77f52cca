# web-socket-wrapper in Dafny

This project models the core of `web-socket-wrapper`, a small library that carries an
event and request/response protocol over a single WebSocket. It has three parts:

- **`EventEmitter`** (module `EventRegistry`): a map from event name to an
  insertion-ordered map `handler -> wrapped handler`.
  - `on`/`once` register a handler.
  - `off` removes registrations through three overloads.
  - `emit` calls the wrapped handlers in order.
  - `eventNames` lists the names that have registrations.
- **`WebSocketWrapper`** (modules `MessageCodec` and `SocketWrapper`): one connection.
  - An outbound queue holds frames until the socket opens.
  - The wire format is `{i, a: [eventName, ...args], d, e}`.
  - Requests are correlated by id, with a timeout timer.
  - Handlers registered with `on` answer requests with a resolve or a reject.
  - It also has a per-connection key/value store.
- **`WebSocketChannel`** (module `ChannelTree`): a tree of namespaces.
  - A channel's path is the non-empty names from the root down to the channel itself, joined by `/`.
  - `of` caches children by name.
  - `emit`/`request`/`on`/`off` forward to the wrapper under the qualified event name.

Modelling choices:

- **Maps.** An ECMAScript `Map` is the insertion-ordered association list `OMap` in
  module `OrderedMap`.
- **Handlers.** Handlers are opaque identities. A stored wrapped handler is
  `Direct(fn)`, or `SelfRemoving(fn)` for the closure `once` builds.
- **Closures built by the wrapper.** In the wrapper, each `wrapHandler` closure is a new
  identity `Replying(serial, handler)`.
- **The socket.** The browser socket is the class `Socket`, which has a ready state, the
  sequence of frames it has sent, and the wrapper whose callbacks are attached.
- **Asynchronous steps.** A timer firing, the socket opening and an asynchronous handler
  settling are separate method calls (`TimerFires`, `HandleOpen`, `Complete`).
- **JSON.** JSON text is represented by the JSON value it denotes.

Where the code does something a reader might not expect, the model follows the code:

- **A reply does not end the request.** `pending` holds the requests awaiting a reply
  (src/WebSocketWrapper.ts:23). Yet a reply to a pending request settles its promise
  but does not remove the request from `pending`, and its timer is never cancelled. The
  entry goes away only when the timer fires (`SocketWrapper.WebSocketWrapper.HandleMessage`,
  `SocketWrapper.WebSocketWrapper.TimerFires`). The timer's rejection then changes nothing,
  because `TimerFires` settles the promise only if it is still waiting
  (`SocketWrapper.ReplyBeatsTimer`; `SocketWrapper.RequestBeforeOpen` follows one request
  through this from before the socket opens).
- **`off` on the wrapper removes nothing.** `wrapper.off(name, handler)` looks up the
  application's handler, but only the closures built by `wrapHandler` are registered, so
  it always returns false (`SocketWrapper.WebSocketWrapper.Off`). The code marks this as
  a to-do (src/WebSocketWrapper.ts:194). Registering one handler
  twice gives two registrations (`SocketWrapper.OnTwiceRegistersTwice`). Only the closure
  that `on` returns removes a registration (`SocketWrapper.WebSocketWrapper.Unsubscribe`).
- **Undecodable frames throw.** Nothing catches the error. The model returns a
  `Failure` and changes no state.
- **The round trip normalises two fields.** It is not the identity on every message: an
  absent event name comes back as `null` (dispatched under `''`) and absent arguments
  come back as `[]` (`MessageCodec.RoundTrip`).
- **An error is any defined value.** A reply rejects its request when its error is
  defined, whatever the value. A handler that throws `undefined` therefore makes the
  requester's promise resolve with no data (`SocketWrapper.ReplySettlesRequest`).

## Model

| member | source | states |
|---|---|---|
| OrderedMap.Keys | src/EventEmitter.ts:11 | the keys of a `Map` in iteration order, one per entry |
| OrderedMap.Has | src/EventEmitter.ts:42 | `map.has(k)`; `HasKeys`, `AbsentKey` and `HasAt` state what it means |
| OrderedMap.HasKeys | src/EventEmitter.ts:42 | `has(k)` holds exactly when `k` is one of the keys |
| OrderedMap.AbsentKey | src/EventEmitter.ts:42 | a key no entry carries is absent |
| OrderedMap.HasAt | src/EventEmitter.ts:42 | the key of every entry is present |
| OrderedMap.IndexOf | src/EventEmitter.ts:42 | the position of the first entry with a key; `has` holds exactly when it is inside the map |
| OrderedMap.Get | src/EventEmitter.ts:17 | `get` yields nothing exactly when the key is absent, else the value of the key's entry |
| OrderedMap.Set | src/EventEmitter.ts:43-45 | `set` keeps the key order for a present key and overwrites its entry in place; for an absent key it appends; other entries are untouched |
| OrderedMap.Delete | src/EventEmitter.ts:35 | after `delete` the key is absent; deleting an absent key changes nothing |
| OrderedMap.DeleteCutsEntry | src/EventEmitter.ts:32 | with unique keys, `delete` cuts out exactly the key's entry and keeps the others in order |
| OrderedMap.GetAfterSet | src/EventEmitter.ts:43-45 | after `set(k, v)`, `get(k)` is `v` and every other key reads as before |
| OrderedMap.GetAfterDelete | src/EventEmitter.ts:35 | after `delete(k)`, `k` reads as absent and every other key as before |
| OrderedMap.SetSameValue | src/EventEmitter.ts:43 | setting a key to the value it already holds changes nothing |
| OrderedMap.SetTwice | src/EventEmitter.ts:43 | a second `set` of a key overrides the first in the same position |
| OrderedMap.SetKeepsUnique | src/EventEmitter.ts:43-45 | `set` never creates a second entry for a key |
| OrderedMap.DeleteKeepsUnique | src/EventEmitter.ts:32 | `delete` never creates a second entry for a key |
| OrderedMap.GetAt | src/EventEmitter.ts:17 | with unique keys, every entry is what its own key reads |
| OrderedMap.GetAppend | src/EventEmitter.ts:45 | reading a map after appending an entry: the old entries win, the new one answers for its own key |
| OrderedMap.DeleteAppend | src/EventEmitter.ts:55 | deleting a key absent from a prefix only touches the rest |
| OrderedMap.UniqueFront | src/EventEmitter.ts:55 | in a map with unique keys, the last key does not occur before it |
| EventRegistry.Registered | src/EventEmitter.ts:41-46 | `on` with a new name adds one name entry; with a known name it adds none |
| EventRegistry.Unregistered | src/EventEmitter.ts:35 | `off(name, h)` never adds or removes a name entry |
| EventRegistry.Lasting | src/EventEmitter.ts:54-58 | the registrations that survive an emission are no more than before, and none of them is a `once` closure |
| EventRegistry.Dispatched | src/EventEmitter.ts:16-18 | `emit` never adds or removes a name entry |
| EventRegistry.Calls | src/EventEmitter.ts:17 | `emit` makes one call per registration of the name |
| EventRegistry.ActiveNames | src/EventEmitter.ts:10-14 | `eventNames` lists no more names than the registry has entries, and only names it holds |
| EventRegistry.CallsInOrder | src/EventEmitter.ts:16-18 | `emit` makes one call per stored wrapped handler, in registration order, each with the same arguments |
| EventRegistry.BucketUnique | src/EventEmitter.ts:17 | each name's handler map of a well-formed registry has unique handlers |
| EventRegistry.SetBucketWellFormed | src/EventEmitter.ts:42-46 | replacing a name's handler map by a well-formed one keeps the registry well-formed |
| EventRegistry.LookupAfterRegistered | src/EventEmitter.ts:41-46 | `on(name, h, c)` stores `c` for exactly the pair `(name, h)`; every other pair reads as before |
| EventRegistry.RegisteredOrder | src/EventEmitter.ts:41-46 | `on` adds no duplicate: a registered handler keeps its position, a new handler goes last, a new name goes last |
| EventRegistry.LookupAfterUnregistered | src/EventEmitter.ts:35 | `off(name, h)` removes exactly that pair and moves no name |
| EventRegistry.LookupAfterNameRemoved | src/EventEmitter.ts:31-33 | `off(name)` removes every registration of that name and of no other |
| EventRegistry.LastingFromBucket | src/EventEmitter.ts:54-58 | every registration that survives an emission was a registration before it |
| EventRegistry.LastingUnique | src/EventEmitter.ts:54-58 | the survivors of an emission still have unique handlers |
| EventRegistry.GetLasting | src/EventEmitter.ts:54-58 | after an emission a `once` registration reads as absent, every other registration as before |
| EventRegistry.LookupAfterDispatched | src/EventEmitter.ts:54-58 | `emit(name)` unsubscribes exactly the `once` registrations of `name`, and no name moves |
| EventRegistry.LastingIdempotent | src/EventEmitter.ts:54-58 | a `once` handler fires at most once: a second emission drops nothing more |
| EventRegistry.DispatchedIdempotent | src/EventEmitter.ts:54-58 | a second `emit` of a name leaves the registry as the first left it |
| EventRegistry.DispatchedWellFormed | src/EventEmitter.ts:16-18 | emission keeps the registry well-formed |
| EventRegistry.ActiveNamesMembers | src/EventEmitter.ts:10-14 | `eventNames` lists exactly the names with at least one registration |
| EventRegistry.ActiveNamesOrdered | src/EventEmitter.ts:10-14 | `eventNames` lists the names in the order they were first added, each once |
| EventRegistry.LastingBeforeAbsent | src/EventEmitter.ts:55 | the survivors before a position never hold the handler at that position |
| EventRegistry.EmitStepLasting | src/EventEmitter.ts:17 | while `emit` walks a handler map, passing a lasting entry keeps the map as the survivors so far followed by the entries not yet visited |
| EventRegistry.EmitStepOnce | src/EventEmitter.ts:55 | while `emit` walks a handler map, a `once` entry deleting itself leaves the survivors so far followed by the entries not yet visited |
| EventRegistry.DeleteNameWellFormed | src/EventEmitter.ts:31-33 | `off(name)` keeps the registry well-formed |
| EventRegistry.EmitStepRegistry | src/EventEmitter.ts:17 | one step of `emit`, stated on the whole registry |
| EventRegistry.UnregisteredAbsent | src/EventEmitter.ts:35 | `off(name, h)` for a pair that is not registered changes nothing |
| EventRegistry.EmitReaches | src/EventEmitter.ts:16-18 | `emit(name, args)` calls every wrapped handler registered under `name` |
| EventRegistry.LastingAllDirect | src/EventEmitter.ts:16-18 | with no `once` registration, emission drops nothing |
| EventRegistry.EventEmitter.constructor | src/EventEmitter.ts:5-8 | a new emitter has an empty registry |
| EventRegistry.EventEmitter.EventNames | src/EventEmitter.ts:10-14 | the getter yields exactly the names with at least one registration, in the order they were first added |
| EventRegistry.EventEmitter.Emit | src/EventEmitter.ts:16-18 | returns the calls `emit` makes, in registration order; afterwards exactly the `once` registrations of the name are gone |
| EventRegistry.EventEmitter.Invoke | src/EventEmitter.ts:55 | calling a stored `once` closure first removes its own registration, then calls the wrapped handler |
| EventRegistry.EventEmitter.Off | src/EventEmitter.ts:26-36 | with no name, clears everything and returns true; with a name only, deletes the name and returns whether it was a key; with both, deletes the pair and returns whether it was registered |
| EventRegistry.EventEmitter.On | src/EventEmitter.ts:41-49 | the registry becomes `Registered(old, name, handler, wrapped)`; the returned closure unsubscribes `(name, handler)` |
| EventRegistry.EventEmitter.Once | src/EventEmitter.ts:54-58 | registers the self-removing closure around the wrapped handler under `(name, handler)` |
| EventRegistry.EventEmitter.Unsubscribe | src/EventEmitter.ts:48 | calling the returned closure removes exactly `(name, handler)` and reports whether it was registered |
| MessageCodec.Truthy | src/WebSocketWrapper.ts:175 | `undefined` and `null` are falsy; arrays and objects are truthy |
| MessageCodec.Read | src/WebSocketWrapper.ts:107-111 | reading a property yields a value exactly when the key is present, and that key's value |
| MessageCodec.Serialize | src/WebSocketWrapper.ts:88-101 | the frame is an object with only `i`, `a`, `d`, `e`, and `a` is a non-empty array |
| MessageCodec.Deserialize | src/WebSocketWrapper.ts:103-113 | decoding succeeds exactly when the input parses to an object whose `a` is an array; the decoded arguments are always present |
| MessageCodec.RoundTrip | src/WebSocketWrapper.ts:88-113 | decoding an encoded message restores id, arguments in order, data and error; an absent event name comes back `null`, absent arguments `[]` |
| MessageCodec.RoundTripExact | src/WebSocketWrapper.ts:88-113 | a message with an event name and arguments survives the wire unchanged |
| MessageCodec.ReEncode | src/WebSocketWrapper.ts:88-113 | any object with keys among `i`, `a`, `d`, `e` and a non-empty array `a` is re-encoded exactly as received |
| MessageCodec.DispatchName | src/WebSocketWrapper.ts:77 | a string event name is dispatched under itself, an absent or `null` one under `''`, and any other value under no name |
| MessageCodec.DispatchNameRoundTrip | src/WebSocketWrapper.ts:77 | the wire does not change the name a message is dispatched under |
| MessageCodec.RepliesDecode | src/WebSocketWrapper.ts:157-165 | a resolve or reject carries only the id and the data or error, and is dispatched under `''` on the other side |
| MessageCodec.EventMessage | src/WebSocketWrapper.ts:125 | an event is the frame `{a: [eventName, ...args]}`; it decodes back unchanged and is dispatched under its event name |
| MessageCodec.RequestMessage | src/WebSocketWrapper.ts:131 | a request is the frame `{i, a: [eventName, ...args]}`; it decodes back unchanged and is dispatched under its event name |
| MessageCodec.ReplyFrame | src/WebSocketWrapper.ts:157-165 | a reply's frame holds its id, `a: [null]`, and its data or error only when defined |
| MessageCodec.ResolveMessage | src/WebSocketWrapper.ts:158 | a resolve is the frame `{i, a: [null], d}`, without `d` when the data is undefined |
| MessageCodec.RejectMessage | src/WebSocketWrapper.ts:163 | a reject is the frame `{i, a: [null], e}`, without `e` when the error is undefined |
| SocketWrapper.Settle | src/WebSocketWrapper.ts:66-74 | a waiting promise takes the given outcome; a settled promise stays as it is |
| SocketWrapper.ReplyOutcome | src/WebSocketWrapper.ts:69-73 | a reply rejects exactly when its error is defined, with the peer's error as the reason, and otherwise resolves with its data |
| SocketWrapper.Answered | src/WebSocketWrapper.ts:66-74 | an inbound message changes only the promise its id names, and only when that request is pending; that promise becomes `Settle(old, ReplyOutcome(message))`, so it is settled afterwards |
| SocketWrapper.Dispatch | src/WebSocketWrapper.ts:77 | a message whose event name is not a string reaches no handler; otherwise it calls each wrapped handler registered under its name once, in registration order, each given the whole message |
| SocketWrapper.Invoked | src/WebSocketWrapper.ts:173 | the application handler gets the message's arguments, or none when they are absent |
| SocketWrapper.ReplyFor | src/WebSocketWrapper.ts:175-182 | the reply carries the request id; the requester resolves with the returned data, rejects with a thrown value, or resolves with nothing on a thrown `undefined`; the peer dispatches it under `''` |
| SocketWrapper.WrappedOnlyRegistered | src/WebSocketWrapper.ts:189-191 | registering a new `wrapHandler` closure keeps the registry holding only such closures, each stored under itself |
| SocketWrapper.WrappedOnlyUnregistered | src/WebSocketWrapper.ts:189-191 | removing a registration keeps that shape |
| SocketWrapper.WrappedBucket | src/WebSocketWrapper.ts:77 | every registration of the wrapper is a `wrapHandler` closure stored under itself, so `emit` unsubscribes nothing |
| SocketWrapper.DispatchWrapped | src/WebSocketWrapper.ts:63-78 | every call an inbound message triggers is of a `wrapHandler` closure, given the whole message |
| SocketWrapper.OnTwiceRegistersTwice | src/WebSocketWrapper.ts:189-199 | `on` twice with one handler leaves two registrations, and the handler itself is registered under no name |
| SocketWrapper.EventReachesHandler | src/WebSocketWrapper.ts:167-173 | an event sent by the peer reaches every handler registered for its name, called with the event's arguments in order |
| SocketWrapper.ReplySettlesRequest | src/WebSocketWrapper.ts:66-74 | a reply to a pending request resolves it with the returned data or rejects it with the thrown value; a thrown `undefined` resolves it |
| SocketWrapper.FirstSettlementWins | src/WebSocketWrapper.ts:66-74 | a reply changes no settled promise and no promise whose request is no longer pending |
| SocketWrapper.Socket.constructor | src/WebSocketWrapper.ts:34 | a socket starts in the given ready state, with nothing sent and no callbacks attached |
| SocketWrapper.Socket.Opened | src/WebSocketWrapper.ts:59-61 | the opening handshake takes a connecting socket to open |
| SocketWrapper.Socket.Send | src/WebSocketWrapper.ts:117 | sending on an open socket appends the frame to what it has sent |
| SocketWrapper.WebSocketWrapper.constructor | src/WebSocketWrapper.ts:33-37 | a new wrapper has an empty queue, no requests, no handlers and no state, a timeout of 10000, and is bound to its socket |
| SocketWrapper.WebSocketWrapper.RunQueue | src/WebSocketWrapper.ts:44-49 | on an open socket, the queued frames go out in FIFO order after those already sent, and the queue ends empty |
| SocketWrapper.WebSocketWrapper.Bind | src/WebSocketWrapper.ts:51-86 | detaches the previous socket, attaches the new one, and flushes the queue exactly when the new socket is open |
| SocketWrapper.WebSocketWrapper.HandleOpen | src/WebSocketWrapper.ts:59-61 | when the socket opens, the queue is flushed in order |
| SocketWrapper.WebSocketWrapper.Send | src/WebSocketWrapper.ts:115-122 | an open socket gets the frame at once and the queue is unchanged; otherwise the frame joins the back of the queue and nothing is sent |
| SocketWrapper.WebSocketWrapper.SendEvent | src/WebSocketWrapper.ts:124-127 | sends or queues the frame with the event name and the arguments |
| SocketWrapper.WebSocketWrapper.SendRequest | src/WebSocketWrapper.ts:129-155 | adds one waiting promise and one pending entry under the fresh id, with a timer exactly when the timeout is positive, and sends or queues one request frame |
| SocketWrapper.WebSocketWrapper.SendResolve | src/WebSocketWrapper.ts:157-160 | sends or queues the resolve frame |
| SocketWrapper.WebSocketWrapper.SendReject | src/WebSocketWrapper.ts:162-165 | sends or queues the reject frame |
| SocketWrapper.WebSocketWrapper.TimerFires | src/WebSocketWrapper.ts:144-149 | the request stops being pending and its promise is rejected as timed out unless already settled |
| SocketWrapper.WebSocketWrapper.HandleMessage | src/WebSocketWrapper.ts:63-78 | undecodable data fails and changes nothing; otherwise a reply settles its pending request (the entry stays), and the message is dispatched under its name |
| SocketWrapper.WebSocketWrapper.Complete | src/WebSocketWrapper.ts:168-186 | when the request id is truthy, the handler's value is sent as a resolve or its thrown value as a reject; otherwise nothing is sent; a thrown value is thrown again |
| SocketWrapper.WebSocketWrapper.WrapHandler | src/WebSocketWrapper.ts:167-168 | each call builds a closure distinct from every earlier one |
| SocketWrapper.WebSocketWrapper.On | src/WebSocketWrapper.ts:189-191 | registers a fresh `wrapHandler` closure under itself |
| SocketWrapper.WebSocketWrapper.Off | src/WebSocketWrapper.ts:193-199 | always returns false and leaves the registry unchanged |
| SocketWrapper.WebSocketWrapper.Unsubscribe | src/WebSocketWrapper.ts:189-191 | the closure `on` returns removes that registration |
| SocketWrapper.WebSocketWrapper.Get | src/WebSocketWrapper.ts:202-204 | `get` yields a value exactly when the key was set, and the value stored under it |
| SocketWrapper.WebSocketWrapper.Set | src/WebSocketWrapper.ts:207-209 | after `set(k, v)`, `get(k)` is `v` and every other key reads as before |
| SocketWrapper.RequestBeforeOpen | src/WebSocketWrapper.ts:129-155 | a request made before the socket opens is queued, sent first on open, resolved by the reply, and stays resolved when its timer fires |
| SocketWrapper.ReplyBeatsTimer | src/WebSocketWrapper.ts:66-74 | a waiting request answered before its timer fires is resolved with the reply's data, and the timer leaves it resolved |
| SocketWrapper.TimeoutThenLateReply | src/WebSocketWrapper.ts:144-149 | a request whose timer fires is rejected as timed out, and a late reply does not change that |
| ChannelTree.NonEmpty | src/WebSocketChannel.ts:17 | filtering keeps no empty segment and never lengthens the list |
| ChannelTree.JoinWith | src/WebSocketChannel.ts:17 | joining no parts gives `''`; otherwise the result starts with the first part |
| ChannelTree.Join | src/WebSocketChannel.ts:17 | joining two segments gives `a/b`, or whichever is non-empty, or `''` |
| ChannelTree.JoinCases | src/WebSocketChannel.ts:17 | filtering and joining two segments, case by case |
| ChannelTree.JoinEmpty | src/WebSocketChannel.ts:20-22 | an empty segment on either side changes nothing |
| ChannelTree.JoinAssociative | src/WebSocketChannel.ts:16-22 | joining is associative |
| ChannelTree.NonEmptySnoc | src/WebSocketChannel.ts:17 | filtering distributes over appending a segment |
| ChannelTree.JoinWithSnoc | src/WebSocketChannel.ts:17 | joining one more segment appends the separator and the segment |
| ChannelTree.JoinNamesSnoc | src/WebSocketChannel.ts:16-18 | extending a list of names by one is joining with that name |
| ChannelTree.JoinNonEmptyParts | src/WebSocketChannel.ts:17 | joining at least one non-empty segment gives a non-empty string |
| ChannelTree.WebSocketChannel.constructor | src/WebSocketChannel.ts:9-14 | a new channel has the given wrapper, name and parent and no children |
| ChannelTree.WebSocketChannel.Path | src/WebSocketChannel.ts:16-18 | a root's path is its own name |
| ChannelTree.WebSocketChannel.JoinPath | src/WebSocketChannel.ts:20-22 | an event name under the empty path is unchanged; an empty event name gives the path; otherwise `path/eventName` |
| ChannelTree.WebSocketChannel.PathEndsWithName | src/WebSocketChannel.ts:16-18 | a non-empty name always ends the path |
| ChannelTree.WebSocketChannel.PathExtendsParent | src/WebSocketChannel.ts:16-18 | a child's path starts with its parent's path |
| ChannelTree.WebSocketChannel.PathIsJoinedNames | src/WebSocketChannel.ts:16-18 | a channel's path is the non-empty names from the root down to it, joined by `/` |
| ChannelTree.WebSocketChannel.ChildJoinPath | src/WebSocketChannel.ts:20-22 | a child's event `e` is the parent's event `name/e` |
| ChannelTree.WebSocketChannel.RootPaths | src/WebSocketChannel.ts:16-22 | a root without a name has path `''` and leaves event names as they are |
| ChannelTree.WebSocketChannel.EmptyChildName | src/WebSocketChannel.ts:16-18 | a child named `''` has its parent's path |
| ChannelTree.WebSocketChannel.Emit | src/WebSocketChannel.ts:24-26 | sends the event under `joinPath(eventName)` |
| ChannelTree.WebSocketChannel.Request | src/WebSocketChannel.ts:28-30 | sends the request under `joinPath(eventName)` |
| ChannelTree.WebSocketChannel.On | src/WebSocketChannel.ts:32-34 | registers under `joinPath(eventName)` |
| ChannelTree.WebSocketChannel.Off | src/WebSocketChannel.ts:36-38 | forwards under `joinPath(eventName)` and removes nothing |
| ChannelTree.WebSocketChannel.Of | src/WebSocketChannel.ts:40-50 | returns the cached child, or creates and caches a new one; never changes an existing entry; a new child is itself valid; the child's path is `joinPath(name)` |
| ChannelTree.NestedEventName | src/WebSocketChannel.ts:16-22 | below a root, `of('a')` has path `a`, `of('a').of('b')` has `a/b`, and its `ping` is sent as `a/b/ping` |

## Left out

- **JSON text.** `JSON.stringify`/`JSON.parse` are represented by the JSON value a text
  denotes; character-level encoding, key order and whitespace are not modelled.
- **Number precision.** Numbers are unbounded integers; floating point is not modelled.
- **Values JSON cannot hold.** Values such as functions, `undefined` inside arrays, and
  `Error` objects (which stringify to `{}`) enter the model as their JSON form. A thrown
  or returned value is an `Option<Value>`, where `None` stands for `undefined`.
- **Binary frames.** `event.data` that is not a string is not modelled.
- **`nanoid`.** The id generator is a foreign call. `SendRequest` takes the request id as
  a parameter, which must not have been issued before.
- **Timers and the async runtime.** Time, `setTimeout`, `Promise` and `async`/`await` are
  not modelled. The timer firing, the socket opening and a handler settling are method
  calls. A request's promise is the `handles` map entry; the promise object's `id`,
  `resolve`, `reject` and `timeoutId` fields are not modelled.
- **Application handlers.** They are opaque identities, and what they do is not
  modelled. During an emission, only the built-in `once` self-removal changes the
  registry. Handlers that register or remove other handlers mid-emission are not
  modelled; the live iteration of `Map.forEach` would visit entries added during it.
- **The socket.** Only the opening handshake is a transition. `onerror`/`onclose` are
  never attached by the source. `listener` stands for the callback slots that `bind`
  sets and clears.
- **Method chaining.** Returning `this` from `send` and `bind` has no effect on state and
  is not modelled.
- **`SocketWrapper.WebSocketWrapper.Connecting`, `Closing`, `Closed`, `Connected`.** Each
  getter is a single comparison of the ready state, and carries no contract.
- **Event names that are not strings.** A decoded event name that is neither a string nor
  `null` is dispatched under no name, since every registration is under a string.
- `EventRegistry.EventEmitter.Emit` calls every handler of the name. In the source, a
  handler that throws synchronously stops `Map.forEach` (src/EventEmitter.ts:17): later
  handlers are not called, and their `once` registrations stay. That is not modelled.
  It never arises inside `WebSocketWrapper`, whose registered closures are `async` and
  so never throw synchronously.
- `EventRegistry.EventEmitter.On`, `EventRegistry.EventEmitter.Once`: the default
  `wrappedHandler = handler` (src/EventEmitter.ts:41, 54) is not modelled; callers always
  pass the wrapped handler. `WebSocketWrapper.on` relies on the default, and the model's
  `SocketWrapper.WebSocketWrapper.On` passes the closure itself, which is what the
  default gives.
- `EventRegistry.EventEmitter.constructor` always starts from an empty registry. The
  optional `handlers` map a caller may pass (src/EventEmitter.ts:6), which stays shared
  with that caller, is not modelled; no caller in the library passes one.
- `ChannelTree.WebSocketChannel.Of` promises that a newly created child is valid, but not a
  cached one. Validity covers a channel's own cache only, not its descendants'. So a chain
  such as `root.Of("a").Of("b")` verifies only when the caller keeps track of the child's
  validity from when it was created. Covering the whole subtree would take a footprint that
  grows in every ancestor on each `of`.
