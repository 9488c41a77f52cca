/**
 * `WebSocketWrapper`: one WebSocket connection with an outbound queue, a
 * request/response protocol over request ids, an event registry whose handlers
 * reply to requests, and a per-connection key/value store.
 *
 * The browser socket is the class `Socket`; what it has sent is the sequence
 * `sent`. Callbacks the browser would run later (`onopen`, `onmessage`, a
 * request timer firing, an asynchronous handler settling) are methods that a
 * caller invokes as separate steps.
 */
module SocketWrapper {
  import opened Wrappers
  import OrderedMap
  import opened EventRegistry
  import opened MessageCodec

  /** `WebSocket.readyState`. */
  datatype ReadyState = Connecting | Open | Closing | Closed

  /** The identity of a function the application passes to `on` or `off`. */
  type HandlerId = nat

  /**
   * A function as the wrapper's registry sees it: one of the application's own
   * (`User`), or a closure built by `wrapHandler` around one (`Replying`). Every
   * `wrapHandler` call builds a new closure; `serial` tells them apart.
   */
  datatype Fn = User(id: HandlerId) | Replying(serial: nat, user: HandlerId)

  /** Why a request promise was rejected: the peer's error, or the timer. */
  datatype Rejection = PeerError(reason: Value) | TimedOut

  /** The state of a promise returned by `sendRequest`. */
  datatype Promise = Waiting | Resolved(value: Option<Value>) | Rejected(reason: Rejection)

  /** A request awaiting its reply (`RequestPromise`): whether a timeout timer runs for it. */
  datatype PendingRequest = PendingRequest(timerArmed: bool)

  /**
   * How an application handler finished: the value it returned (after `await`)
   * or the value it threw, each as `JSON.stringify` writes it (`None` for
   * `undefined`).
   */
  datatype Outcome = Returned(value: Option<Value>) | Threw(error: Option<Value>)

  /** The call a `wrapHandler` closure makes: the application handler and its arguments. */
  datatype Invocation = Invocation(handler: HandlerId, args: seq<Value>)

  /** The timeout every wrapper is constructed with, in milliseconds. */
  const RequestTimeout: int := 10000

  /** Settling a promise: only the first settlement counts. */
  function Settle(p: Promise, outcome: Promise): (r: Promise)
    ensures !p.Waiting? ==> r == p
    ensures p.Waiting? ==> r == outcome
    ensures !outcome.Waiting? ==> !r.Waiting?
  {
    if p.Waiting? then outcome else p
  }

  /** How a reply settles its request: rejected when it carries an error, resolved with its data otherwise. */
  function ReplyOutcome(m: Message): (r: Promise)
    ensures !r.Waiting?
    ensures r.Rejected? <==> m.error.Some?
    ensures r.Rejected? ==> r.reason == PeerError(m.error.value)
    ensures r.Resolved? ==> r.value == m.data
  {
    if m.error.Some? then Rejected(PeerError(m.error.value)) else Resolved(m.data)
  }

  /** The request promises after an inbound message: a reply to a pending request settles it. */
  function Answered(handles: map<string, Promise>, pending: map<string, PendingRequest>, m: Message): (r: map<string, Promise>)
    requires pending.Keys <= handles.Keys
    ensures r.Keys == handles.Keys
    ensures forall id :: id in handles && (m.requestId != Some(Str(id)) || id !in pending) ==> r[id] == handles[id]
    ensures forall id :: id in pending && m.requestId == Some(Str(id)) ==> r[id] == Settle(handles[id], ReplyOutcome(m))
    ensures forall id :: id in pending && m.requestId == Some(Str(id)) ==> !r[id].Waiting?
  {
    match m.requestId
    case Some(Str(id)) =>
      if id in pending then handles[id := Settle(handles[id], ReplyOutcome(m))] else handles
    case _ => handles
  }

  /** The wrapped-handler calls an inbound message triggers: the message, emitted under its dispatch name. */
  function Dispatch(t: Registry<Fn>, m: Message): (r: seq<Call<Fn, Message>>)
    ensures DispatchName(m).None? ==> r == []
    ensures DispatchName(m).Some? ==> |r| == |BucketOf(t, DispatchName(m).value)|
    ensures forall j :: 0 <= j < |r| ==> r[j].args == m
    ensures DispatchName(m).Some? ==> forall j :: 0 <= j < |r| ==> r[j].fn == BucketOf(t, DispatchName(m).value)[j].value.fn
  {
    CallsInOrder(BucketOf(t, DispatchName(m).GetOr("")), m);
    match DispatchName(m)
    case Some(name) => Calls(BucketOf(t, name), m)
    case None => []
  }

  /** The call a `wrapHandler` closure makes when it runs: the wrapped handler, given the message's arguments or none. */
  function Invoked(c: Call<Fn, Message>): (r: Invocation)
    requires c.fn.Replying?
    ensures r.handler == c.fn.user
    ensures c.args.args.Some? ==> r.args == c.args.args.value
    ensures c.args.args.None? ==> r.args == []
  {
    Invocation(c.fn.user, c.args.args.GetOr([]))
  }

  /** The reply a `wrapHandler` closure sends for a handler's outcome. */
  function ReplyFor(requestId: Value, outcome: Outcome): (r: Message)
    ensures r.requestId == Some(requestId)
    ensures ReplyOutcome(r) == match outcome
      case Returned(data) => Resolved(data)
      case Threw(Some(e)) => Rejected(PeerError(e))
      case Threw(None) => Resolved(None)
    ensures DispatchName(Normalized(r)) == Some("")
  {
    match outcome
    case Returned(data) => ResolveMessage(requestId, data)
    case Threw(error) => RejectMessage(requestId, error)
  }

  /**
   * What the wrapper's registry holds: only closures built by `wrapHandler`
   * (fewer than `built` of them), each stored under itself.
   */
  ghost predicate WrappedOnly(t: Registry<Fn>, built: nat) {
    forall n, g :: Lookup(t, n, g).Some? ==> g.Replying? && g.serial < built && Lookup(t, n, g) == Some(Direct(g))
  }

  /** Registering a newly built closure keeps the registry's shape. */
  lemma WrappedOnlyRegistered(t: Registry<Fn>, built: nat, name: EventName, h: HandlerId)
    requires WrappedOnly(t, built)
    ensures WrappedOnly(Registered(t, name, Replying(built, h), Direct(Replying(built, h))), built + 1)
  {
    var fn := Replying(built, h);
    forall n, g ensures Lookup(Registered(t, name, fn, Direct(fn)), n, g).Some? ==>
      g.Replying? && g.serial < built + 1 && Lookup(Registered(t, name, fn, Direct(fn)), n, g) == Some(Direct(g))
    {
      LookupAfterRegistered(t, name, fn, Direct(fn), n, g);
    }
  }

  /** Removing a registration keeps the registry's shape. */
  lemma WrappedOnlyUnregistered(t: Registry<Fn>, built: nat, name: EventName, h: Fn)
    requires WrappedOnly(t, built)
    ensures WrappedOnly(Unregistered(t, name, h), built)
  {
    forall n, g ensures Lookup(Unregistered(t, name, h), n, g).Some? ==>
      g.Replying? && g.serial < built && Lookup(Unregistered(t, name, h), n, g) == Some(Direct(g))
    {
      LookupAfterUnregistered(t, name, h, n, g);
    }
  }

  /**
   * Every entry of a bucket of the wrapper's registry is a `wrapHandler`
   * closure stored under itself, so an emission unsubscribes nothing.
   */
  lemma WrappedBucket(t: Registry<Fn>, built: nat, name: EventName)
    requires WellFormed(t) && WrappedOnly(t, built)
    ensures forall j :: 0 <= j < |BucketOf(t, name)| ==>
      BucketOf(t, name)[j].key.Replying? && BucketOf(t, name)[j].value == Direct(BucketOf(t, name)[j].key)
    ensures Dispatched(t, name) == t
  {
    var b := BucketOf(t, name);
    BucketUnique(t, name);
    forall j | 0 <= j < |b| ensures b[j].key.Replying? && b[j].value == Direct(b[j].key) {
      OrderedMap.GetAt(b, j);
      assert Lookup(t, name, b[j].key) == Some(b[j].value);
    }
    if OrderedMap.Has(t, name) {
      LastingAllDirect(b);
      OrderedMap.SetSameValue(t, name, b);
    }
  }

  /**
   * Each call an inbound message triggers is of a `wrapHandler` closure, which
   * gets the whole message.
   */
  lemma DispatchWrapped(t: Registry<Fn>, built: nat, m: Message)
    requires WellFormed(t) && WrappedOnly(t, built)
    ensures forall j :: 0 <= j < |Dispatch(t, m)| ==>
      Dispatch(t, m)[j].fn.Replying? && Dispatch(t, m)[j].fn.serial < built && Dispatch(t, m)[j].args == m
  {
    if DispatchName(m).Some? {
      var name := DispatchName(m).value;
      var b := BucketOf(t, name);
      CallsInOrder(b, m);
      WrappedBucket(t, built, name);
      BucketUnique(t, name);
      forall j | 0 <= j < |b| ensures b[j].key.serial < built {
        OrderedMap.GetAt(b, j);
        assert Lookup(t, name, b[j].key).Some?;
      }
    }
  }

  /**
   * Each `on` wraps the handler anew, so `on` twice with the same handler and
   * name leaves two registrations, and the handler itself is registered under
   * no name.
   */
  lemma OnTwiceRegistersTwice(t: Registry<Fn>, built: nat, name: EventName, h: HandlerId)
    requires WrappedOnly(t, built)
    ensures var once := Registered(t, name, Replying(built, h), Direct(Replying(built, h)));
      var twice := Registered(once, name, Replying(built + 1, h), Direct(Replying(built + 1, h)));
      Lookup(twice, name, Replying(built, h)).Some? && Lookup(twice, name, Replying(built + 1, h)).Some? &&
      forall n :: Lookup(twice, n, User(h)).None?
  {
    var first, second := Replying(built, h), Replying(built + 1, h);
    RegisteredTwiceKeepsBoth(t, name, first, second);
    forall n ensures Lookup(t, n, User(h)).None? {
      assert !User(h).Replying?;
    }
    WrappedStaysAbsent(t, name, first, h);
    WrappedStaysAbsent(Registered(t, name, first, Direct(first)), name, second, h);
  }

  /** Two registrations of distinct closures under one name are both kept. */
  lemma RegisteredTwiceKeepsBoth(t: Registry<Fn>, name: EventName, first: Fn, second: Fn)
    requires first != second
    ensures var twice := Registered(Registered(t, name, first, Direct(first)), name, second, Direct(second));
      Lookup(twice, name, first) == Some(Direct(first)) && Lookup(twice, name, second) == Some(Direct(second))
  {
    var once := Registered(t, name, first, Direct(first));
    LookupAfterRegistered(t, name, first, Direct(first), name, first);
    LookupAfterRegistered(once, name, second, Direct(second), name, first);
    LookupAfterRegistered(once, name, second, Direct(second), name, second);
  }

  /** Registering a built closure never registers the user's handler itself. */
  lemma WrappedStaysAbsent(t: Registry<Fn>, name: EventName, g: Fn, h: HandlerId)
    requires g.Replying? && forall n :: Lookup(t, n, User(h)).None?
    ensures forall n :: Lookup(Registered(t, name, g, Direct(g)), n, User(h)).None?
  {
    forall n ensures Lookup(Registered(t, name, g, Direct(g)), n, User(h)).None? {
      LookupAfterRegistered(t, name, g, Direct(g), n, User(h));
    }
  }

  /**
   * An event sent by the peer reaches every handler registered for its name
   * through `on`, which is called with the event's arguments in order.
   */
  lemma EventReachesHandler(t: Registry<Fn>, built: nat, serial: nat, h: HandlerId, name: EventName, args: seq<Value>)
    requires WellFormed(t) && WrappedOnly(t, built)
    requires Lookup(t, name, Replying(serial, h)).Some?
    ensures Deserialize(Some(Serialize(EventMessage(name, args)))).Success?
    ensures var m := Deserialize(Some(Serialize(EventMessage(name, args)))).value;
      Call(Replying(serial, h), m) in Dispatch(t, m) && Invoked(Call(Replying(serial, h), m)) == Invocation(h, args)
  {
    RoundTripExact(EventMessage(name, args));
    var m := EventMessage(name, args);
    EmitReaches(t, name, Replying(serial, h), m);
  }

  /**
   * A reply produced for our request settles its promise: resolved with the
   * returned data, rejected with a thrown value, but resolved with no data
   * when the handler threw `undefined` (the reply then carries no error).
   */
  lemma ReplySettlesRequest(handles: map<string, Promise>, pending: map<string, PendingRequest>, id: string, outcome: Outcome)
    requires pending.Keys <= handles.Keys && id in pending && handles[id] == Waiting
    ensures Deserialize(Some(Serialize(ReplyFor(Str(id), outcome)))).Success?
    ensures Answered(handles, pending, Deserialize(Some(Serialize(ReplyFor(Str(id), outcome)))).value)
         == handles[id := match outcome
                          case Returned(data) => Resolved(data)
                          case Threw(Some(error)) => Rejected(PeerError(error))
                          case Threw(None) => Resolved(None)]
  {
    match outcome
    case Returned(data) => RepliesDecode(Str(id), data, None);
    case Threw(error) => RepliesDecode(Str(id), None, error);
  }

  /**
   * A promise settles once: after the first settlement no reply changes it,
   * and a reply for a request that is no longer pending (its timer fired)
   * changes no promise at all.
   */
  lemma FirstSettlementWins(handles: map<string, Promise>, pending: map<string, PendingRequest>, m: Message)
    requires pending.Keys <= handles.Keys
    ensures Answered(handles, pending, m).Keys == handles.Keys
    ensures forall id :: id in handles && !handles[id].Waiting? ==> Answered(handles, pending, m)[id] == handles[id]
    ensures forall id :: id in handles && id !in pending ==> Answered(handles, pending, m)[id] == handles[id]
  {
  }

  /** The browser socket, reduced to what the wrapper uses. */
  class Socket {
    var readyState: ReadyState
    /** Every frame `send` has put on the wire, oldest first. */
    var sent: seq<Value>
    /** The wrapper whose `onopen`/`onmessage` callbacks are attached; null when none is. */
    var listener: WebSocketWrapper?

    constructor (readyState: ReadyState)
      ensures this.readyState == readyState && sent == [] && listener == null
    {
      this.readyState := readyState;
      sent := [];
      listener := null;
    }

    /** The browser completes the opening handshake. */
    method Opened()
      requires readyState == Connecting
      modifies this`readyState
      ensures readyState == Open
    {
      readyState := Open;
    }

    /** `socket.send(data)` on an open socket. */
    method Send(frame: Value)
      requires readyState == Open
      modifies this`sent
      ensures sent == old(sent) + [frame]
    {
      sent := sent + [frame];
    }
  }

  class WebSocketWrapper {
    var socket: Socket
    /** Frames waiting for the socket to open, oldest first. */
    var queue: seq<Value>
    /** Requests awaiting a reply, by request id. */
    var pending: map<string, PendingRequest>
    /** The promise `sendRequest` returned, for every request id it issued. */
    var handles: map<string, Promise>
    /** The per-connection key/value store. */
    var state: map<string, Value>
    const emitter: EventEmitter<Fn>
    const requestTimeout: int
    /** How many closures `wrapHandler` has built. */
    var built: nat

    ghost predicate Valid()
      reads this, emitter
    {
      emitter.Valid() && pending.Keys <= handles.Keys && WrappedOnly(emitter.handlers, built)
    }

    /** `new WebSocketWrapper(socket)`: empty queue, no requests, no handlers, then `bind(socket)`. */
    constructor (socket: Socket)
      modifies socket`listener, socket`sent
      ensures Valid() && fresh(emitter)
      ensures this.socket == socket && socket.listener == this && socket.sent == old(socket.sent)
      ensures queue == [] && pending == map[] && handles == map[] && state == map[]
      ensures emitter.handlers == [] && requestTimeout == RequestTimeout
    {
      this.socket := socket;
      queue := [];
      pending := map[];
      handles := map[];
      state := map[];
      emitter := new EventEmitter();
      requestTimeout := RequestTimeout;
      built := 0;
      new;
      Bind(socket);
    }

    /** The `connected` getter. */
    function Connected(): bool
      reads this, socket
    {
      socket.readyState == Open
    }

    /** The `connecting` getter. */
    function Connecting(): bool
      reads this, socket
    {
      socket.readyState == ReadyState.Connecting
    }

    /** The `closing` getter. */
    function Closing(): bool
      reads this, socket
    {
      socket.readyState == ReadyState.Closing
    }

    /** The `closed` getter. */
    function Closed(): bool
      reads this, socket
    {
      socket.readyState == ReadyState.Closed
    }

    /** A frame handed to `send` went out on an open socket, or to the back of the queue otherwise. */
    twostate predicate Delivered(frame: Value)
      reads this, socket
    {
      if old(socket.readyState) == Open then socket.sent == old(socket.sent) + [frame] && queue == old(queue)
      else queue == old(queue) + [frame] && socket.sent == old(socket.sent)
    }

    /** `runQueue`: on an open socket, sends every queued frame, oldest first. */
    method RunQueue()
      requires socket.readyState == Open
      modifies this`queue, socket`sent
      ensures queue == [] && socket.sent == old(socket.sent) + old(queue)
    {
      while queue != []
        invariant socket.readyState == Open
        invariant socket.sent + queue == old(socket.sent) + old(queue)
        decreases |queue|
      {
        ghost var before := queue;
        var frame := queue[0];
        queue := queue[1..];
        Send(frame);
        assert [frame] + queue == before;
      }
    }

    /**
     * `bind(s)`: detaches the callbacks from the current socket, attaches them
     * to `s`, and flushes the queue at once when `s` is already open.
     */
    method Bind(s: Socket)
      modifies this`socket, this`queue, socket`listener, s`listener, s`sent
      ensures socket == s && s.listener == this
      ensures old(socket) != s ==> old(socket).listener == null
      ensures s.readyState == Open ==> queue == [] && s.sent == old(s.sent) + old(queue)
      ensures s.readyState != Open ==> queue == old(queue) && s.sent == old(s.sent)
    {
      var previous := socket;
      previous.listener := null;
      socket := s;
      s.listener := this;
      if Connected() {
        RunQueue();
      }
    }

    /** The `onopen` callback: the socket opened, so the queue is flushed in order. */
    method HandleOpen()
      requires socket.readyState == Open && socket.listener == this
      modifies this`queue, socket`sent
      ensures queue == [] && socket.sent == old(socket.sent) + old(queue)
    {
      RunQueue();
    }

    /** `send(message)`: straight to the socket when it is open, to the back of the queue otherwise. */
    method Send(frame: Value)
      modifies this`queue, socket`sent
      ensures Delivered(frame)
    {
      if Connected() {
        socket.Send(frame);
      } else {
        queue := queue + [frame];
      }
    }

    /** `sendEvent(eventName, args)`: a frame with the name and the arguments and no request id. */
    method SendEvent(eventName: EventName, args: seq<Value>)
      modifies this`queue, socket`sent
      ensures Delivered(Serialize(EventMessage(eventName, args)))
    {
      Send(Serialize(EventMessage(eventName, args)));
    }

    /**
     * `sendRequest(eventName, args)`, where `requestId` is the fresh id that
     * `nanoid()` draws: records a waiting promise and a pending entry (with a
     * timer when the timeout is positive), then sends the request frame.
     */
    method SendRequest(eventName: EventName, args: seq<Value>, requestId: string) returns (request: string)
      requires Valid() && requestId !in handles
      modifies this`queue, this`pending, this`handles, socket`sent
      ensures Valid()
      ensures request == requestId && handles == old(handles)[requestId := Waiting]
      ensures pending == old(pending)[requestId := PendingRequest(requestTimeout > 0)]
      ensures Delivered(Serialize(RequestMessage(requestId, eventName, args)))
    {
      var message := Serialize(RequestMessage(requestId, eventName, args));
      handles := handles[requestId := Waiting];
      pending := pending[requestId := PendingRequest(requestTimeout > 0)];
      Send(message);
      request := requestId;
    }

    /** `sendResolve(requestId, data)` */
    method SendResolve(requestId: Value, data: Option<Value>)
      modifies this`queue, socket`sent
      ensures Delivered(Serialize(ResolveMessage(requestId, data)))
    {
      Send(Serialize(ResolveMessage(requestId, data)));
    }

    /** `sendReject(requestId, error)` */
    method SendReject(requestId: Value, error: Option<Value>)
      modifies this`queue, socket`sent
      ensures Delivered(Serialize(RejectMessage(requestId, error)))
    {
      Send(Serialize(RejectMessage(requestId, error)));
    }

    /**
     * A request's timer fires: the request stops being pending and its
     * promise is rejected, unless a reply has settled it already.
     */
    method TimerFires(requestId: string)
      requires Valid() && requestId in pending && pending[requestId].timerArmed
      modifies this`pending, this`handles
      ensures Valid()
      ensures pending == old(pending) - {requestId}
      ensures handles == old(handles)[requestId := Settle(old(handles)[requestId], Rejected(TimedOut))]
    {
      pending := pending - {requestId};
      handles := handles[requestId := Settle(handles[requestId], Rejected(TimedOut))];
    }

    /**
     * The `onmessage` callback. Undecodable data throws (`Failure`) and
     * changes nothing. Otherwise a reply to a pending request settles its
     * promise (the request stays pending), and the message is then emitted
     * under `eventName ?? ''`; the calls made are returned.
     */
    method HandleMessage(raw: Option<Value>) returns (r: Result<seq<Call<Fn, Message>>, DecodeError>)
      requires Valid()
      modifies this`handles, emitter
      ensures Valid()
      ensures emitter.handlers == old(emitter.handlers)
      ensures Deserialize(raw).Failure? ==> r == Failure(Deserialize(raw).error) && handles == old(handles)
      ensures Deserialize(raw).Success? ==>
        handles == Answered(old(handles), pending, Deserialize(raw).value) &&
        r == Success(Dispatch(old(emitter.handlers), Deserialize(raw).value))
    {
      var decoded := Deserialize(raw);
      if decoded.Failure? {
        return Failure(decoded.error);
      }
      var m := decoded.value;
      if m.requestId.Some? && m.requestId.value.Str? && m.requestId.value.s in pending {
        var id := m.requestId.value.s;
        if m.error.Some? {
          handles := handles[id := Settle(handles[id], Rejected(PeerError(m.error.value)))];
        } else {
          handles := handles[id := Settle(handles[id], Resolved(m.data))];
        }
      }
      match DispatchName(m) {
        case None =>
          r := Success([]);
        case Some(name) =>
          WrappedBucket(emitter.handlers, built, name);
          var calls := emitter.Emit(name, m);
          r := Success(calls);
      }
    }

    /**
     * The rest of a `wrapHandler` closure's run, once the application handler
     * has settled with `outcome`: when the message has a truthy request id,
     * the outcome goes back to the peer as a resolve or a reject. The closure's
     * own promise is fulfilled with nothing, or rejected with the thrown value.
     */
    method Complete(message: Message, outcome: Outcome) returns (settled: Outcome)
      modifies this`queue, socket`sent
      ensures Truthy(message.requestId) ==> Delivered(Serialize(ReplyFor(message.requestId.value, outcome)))
      ensures !Truthy(message.requestId) ==> queue == old(queue) && socket.sent == old(socket.sent)
      ensures settled == if outcome.Threw? then outcome else Returned(None)
    {
      match outcome {
        case Returned(data) =>
          if Truthy(message.requestId) {
            SendResolve(message.requestId.value, data);
          }
          settled := Returned(None);
        case Threw(error) =>
          if Truthy(message.requestId) {
            SendReject(message.requestId.value, error);
          }
          settled := outcome;
      }
    }

    /** `wrapHandler(handler)`: a new closure around `handler`, distinct from every earlier one. */
    method WrapHandler(handler: HandlerId) returns (fn: Fn)
      modifies this`built
      ensures fn == Replying(old(built), handler) && built == old(built) + 1
    {
      fn := Replying(built, handler);
      built := built + 1;
    }

    /**
     * `on(eventName, handler)`: registers a new `wrapHandler` closure under
     * itself, so registering the same handler twice makes two registrations.
     */
    method On(eventName: EventName, handler: HandlerId) returns (off: Subscription<Fn>)
      requires Valid()
      modifies this`built, emitter
      ensures Valid()
      ensures built == old(built) + 1
      ensures emitter.handlers == Registered(old(emitter.handlers), eventName,
        Replying(old(built), handler), Direct(Replying(old(built), handler)))
      ensures off == Subscription(eventName, Replying(old(built), handler))
    {
      WrappedOnlyRegistered(emitter.handlers, built, eventName, handler);
      var fn := WrapHandler(handler);
      off := emitter.On(eventName, fn, Direct(fn));
    }

    /**
     * `off(eventName, handler)` looks `handler` itself up, but only closures
     * built by `wrapHandler` are registered: nothing is ever removed.
     */
    method Off(eventName: EventName, handler: HandlerId) returns (removed: bool)
      requires Valid()
      modifies emitter
      ensures Valid()
      ensures !removed && emitter.handlers == old(emitter.handlers)
    {
      removed := emitter.Off(Some(eventName), Some(User(handler)));
      UnregisteredAbsent(old(emitter.handlers), eventName, User(handler));
    }

    /** Calling the closure that `on` returned: removes that one registration. */
    method Unsubscribe(off: Subscription<Fn>) returns (removed: bool)
      requires Valid()
      modifies emitter
      ensures Valid()
      ensures removed == Lookup(old(emitter.handlers), off.name, off.handler).Some?
      ensures emitter.handlers == Unregistered(old(emitter.handlers), off.name, off.handler)
    {
      WrappedOnlyUnregistered(emitter.handlers, built, off.name, off.handler);
      removed := emitter.Unsubscribe(off);
    }

    /** `get(key)`: the stored value, `None` for `undefined`. */
    function Get(key: string): (value: Option<Value>)
      reads this
      ensures value.Some? <==> key in state
      ensures value.Some? ==> value.value == state[key]
    {
      Read(state, key)
    }

    /** `set(key, value)`: `get(key)` now yields `value`; every other key is unchanged. */
    method Set(key: string, value: Value)
      modifies this`state
      ensures Get(key) == Some(value)
      ensures forall k :: k != key ==> Get(k) == old(Get(k))
    {
      state := state[key := value];
    }
  }

  /**
   * A request made before the socket opens waits in the queue, goes out first
   * when the socket opens, is resolved by the peer's reply, and keeps that
   * result when its timer fires afterwards.
   */
  method RequestBeforeOpen(s: Socket, requestId: string, data: Option<Value>) returns (frames: seq<Value>, result: Promise)
    requires s.readyState == Connecting && s.sent == []
    modifies s
    ensures frames == [Serialize(RequestMessage(requestId, "ping", []))]
    ensures result == Resolved(data)
  {
    var w := new WebSocketWrapper(s);
    var _ := w.SendRequest("ping", [], requestId);
    assert s.sent == [] && w.queue == [Serialize(RequestMessage(requestId, "ping", []))];
    s.Opened();
    w.HandleOpen();
    frames := s.sent;
    result := ReplyBeatsTimer(w, requestId, data);
  }

  /**
   * A waiting request that the peer answers before its timer fires is
   * resolved with the reply's data, and the timer firing afterwards leaves it
   * resolved.
   */
  method ReplyBeatsTimer(w: WebSocketWrapper, requestId: string, data: Option<Value>) returns (result: Promise)
    requires w.Valid() && requestId in w.pending && w.pending[requestId].timerArmed && w.handles[requestId] == Waiting
    modifies w`handles, w`pending, w.emitter
    ensures result == Resolved(data)
  {
    ReplySettlesRequest(w.handles, w.pending, requestId, Returned(data));
    var _ := w.HandleMessage(Some(Serialize(ReplyFor(Str(requestId), Returned(data)))));
    w.TimerFires(requestId);
    result := w.handles[requestId];
  }

  /**
   * A request that gets no reply before its timer fires is rejected as timed
   * out; a reply arriving afterwards settles nothing.
   */
  method TimeoutThenLateReply(s: Socket, requestId: string, data: Option<Value>) returns (result: Promise)
    modifies s
    ensures result == Rejected(TimedOut)
  {
    var w := new WebSocketWrapper(s);
    var _ := w.SendRequest("slow", [], requestId);
    w.TimerFires(requestId);
    assert w.handles[requestId] == Rejected(TimedOut) && requestId !in w.pending;
    var _ := w.HandleMessage(Some(Serialize(ReplyFor(Str(requestId), Returned(data)))));
    result := w.handles[requestId];
  }
}
