/**
 * The wire format of `WebSocketWrapper`: `serialize` writes a message as the
 * JSON object `{i, a: [eventName, ...args], d, e}` and `deserialize` reads it
 * back. The JSON text itself is represented by the JSON value it denotes.
 */
module MessageCodec {
  import opened Wrappers

  /** A JSON value (numbers are modelled as integers). */
  datatype Value = Null | Bool(b: bool) | Num(n: int) | Str(s: string) | Arr(items: seq<Value>) | Obj(fields: map<string, Value>)

  /**
   * `IMessage` as it exists at run time: any field may be undefined (`None`),
   * and a decoded message carries whatever JSON the peer put in its fields.
   */
  datatype Message = Message(
    requestId: Option<Value>,
    eventName: Option<Value>,
    args: Option<seq<Value>>,
    data: Option<Value>,
    error: Option<Value>)

  /** Why `deserialize` throws: `JSON.parse` rejects the text, or `m.a.shift()` is not callable. */
  datatype DecodeError = ParseError | TypeError

  /** ECMAScript truthiness of a possibly undefined JSON value: undefined and `null` are falsy, arrays and objects truthy. */
  predicate Truthy(v: Option<Value>)
    ensures Truthy(v) ==> v.Some? && v.value != Null
    ensures v.Some? && (v.value.Arr? || v.value.Obj?) ==> Truthy(v)
  {
    match v
    case None => false
    case Some(Null) => false
    case Some(Bool(b)) => b
    case Some(Num(n)) => n != 0
    case Some(Str(s)) => s != ""
    case Some(_) => true
  }

  /** An object property that `JSON.stringify` writes only when it is defined. */
  function Property(key: string, v: Option<Value>): map<string, Value> {
    if v.Some? then map[key := v.value] else map[]
  }

  /** Reading an object property; `None` when it is absent (undefined). */
  function Read(fields: map<string, Value>, key: string): (r: Option<Value>)
    ensures r.Some? <==> key in fields
    ensures r.Some? ==> r.value == fields[key]
  {
    if key in fields then Some(fields[key]) else None
  }

  /**
   * `serialize`: undefined fields are left out; an undefined event name is
   * written as `null` in the array; undefined arguments are written as `[]`.
   */
  function Serialize(m: Message): (frame: Value)
    ensures frame.Obj? && frame.fields.Keys <= {"i", "a", "d", "e"}
    ensures "a" in frame.fields && frame.fields["a"].Arr? && |frame.fields["a"].items| >= 1
  {
    Obj(Property("i", m.requestId) + Property("d", m.data) + Property("e", m.error)
        + map["a" := Arr([m.eventName.GetOr(Null)] + m.args.GetOr([]))])
  }

  /**
   * `deserialize` of inbound data, given as the parsed JSON (`None` when
   * `JSON.parse` throws). The first array element becomes the event name and
   * the rest the arguments. Anything but an object whose `a` is an array makes
   * `m.a.shift()` throw.
   */
  function Deserialize(raw: Option<Value>): (r: Result<Message, DecodeError>)
    ensures r.Success? ==> r.value.args.Some?
    ensures r.Success? <==> raw.Some? && raw.value.Obj? && "a" in raw.value.fields && raw.value.fields["a"].Arr?
  {
    match raw
    case None => Failure(ParseError)
    case Some(Obj(f)) =>
      if "a" in f && f["a"].Arr? then
        var items := f["a"].items;
        Success(Message(
          Read(f, "i"),
          if items == [] then None else Some(items[0]),
          Some(if items == [] then [] else items[1..]),
          Read(f, "d"),
          Read(f, "e")))
      else Failure(TypeError)
    case Some(_) => Failure(TypeError)
  }

  /** What a message looks like after a trip over the wire. */
  function Normalized(m: Message): Message {
    Message(m.requestId, Some(m.eventName.GetOr(Null)), Some(m.args.GetOr([])), m.data, m.error)
  }

  /**
   * Decoding an encoded message restores its request id, its arguments in
   * order, its data and its error; an undefined event name comes back as
   * `null` and undefined arguments as `[]`.
   */
  lemma RoundTrip(m: Message)
    ensures Deserialize(Some(Serialize(m))) == Success(Normalized(m))
  {
    var f := Serialize(m).fields;
    var items := [m.eventName.GetOr(Null)] + m.args.GetOr([]);
    assert f["a"] == Arr(items);
    assert items[1..] == m.args.GetOr([]);
  }

  /** A message whose event name and arguments are present survives the trip unchanged. */
  lemma RoundTripExact(m: Message)
    requires m.eventName.Some? && m.args.Some?
    ensures Deserialize(Some(Serialize(m))) == Success(m)
  {
    RoundTrip(m);
  }

  /**
   * The other direction: any object with only the keys `i`, `a`, `d`, `e`
   * and a non-empty array under `a` is re-encoded exactly as it was received.
   */
  lemma ReEncode(f: map<string, Value>)
    requires f.Keys <= {"i", "a", "d", "e"} && "a" in f && f["a"].Arr? && |f["a"].items| >= 1
    ensures Deserialize(Some(Obj(f))).Success?
    ensures Serialize(Deserialize(Some(Obj(f))).value) == Obj(f)
  {
    var m := Deserialize(Some(Obj(f))).value;
    var g := Serialize(m).fields;
    var items := f["a"].items;
    assert [items[0]] + items[1..] == items;
    assert g.Keys == f.Keys;
    forall k | k in f ensures g[k] == f[k] {
    }
  }

  /** The name an inbound message is dispatched under: `message.eventName ?? ''`. */
  function DispatchName(m: Message): (name: Option<string>)
    ensures m.eventName.None? || m.eventName == Some(Null) ==> name == Some("")
    ensures m.eventName.Some? && m.eventName.value.Str? ==> name == Some(m.eventName.value.s)
    ensures name.None? <==> m.eventName.Some? && !m.eventName.value.Null? && !m.eventName.value.Str?
  {
    match m.eventName
    case None => Some("")
    case Some(Null) => Some("")
    case Some(Str(s)) => Some(s)
    // Any other JSON value is a key under which no string-named handler is registered.
    case Some(_) => None
  }

  /** The wire does not change the name a message is dispatched under. */
  lemma DispatchNameRoundTrip(m: Message)
    ensures Deserialize(Some(Serialize(m))).Success?
    ensures DispatchName(Deserialize(Some(Serialize(m))).value) == DispatchName(m)
  {
    RoundTrip(m);
  }

  /** `serialize({ eventName, args })` in `sendEvent`: the frame `{a: [eventName, ...args]}`, which decodes back unchanged. */
  function EventMessage(eventName: string, args: seq<Value>): (m: Message)
    ensures Serialize(m) == Obj(map["a" := Arr([Str(eventName)] + args)])
    ensures Deserialize(Some(Serialize(m))) == Success(m)
    ensures DispatchName(m) == Some(eventName)
  {
    var m := Message(None, Some(Str(eventName)), Some(args), None, None);
    RoundTripExact(m);
    m
  }

  /**
   * `serialize({ requestId, eventName, args })` in `sendRequest`: the frame
   * `{i, a: [eventName, ...args]}`, which decodes back unchanged.
   */
  function RequestMessage(id: string, eventName: string, args: seq<Value>): (m: Message)
    ensures Serialize(m) == Obj(map["i" := Str(id), "a" := Arr([Str(eventName)] + args)])
    ensures Deserialize(Some(Serialize(m))) == Success(m)
    ensures DispatchName(m) == Some(eventName)
  {
    var m := Message(Some(Str(id)), Some(Str(eventName)), Some(args), None, None);
    RoundTripExact(m);
    m
  }

  /** The frame of a reply: its id, `[null]` for the missing event name, and its one payload field when defined. */
  lemma ReplyFrame(m: Message, key: string, payload: Option<Value>)
    requires m.requestId.Some? && m.eventName.None? && m.args.None?
    requires key == "d" || key == "e"
    requires if key == "d" then m.data == payload && m.error.None? else m.error == payload && m.data.None?
    ensures Serialize(m) == Obj(Property(key, payload) + map["i" := m.requestId.value, "a" := Arr([Null])])
  {
    var f := Serialize(m).fields;
    var g := Property(key, payload) + map["i" := m.requestId.value, "a" := Arr([Null])];
    assert f.Keys == g.Keys;
    forall k | k in f ensures f[k] == g[k] {
    }
  }

  /**
   * `serialize({ requestId, data })` in `sendResolve`: the frame
   * `{i, a: [null], d}`, with `d` left out when the data is undefined.
   */
  function ResolveMessage(requestId: Value, data: Option<Value>): (m: Message)
    ensures Serialize(m) == Obj(Property("d", data) + map["i" := requestId, "a" := Arr([Null])])
  {
    var m := Message(Some(requestId), None, None, data, None);
    ReplyFrame(m, "d", data);
    m
  }

  /**
   * `serialize({ requestId, error })` in `sendReject`; `error` is the thrown
   * value as `JSON.stringify` writes it (`None` for `undefined`). The frame is
   * `{i, a: [null], e}`, with `e` left out when the error is undefined.
   */
  function RejectMessage(requestId: Value, error: Option<Value>): (m: Message)
    ensures Serialize(m) == Obj(Property("e", error) + map["i" := requestId, "a" := Arr([Null])])
  {
    var m := Message(Some(requestId), None, None, None, error);
    ReplyFrame(m, "e", error);
    m
  }

  /**
   * A reply carries only the request id and the data or the error: the peer
   * decodes it with a `null` event name and no arguments, so besides settling
   * the request it is dispatched to the handlers of the empty name.
   */
  lemma RepliesDecode(requestId: Value, data: Option<Value>, error: Option<Value>)
    ensures Deserialize(Some(Serialize(ResolveMessage(requestId, data))))
         == Success(Message(Some(requestId), Some(Null), Some([]), data, None))
    ensures Deserialize(Some(Serialize(RejectMessage(requestId, error))))
         == Success(Message(Some(requestId), Some(Null), Some([]), None, error))
    ensures DispatchName(Normalized(ResolveMessage(requestId, data))) == Some("")
    ensures DispatchName(Normalized(RejectMessage(requestId, error))) == Some("")
  {
    RoundTrip(ResolveMessage(requestId, data));
    RoundTrip(RejectMessage(requestId, error));
  }
}
