/**
 * `WebSocketChannel`: a namespace over a wrapper. A channel's path is the
 * non-empty names of its ancestors and itself joined by `/`; every event name
 * it emits, requests or listens to is prefixed with that path.
 */
module ChannelTree {
  import opened Wrappers
  import opened EventRegistry
  import opened MessageCodec
  import opened SocketWrapper

  /** `parts.filter(Boolean)` on strings: the empty ones are dropped. */
  function NonEmpty(parts: seq<string>): (kept: seq<string>)
    ensures |kept| <= |parts|
    ensures forall i :: 0 <= i < |kept| ==> kept[i] != ""
  {
    if parts == [] then []
    else (if parts[0] != "" then [parts[0]] else []) + NonEmpty(parts[1..])
  }

  /** `parts.join(sep)`: empty for no parts, otherwise starting with the first part. */
  function JoinWith(parts: seq<string>, sep: string): (r: string)
    ensures parts == [] ==> r == ""
    ensures parts != [] ==> |parts[0]| <= |r| && r[..|parts[0]|] == parts[0]
  {
    if parts == [] then ""
    else if |parts| == 1 then parts[0]
    else parts[0] + sep + JoinWith(parts[1..], sep)
  }

  /** `[a, b].filter(Boolean).join('/')`: `a/b`, or whichever is non-empty, or the empty string. */
  function Join(a: string, b: string): (r: string)
    ensures r == if a == "" then b else if b == "" then a else a + "/" + b
  {
    JoinCases(a, b);
    JoinWith(NonEmpty([a, b]), "/")
  }

  /** Filtering and joining two parts, case by case. */
  lemma JoinCases(a: string, b: string)
    ensures JoinWith(NonEmpty([a, b]), "/") == if a == "" then b else if b == "" then a else a + "/" + b
  {
    assert [a, b][1..] == [b] && [b][1..] == [];
    var tail := if b != "" then [b] else [];
    assert NonEmpty([b]) == tail;
    var kept := NonEmpty([a, b]);
    if a != "" {
      assert kept == [a] + tail;
      if b != "" {
        assert kept == [a, b] && kept[1..] == [b];
        assert JoinWith(kept, "/") == a + "/" + JoinWith([b], "/");
      }
    } else {
      assert kept == tail;
    }
  }

  /** An empty part changes nothing. */
  lemma JoinEmpty(a: string)
    ensures Join(a, "") == a && Join("", a) == a
  {
  }

  /** Joining is associative, so nesting channels is the same as writing the longer name. */
  lemma JoinAssociative(a: string, b: string, c: string)
    ensures Join(Join(a, b), c) == Join(a, Join(b, c))
  {
    if a != "" && b != "" && c != "" {
      assert (a + "/" + b) + "/" + c == a + "/" + (b + "/" + c);
    }
  }

  /** Filtering distributes over appending one part. */
  lemma {:induction false} NonEmptySnoc(parts: seq<string>, last: string)
    ensures NonEmpty(parts + [last]) == NonEmpty(parts) + (if last != "" then [last] else [])
  {
    if parts == [] {
      assert [] + [last] == [last];
    } else {
      assert (parts + [last])[1..] == parts[1..] + [last];
      NonEmptySnoc(parts[1..], last);
    }
  }

  /** Joining with one more part appends the separator and the part. */
  lemma {:induction false} JoinWithSnoc(parts: seq<string>, last: string, sep: string)
    ensures JoinWith(parts + [last], sep) == if parts == [] then last else JoinWith(parts, sep) + sep + last
  {
    if parts != [] {
      assert (parts + [last])[1..] == parts[1..] + [last];
      JoinWithSnoc(parts[1..], last, sep);
    }
  }

  /** Extending a list of names by one is `Join` with that name. */
  lemma JoinNamesSnoc(names: seq<string>, last: string)
    ensures JoinWith(NonEmpty(names + [last]), "/") == Join(JoinWith(NonEmpty(names), "/"), last)
  {
    var init := NonEmpty(names);
    NonEmptySnoc(names, last);
    if last != "" {
      JoinWithSnoc(init, last, "/");
    } else {
      assert init + [] == init;
    }
    if init != [] {
      assert JoinWith(init, "/") != "" by {
        JoinNonEmptyParts(init);
      }
    }
  }

  /** Joining non-empty parts, at least one of them, gives a non-empty string. */
  lemma {:induction false} JoinNonEmptyParts(parts: seq<string>)
    requires parts != [] && forall i :: 0 <= i < |parts| ==> parts[i] != ""
    ensures JoinWith(parts, "/") != ""
  {
    if |parts| > 1 {
      assert |JoinWith(parts, "/")| >= |parts[0]|;
    }
  }

  class WebSocketChannel {
    const wrapper: WebSocketWrapper
    const name: Option<string>
    const parent: WebSocketChannel?
    /** Distance from the root of the channel tree. */
    ghost const depth: nat
    /** The channels `of` has created below this one, by name. */
    var children: map<string, WebSocketChannel>

    /** The chain of parents is finite. */
    ghost predicate Linked()
      decreases depth
    {
      parent != null ==> parent.depth < depth && parent.Linked()
    }

    /** Every cached child hangs below this channel, on the same wrapper, under its own name. */
    ghost predicate Valid()
      reads this
    {
      Linked() &&
      forall k :: k in children ==>
        children[k].parent == this && children[k].name == Some(k) &&
        children[k].wrapper == wrapper && children[k].depth == depth + 1
    }

    /** `new WebSocketChannel(wrapper, name?, parent?)` */
    constructor (wrapper: WebSocketWrapper, name: Option<string>, parent: WebSocketChannel?)
      requires parent != null ==> parent.Linked()
      ensures Valid() && children == map[]
      ensures depth == if parent == null then 0 else parent.depth + 1
      ensures this.wrapper == wrapper && this.name == name && this.parent == parent
    {
      this.wrapper := wrapper;
      this.name := name;
      this.parent := parent;
      depth := if parent == null then 0 else parent.depth + 1;
      children := map[];
    }

    /** The names from the root down to this channel; an absent name reads as empty. */
    ghost function Names(): seq<string>
      requires Linked()
      decreases depth
    {
      (if parent == null then [] else parent.Names()) + [name.GetOr("")]
    }

    /**
     * The `path` getter: the parent's path and this channel's name, joined.
     * A root's path is its name.
     */
    function Path(): (path: string)
      requires Linked()
      ensures parent == null ==> path == name.GetOr("")
      decreases depth
    {
      Join(if parent == null then "" else parent.Path(), name.GetOr(""))
    }

    /** `joinPath(eventName)`: the event name as the wrapper sees it, under the channel's path. */
    function JoinPath(eventName: EventName): (r: string)
      requires Linked()
      ensures Path() == "" ==> r == eventName
      ensures eventName == "" ==> r == Path()
      ensures Path() != "" && eventName != "" ==> r == Path() + "/" + eventName
    {
      Join(Path(), eventName)
    }

    /** A non-empty name always ends the path. */
    lemma PathEndsWithName()
      requires Linked() && name.GetOr("") != ""
      ensures |name.value| <= |Path()| && Path()[|Path()| - |name.value|..] == name.value
    {
    }

    /** A child's path starts with its parent's path. */
    lemma PathExtendsParent()
      requires Linked() && parent != null
      ensures |parent.Path()| <= |Path()| && Path()[..|parent.Path()|] == parent.Path()
    {
    }

    /** A channel's path is the non-empty names from the root down to it, joined by `/`. */
    lemma {:induction false} PathIsJoinedNames()
      requires Linked()
      ensures Path() == JoinWith(NonEmpty(Names()), "/")
      decreases depth
    {
      if parent == null {
        JoinNamesSnoc([], name.GetOr(""));
        assert [] + [name.GetOr("")] == [name.GetOr("")];
      } else {
        parent.PathIsJoinedNames();
        JoinNamesSnoc(parent.Names(), name.GetOr(""));
      }
    }

    /**
     * Addressing an event through a child is the same as addressing the
     * joined name through the parent: `of(n).on(e)` listens to `on(n/e)`.
     */
    lemma ChildJoinPath(child: WebSocketChannel, eventName: EventName)
      requires Linked() && child.parent == this && child.name.Some? && child.Linked()
      ensures child.JoinPath(eventName) == JoinPath(Join(child.name.value, eventName))
    {
      JoinAssociative(Path(), child.name.value, eventName);
    }

    /** A root channel without a name has the empty path and leaves event names as they are. */
    lemma RootPaths()
      requires parent == null && name.None?
      ensures Path() == ""
      ensures forall eventName :: JoinPath(eventName) == eventName
    {
      JoinEmpty("");
      forall eventName ensures JoinPath(eventName) == eventName {
        JoinEmpty(eventName);
      }
    }

    /** A child named `''` shares its parent's path. */
    lemma EmptyChildName(child: WebSocketChannel)
      requires Linked() && child.parent == this && child.name == Some("") && child.Linked()
      ensures child.Path() == Path()
    {
      JoinEmpty(Path());
    }

    /** `emit(eventName, ...args)` sends the event under `joinPath(eventName)`. */
    method Emit(eventName: EventName, args: seq<Value>)
      requires Linked()
      modifies wrapper`queue, wrapper.socket`sent
      ensures wrapper.Delivered(Serialize(EventMessage(JoinPath(eventName), args)))
    {
      wrapper.SendEvent(JoinPath(eventName), args);
    }

    /** `request(eventName, ...args)` sends a request under `joinPath(eventName)`. */
    method Request(eventName: EventName, args: seq<Value>, requestId: string) returns (request: string)
      requires Linked() && wrapper.Valid() && requestId !in wrapper.handles
      modifies wrapper`queue, wrapper`pending, wrapper`handles, wrapper.socket`sent
      ensures wrapper.Valid()
      ensures request == requestId && wrapper.handles == old(wrapper.handles)[requestId := Waiting]
      ensures wrapper.pending == old(wrapper.pending)[requestId := PendingRequest(wrapper.requestTimeout > 0)]
      ensures wrapper.Delivered(Serialize(RequestMessage(requestId, JoinPath(eventName), args)))
    {
      request := wrapper.SendRequest(JoinPath(eventName), args, requestId);
    }

    /** `on(eventName, handler)` listens under `joinPath(eventName)`. */
    method On(eventName: EventName, handler: HandlerId) returns (off: Subscription<Fn>)
      requires Linked() && wrapper.Valid()
      modifies wrapper`built, wrapper.emitter
      ensures wrapper.Valid() && wrapper.built == old(wrapper.built) + 1
      ensures wrapper.emitter.handlers == Registered(old(wrapper.emitter.handlers), JoinPath(eventName),
        Replying(old(wrapper.built), handler), Direct(Replying(old(wrapper.built), handler)))
      ensures off == Subscription(JoinPath(eventName), Replying(old(wrapper.built), handler))
    {
      off := wrapper.On(JoinPath(eventName), handler);
    }

    /** `off(eventName, handler)` delegates under `joinPath(eventName)`, and so removes nothing. */
    method Off(eventName: EventName, handler: HandlerId) returns (removed: bool)
      requires Linked() && wrapper.Valid()
      modifies wrapper.emitter
      ensures wrapper.Valid()
      ensures !removed && wrapper.emitter.handlers == old(wrapper.emitter.handlers)
    {
      removed := wrapper.Off(JoinPath(eventName), handler);
    }

    /**
     * `of(name)`: the child channel called `name`, created on first use and
     * the same object on every later call. Its path is `joinPath(name)`.
     */
    method Of(name: string) returns (channel: WebSocketChannel)
      requires Valid()
      modifies this`children
      ensures Valid()
      ensures name in old(children) ==> channel == old(children)[name] && children == old(children)
      ensures name !in old(children) ==> fresh(channel) && channel.children == map[] && children == old(children)[name := channel]
      ensures name !in old(children) ==> channel.Valid()
      ensures channel.parent == this && channel.name == Some(name) && channel.wrapper == wrapper
      ensures channel.Linked() && channel.Path() == JoinPath(name)
    {
      if name in children {
        channel := children[name];
      } else {
        channel := new WebSocketChannel(wrapper, Some(name), this);
        children := children[name := channel];
      }
    }
  }

  /** The joins behind `NestedEventName`. */
  lemma NestedJoins()
    ensures Join("", "a") == "a" && Join("a", "b") == "a/b" && Join("a/b", "ping") == "a/b/ping"
  {
    assert "a" + "/" + "b" == "a/b";
    assert "a/b" + "/" + "ping" == "a/b/ping";
  }

  /**
   * Below a root channel, the child `a` has path `a`, its child `b` has path
   * `a/b`, and `b` sends the event `ping` as `a/b/ping`.
   */
  method NestedEventName(wrapper: WebSocketWrapper) returns (aPath: string, bPath: string, eventName: string)
    ensures aPath == "a" && bPath == "a/b" && eventName == "a/b/ping"
  {
    NestedJoins();
    var root := new WebSocketChannel(wrapper, None, null);
    var a := root.Of("a");
    var b := a.Of("b");
    aPath, bPath, eventName := a.Path(), b.Path(), b.JoinPath("ping");
  }
}
