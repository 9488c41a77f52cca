/**
 * The event registry (`EventEmitter`): a map from event name to an
 * insertion-ordered map `handler -> wrapped handler`. Handlers are opaque
 * identities of type `H`; what a registration calls is recorded as a `Callee`.
 */
module EventRegistry {
  import opened Wrappers
  import opened OrderedMap

  type EventName = string

  /**
   * The wrapped handler stored for a registration. `on` stores the function it
   * is given (`Direct`); `once` stores a closure that first unsubscribes its own
   * registration and then calls `fn` (`SelfRemoving`).
   */
  datatype Callee<H> = Direct(fn: H) | SelfRemoving(fn: H)

  /** The registrations of one event name: handler -> wrapped handler. */
  type Bucket<H> = OMap<H, Callee<H>>

  /** The whole registry: event name -> bucket, in insertion order. */
  type Registry<H> = OMap<EventName, Bucket<H>>

  /** One invocation made by `emit`: the wrapped handler and the arguments it got. */
  datatype Call<H, A> = Call(fn: H, args: A)

  /** The closure returned by `on` and `once`; calling it is `off(name, handler)`. */
  datatype Subscription<H> = Subscription(name: EventName, handler: H)

  ghost predicate WellFormed<H>(t: Registry<H>) {
    Unique(t) && forall i :: 0 <= i < |t| ==> Unique(t[i].value)
  }

  /** The registrations under `name`; none when the name has no entry. */
  function BucketOf<H(==)>(t: Registry<H>, name: EventName): Bucket<H> {
    Get(t, name).GetOr([])
  }

  /** The wrapped handler stored for the pair `(name, h)`, if any. */
  function Lookup<H(==)>(t: Registry<H>, name: EventName, h: H): Option<Callee<H>> {
    Get(BucketOf(t, name), h)
  }

  /** The registry after `on(name, h, c)`. */
  function Registered<H(==)>(t: Registry<H>, name: EventName, h: H, c: Callee<H>): (r: Registry<H>)
    ensures |r| == if Has(t, name) then |t| else |t| + 1
  {
    Set(t, name, Set(BucketOf(t, name), h, c))
  }

  /** The registry after `off(name, h)`: the name keeps its (possibly empty) entry. */
  function Unregistered<H(==)>(t: Registry<H>, name: EventName, h: H): (r: Registry<H>)
    ensures |r| == |t|
  {
    if Has(t, name) then Set(t, name, Delete(BucketOf(t, name), h)) else t
  }

  /** The registrations that survive an emission: the `once` ones are dropped. */
  function Lasting<H>(b: Bucket<H>): (r: Bucket<H>)
    ensures |r| <= |b|
    ensures forall j :: 0 <= j < |r| ==> r[j].value.Direct?
  {
    if b == [] then []
    else Lasting(b[..|b| - 1]) + (if b[|b| - 1].value.Direct? then [b[|b| - 1]] else [])
  }

  /** The registry after `emit(name, ...)`. */
  function Dispatched<H(==)>(t: Registry<H>, name: EventName): (r: Registry<H>)
    ensures |r| == |t|
  {
    if Has(t, name) then Set(t, name, Lasting(BucketOf(t, name))) else t
  }

  /** The invocations `emit` makes, in registration order. */
  function Calls<H, A>(b: Bucket<H>, args: A): (r: seq<Call<H, A>>)
    ensures |r| == |b|
  {
    if b == [] then [] else Calls(b[..|b| - 1], args) + [Call(b[|b| - 1].value.fn, args)]
  }

  /** `emit` calls each stored wrapped handler exactly once, in registration order, with the same arguments. */
  lemma {:induction false} CallsInOrder<H, A>(b: Bucket<H>, args: A)
    ensures |Calls(b, args)| == |b|
    ensures forall j :: 0 <= j < |b| ==> Calls(b, args)[j] == Call(b[j].value.fn, args)
  {
    if b != [] {
      CallsInOrder(b[..|b| - 1], args);
    }
  }

  /** The `eventNames` getter on a registry: the names whose bucket is non-empty. */
  function ActiveNames<H>(t: Registry<H>): (r: seq<EventName>)
    ensures |r| <= |t|
    ensures forall i :: 0 <= i < |r| ==> Has(t, r[i])
  {
    if t == [] then []
    else (if t[0].value != [] then [t[0].key] else []) + ActiveNames(t[1..])
  }

  /** A well-formed registry has a well-formed bucket under each name. */
  lemma BucketUnique<H>(t: Registry<H>, name: EventName)
    requires WellFormed(t)
    ensures Unique(BucketOf(t, name))
  {
  }

  /** Replacing one bucket by a well-formed one keeps the registry well-formed. */
  lemma SetBucketWellFormed<H>(t: Registry<H>, name: EventName, b: Bucket<H>)
    requires WellFormed(t) && Unique(b)
    ensures WellFormed(Set(t, name, b))
  {
    SetKeepsUnique(t, name, b);
    var r := Set(t, name, b);
    if Has(t, name) {
      var idx := IndexOf(t, name);
      assert |r| == |t| by { assert |Keys(r)| == |Keys(t)|; }
      forall i | 0 <= i < |r| ensures Unique(r[i].value) {
        if i != idx {
          assert r[i] == t[i];
        }
      }
    } else {
      forall i | 0 <= i < |r| ensures Unique(r[i].value) {
        if i < |t| {
          assert r[i] == t[i];
        }
      }
    }
  }

  /**
   * `on(name, h, c)` stores `c` for exactly the pair `(name, h)`; every other
   * pair reads as before.
   */
  lemma LookupAfterRegistered<H>(t: Registry<H>, name: EventName, h: H, c: Callee<H>, n: EventName, g: H)
    ensures Lookup(Registered(t, name, h, c), n, g) == if n == name && g == h then Some(c) else Lookup(t, n, g)
  {
    GetAfterSet(t, name, Set(BucketOf(t, name), h, c), n);
    if n == name {
      GetAfterSet(BucketOf(t, name), h, c, g);
    }
  }

  /**
   * `on` never duplicates a handler: an already registered handler keeps its
   * place in the order, a new one goes last; a new name goes last among the names.
   */
  lemma RegisteredOrder<H>(t: Registry<H>, name: EventName, h: H, c: Callee<H>)
    ensures Keys(BucketOf(Registered(t, name, h, c), name))
         == if Has(BucketOf(t, name), h) then Keys(BucketOf(t, name)) else Keys(BucketOf(t, name)) + [h]
    ensures Keys(Registered(t, name, h, c)) == if Has(t, name) then Keys(t) else Keys(t) + [name]
  {
    GetAfterSet(t, name, Set(BucketOf(t, name), h, c), name);
  }

  /** `off(name, h)` removes exactly the pair `(name, h)` and keeps every name in place. */
  lemma LookupAfterUnregistered<H>(t: Registry<H>, name: EventName, h: H, n: EventName, g: H)
    ensures Lookup(Unregistered(t, name, h), n, g) == if n == name && g == h then None else Lookup(t, n, g)
    ensures Keys(Unregistered(t, name, h)) == Keys(t)
  {
    if Has(t, name) {
      GetAfterSet(t, name, Delete(BucketOf(t, name), h), n);
      if n == name {
        GetAfterDelete(BucketOf(t, name), h, g);
      }
    }
  }

  /** `off(name)` removes every registration of `name` and no other. */
  lemma LookupAfterNameRemoved<H>(t: Registry<H>, name: EventName, n: EventName, g: H)
    ensures Lookup(Delete(t, name), n, g) == if n == name then None else Lookup(t, n, g)
  {
    GetAfterDelete(t, name, n);
  }

  /** Every surviving registration is a registration of the bucket. */
  lemma {:induction false} LastingFromBucket<H>(b: Bucket<H>, j: nat)
    requires j < |Lasting(b)|
    ensures exists q :: 0 <= q < |b| && b[q] == Lasting(b)[j]
  {
    var p, e := b[..|b| - 1], b[|b| - 1];
    if j < |Lasting(p)| {
      LastingFromBucket(p, j);
      var q :| 0 <= q < |p| && p[q] == Lasting(p)[j];
      assert b[q] == p[q];
    } else {
      assert Lasting(b)[j] == b[|b| - 1];
    }
  }

  /** The surviving registrations of a well-formed bucket still have unique keys. */
  lemma {:induction false} LastingUnique<H>(b: Bucket<H>)
    requires Unique(b)
    ensures Unique(Lasting(b))
  {
    if b != [] {
      var p, e := b[..|b| - 1], b[|b| - 1];
      UniqueFront(b);
      LastingUnique(p);
      var lp := Lasting(p);
      forall j | 0 <= j < |lp| ensures lp[j].key != e.key {
        LastingFromBucket(p, j);
        var q :| 0 <= q < |p| && p[q] == lp[j];
        assert Keys(p)[q] == p[q].key;
      }
    }
  }

  /**
   * After an emission the `once` registrations read as absent and every other
   * registration reads as before.
   */
  lemma {:induction false} GetLasting<H>(b: Bucket<H>, g: H)
    requires Unique(b)
    ensures Get(Lasting(b), g) == if Get(b, g).Some? && Get(b, g).value.SelfRemoving? then None else Get(b, g)
  {
    if b != [] {
      var p, e := b[..|b| - 1], b[|b| - 1];
      assert b == p + [e];
      UniqueFront(b);
      GetLasting(p, g);
      GetAppend(p, e, g);
      var lp := Lasting(p);
      assert Has(lp, g) <==> Get(lp, g).Some?;
      if Has(p, g) {
        assert e.key != g;
      }
      if e.value.Direct? {
        assert Lasting(b) == lp + [e];
        GetAppend(lp, e, g);
      } else {
        assert Lasting(b) == lp;
      }
    }
  }

  /**
   * `emit(name, ...)` unsubscribes exactly the `once` registrations of `name`;
   * everything else reads as before and no name moves.
   */
  lemma LookupAfterDispatched<H>(t: Registry<H>, name: EventName, n: EventName, g: H)
    requires WellFormed(t)
    ensures Lookup(Dispatched(t, name), n, g)
         == if n == name && Lookup(t, n, g).Some? && Lookup(t, n, g).value.SelfRemoving? then None else Lookup(t, n, g)
    ensures Keys(Dispatched(t, name)) == Keys(t)
  {
    if Has(t, name) {
      GetAfterSet(t, name, Lasting(BucketOf(t, name)), n);
      if n == name {
        BucketUnique(t, name);
        GetLasting(BucketOf(t, name), g);
      }
    }
  }

  /** A `once` registration fires at most once: a second emission drops nothing more. */
  lemma {:induction false} LastingIdempotent<H>(b: Bucket<H>)
    ensures Lasting(Lasting(b)) == Lasting(b)
  {
    if b != [] {
      var p, e := b[..|b| - 1], b[|b| - 1];
      LastingIdempotent(p);
      if e.value.Direct? {
        var lb := Lasting(p) + [e];
        assert Lasting(b) == lb;
        assert lb[..|lb| - 1] == Lasting(p);
        assert Lasting(lb) == Lasting(Lasting(p)) + [e];
      } else {
        assert Lasting(b) == Lasting(p);
      }
    }
  }

  /** A second `emit` of the same name leaves the registry as the first one did. */
  lemma DispatchedIdempotent<H>(t: Registry<H>, name: EventName)
    ensures Dispatched(Dispatched(t, name), name) == Dispatched(t, name)
  {
    if Has(t, name) {
      var b := BucketOf(t, name);
      GetAfterSet(t, name, Lasting(b), name);
      LastingIdempotent(b);
      SetTwice(t, name, Lasting(b), Lasting(b));
    }
  }

  /** Emission keeps the registry well-formed. */
  lemma DispatchedWellFormed<H>(t: Registry<H>, name: EventName)
    requires WellFormed(t)
    ensures WellFormed(Dispatched(t, name))
  {
    if Has(t, name) {
      BucketUnique(t, name);
      LastingUnique(BucketOf(t, name));
      SetBucketWellFormed(t, name, Lasting(BucketOf(t, name)));
    }
  }

  /** The `eventNames` getter lists exactly the names with at least one registration. */
  lemma {:induction false} ActiveNamesMembers<H>(t: Registry<H>)
    requires Unique(t)
    ensures forall n :: n in ActiveNames(t) <==> BucketOf(t, n) != []
  {
    if t != [] {
      UniqueRest(t);
      ActiveNamesMembers(t[1..]);
      forall n | n != t[0].key ensures BucketOf(t, n) == BucketOf(t[1..], n) {
      }
    }
  }

  /** The `eventNames` getter lists names in the order they were first added, each once. */
  lemma {:induction false} ActiveNamesOrdered<H>(t: Registry<H>)
    requires Unique(t)
    ensures forall a, b :: 0 <= a < b < |ActiveNames(t)| ==> IndexOf(t, ActiveNames(t)[a]) < IndexOf(t, ActiveNames(t)[b])
  {
    if t != [] {
      var rest := t[1..];
      UniqueRest(t);
      ActiveNamesOrdered(rest);
      var A, R := ActiveNames(t), ActiveNames(rest);
      forall a, b | 0 <= a < b < |A| ensures IndexOf(t, A[a]) < IndexOf(t, A[b]) {
        if t[0].value == [] {
          assert A[a] == R[a] && A[b] == R[b];
          IndexAfterFront(t, R[a]);
          IndexAfterFront(t, R[b]);
        } else {
          assert A == [t[0].key] + R;
          assert A[b] == R[b - 1];
          IndexAfterFront(t, R[b - 1]);
          if a > 0 {
            assert A[a] == R[a - 1];
            IndexAfterFront(t, R[a - 1]);
          }
        }
      }
    }
  }

  /** The survivors before position `i` do not hold the handler at `i`. */
  lemma LastingBeforeAbsent<H>(b: Bucket<H>, i: nat)
    requires Unique(b) && i < |b|
    ensures forall j :: 0 <= j < |Lasting(b[..i])| ==> Lasting(b[..i])[j].key != b[i].key
  {
    var lp := Lasting(b[..i]);
    forall j | 0 <= j < |lp| ensures lp[j].key != b[i].key {
      LastingFromBucket(b[..i], j);
      var q :| 0 <= q < i && b[..i][q] == lp[j];
      assert b[q].key != b[i].key;
    }
  }

  /**
   * One step of an emission over the snapshot `b`, past a lasting entry: the
   * live bucket is the survivors of `b[..i + 1]` followed by the entries not
   * yet visited.
   */
  lemma EmitStepLasting<H>(b: Bucket<H>, i: nat)
    requires i < |b| && b[i].value.Direct?
    ensures Lasting(b[..i + 1]) + b[i + 1..] == Lasting(b[..i]) + b[i..]
  {
    assert b[..i + 1][..i] == b[..i];
    assert Lasting(b[..i + 1]) == Lasting(b[..i]) + [b[i]];
    assert b[i..] == [b[i]] + b[i + 1..];
  }

  /**
   * One step of an emission over the snapshot `b`, past a `once` entry: once
   * it has unsubscribed itself, the live bucket is the survivors of
   * `b[..i + 1]` followed by the entries not yet visited.
   */
  lemma EmitStepOnce<H>(b: Bucket<H>, i: nat)
    requires Unique(b) && i < |b| && b[i].value.SelfRemoving?
    ensures Delete(Lasting(b[..i]) + b[i..], b[i].key) == Lasting(b[..i + 1]) + b[i + 1..]
  {
    assert b[..i + 1][..i] == b[..i];
    var lp, k, rest := Lasting(b[..i]), b[i].key, b[i + 1..];
    LastingBeforeAbsent(b, i);
    AbsentKey(lp, k);
    DeleteAppend(lp, b[i..], k);
    assert !Has(rest, k) by {
      forall j | 0 <= j < |rest| ensures rest[j].key != k { assert rest[j] == b[i + 1 + j]; }
      AbsentKey(rest, k);
    }
    assert b[i..] == [b[i]] + rest;
    assert Delete(b[i..], k) == rest;
    assert Lasting(b[..i + 1]) == lp;
  }

  /** `off(name)` keeps the registry well-formed. */
  lemma DeleteNameWellFormed<H>(t: Registry<H>, name: EventName)
    requires WellFormed(t)
    ensures WellFormed(Delete(t, name))
  {
    DeleteKeepsUnique(t, name);
    if Has(t, name) {
      DeleteCutsEntry(t, name);
      var i, r := IndexOf(t, name), Delete(t, name);
      forall j | 0 <= j < |r| ensures Unique(r[j].value) {
        if j < i { assert r[j] == t[j]; } else { assert r[j] == t[j + 1]; }
      }
    }
  }

  /** One step of an emission, on the whole registry. */
  lemma EmitStepRegistry<H>(t: Registry<H>, name: EventName, b: Bucket<H>, i: nat)
    requires Unique(b) && i < |b|
    ensures var live := Set(t, name, Lasting(b[..i]) + b[i..]);
      (if b[i].value.SelfRemoving? then Unregistered(live, name, b[i].key) else live)
      == Set(t, name, Lasting(b[..i + 1]) + b[i + 1..])
  {
    var before, after := Lasting(b[..i]) + b[i..], Lasting(b[..i + 1]) + b[i + 1..];
    if b[i].value.Direct? {
      EmitStepLasting(b, i);
    } else {
      EmitStepOnce(b, i);
      GetAfterSet(t, name, before, name);
      SetTwice(t, name, before, after);
    }
  }

  /** Before an emission visits anything, the live bucket is the whole snapshot. */
  lemma EmitStart<H>(t: Registry<H>, name: EventName, b: Bucket<H>)
    requires Get(t, name) == Some(b)
    ensures t == Set(t, name, Lasting(b[..0]) + b[0..])
  {
    assert Lasting(b[..0]) + b[0..] == b;
    SetSameValue(t, name, b);
  }

  /** One more visited entry adds its call. */
  lemma CallsStep<H, A>(b: Bucket<H>, args: A, i: nat)
    requires i < |b|
    ensures Calls(b[..i + 1], args) == Calls(b[..i], args) + [Call(b[i].value.fn, args)]
  {
    assert b[..i + 1][..i] == b[..i];
  }

  /** When an emission has visited every entry, the registry is `Dispatched` and the calls are `Calls`. */
  lemma EmitEnd<H, A>(t: Registry<H>, name: EventName, b: Bucket<H>, args: A)
    requires Get(t, name) == Some(b)
    ensures Set(t, name, Lasting(b[..|b|]) + b[|b|..]) == Dispatched(t, name)
    ensures Calls(b[..|b|], args) == Calls(BucketOf(t, name), args)
  {
    assert b[..|b|] == b && b[|b|..] == [];
    assert Lasting(b[..|b|]) + b[|b|..] == Lasting(b);
  }

  /** `off(name, h)` of a pair that is not registered changes nothing. */
  lemma UnregisteredAbsent<H>(t: Registry<H>, name: EventName, h: H)
    requires Lookup(t, name, h).None?
    ensures Unregistered(t, name, h) == t
  {
    if Has(t, name) {
      SetSameValue(t, name, BucketOf(t, name));
    }
  }

  /** `emit(name, args)` calls every wrapped handler registered under `name`. */
  lemma EmitReaches<H, A>(t: Registry<H>, name: EventName, h: H, args: A)
    requires Lookup(t, name, h).Some?
    ensures Call(Lookup(t, name, h).value.fn, args) in Calls(BucketOf(t, name), args)
  {
    var b := BucketOf(t, name);
    CallsInOrder(b, args);
    assert Calls(b, args)[IndexOf(b, h)] == Call(Lookup(t, name, h).value.fn, args);
  }

  /** With no `once` registration in a bucket, an emission drops nothing. */
  lemma {:induction false} LastingAllDirect<H>(b: Bucket<H>)
    requires forall j :: 0 <= j < |b| ==> b[j].value.Direct?
    ensures Lasting(b) == b
  {
    if b != [] {
      LastingAllDirect(b[..|b| - 1]);
      assert b[..|b| - 1] + [b[|b| - 1]] == b;
    }
  }

  class EventEmitter<H(==)> {
    var handlers: Registry<H>

    ghost predicate Valid()
      reads this
    {
      WellFormed(handlers)
    }

    constructor ()
      ensures Valid() && handlers == []
    {
      handlers := [];
    }

    /** The `eventNames` getter: the names with at least one registration, in the order they were first added. */
    function EventNames(): (names: seq<EventName>)
      requires Valid()
      reads this
      ensures forall n :: n in names <==> BucketOf(handlers, n) != []
      ensures forall a, b :: 0 <= a < b < |names| ==> IndexOf(handlers, names[a]) < IndexOf(handlers, names[b])
    {
      ActiveNamesMembers(handlers);
      ActiveNamesOrdered(handlers);
      ActiveNames(handlers)
    }

    /** `emit(name, ...args)`: calls each wrapped handler of `name` in registration order. */
    method Emit<A>(name: EventName, args: A) returns (calls: seq<Call<H, A>>)
      requires Valid()
      modifies this
      ensures Valid()
      ensures calls == Calls(BucketOf(old(handlers), name), args)
      ensures handlers == Dispatched(old(handlers), name)
    {
      calls := [];
      var found := Get(handlers, name);
      if found.None? {
        return;
      }
      var b := found.value;
      BucketUnique(handlers, name);
      EmitStart(handlers, name, b);
      var i := 0;
      while i < |b|
        invariant 0 <= i <= |b|
        invariant Valid()
        invariant calls == Calls(b[..i], args)
        invariant handlers == Set(old(handlers), name, Lasting(b[..i]) + b[i..])
      {
        CallsStep(b, args, i);
        EmitStepRegistry(old(handlers), name, b, i);
        var call := Invoke(name, b[i], args);
        calls := calls + [call];
        i := i + 1;
      }
      EmitEnd(old(handlers), name, b, args);
    }

    /**
     * Calling one stored wrapped handler with `args`. The closure built by `once`
     * first unsubscribes its own registration, then calls the wrapped function.
     */
    method Invoke<A>(name: EventName, entry: Entry<H, Callee<H>>, args: A) returns (call: Call<H, A>)
      requires Valid()
      modifies this
      ensures Valid()
      ensures call == Call(entry.value.fn, args)
      ensures handlers == if entry.value.SelfRemoving? then Unregistered(old(handlers), name, entry.key) else old(handlers)
    {
      if entry.value.SelfRemoving? {
        var _ := Off(Some(name), Some(entry.key));
      }
      call := Call(entry.value.fn, args);
    }

    /**
     * `off(name?, handler?)`: with no name, clears everything and returns true;
     * with a name only, removes that name's entry and returns whether it
     * existed; with both, removes that one registration and returns whether it
     * existed.
     */
    method Off(name: Option<EventName>, handler: Option<H>) returns (removed: bool)
      requires Valid()
      modifies this
      ensures Valid()
      ensures name.None? ==> removed && handlers == []
      ensures name.Some? && handler.None? ==>
        removed == Has(old(handlers), name.value) && handlers == Delete(old(handlers), name.value)
      ensures name.Some? && handler.Some? ==>
        removed == Lookup(old(handlers), name.value, handler.value).Some? &&
        handlers == Unregistered(old(handlers), name.value, handler.value)
    {
      if name.None? {
        handlers := [];
        return true;
      }
      if handler.None? {
        removed := Has(handlers, name.value);
        DeleteNameWellFormed(handlers, name.value);
        handlers := Delete(handlers, name.value);
        return;
      }
      var bucket := Get(handlers, name.value);
      if bucket.None? {
        return false;
      }
      removed := Has(bucket.value, handler.value);
      BucketUnique(handlers, name.value);
      DeleteKeepsUnique(bucket.value, handler.value);
      SetBucketWellFormed(handlers, name.value, Delete(bucket.value, handler.value));
      handlers := Set(handlers, name.value, Delete(bucket.value, handler.value));
    }

    /**
     * `on(name, handler, wrappedHandler)`: stores the pair, replacing the wrapped
     * handler of an already registered `handler` in place; returns the closure
     * that unsubscribes it.
     */
    method On(name: EventName, handler: H, wrapped: Callee<H>) returns (off: Subscription<H>)
      requires Valid()
      modifies this
      ensures Valid()
      ensures handlers == Registered(old(handlers), name, handler, wrapped)
      ensures off == Subscription(name, handler)
    {
      var bucket := Get(handlers, name);
      if bucket.Some? {
        BucketUnique(handlers, name);
        SetKeepsUnique(bucket.value, handler, wrapped);
        SetBucketWellFormed(handlers, name, Set(bucket.value, handler, wrapped));
        handlers := Set(handlers, name, Set(bucket.value, handler, wrapped));
      } else {
        SetBucketWellFormed(handlers, name, [Entry(handler, wrapped)]);
        handlers := Set(handlers, name, [Entry(handler, wrapped)]);
      }
      off := Subscription(name, handler);
    }

    /**
     * `once(name, handler, wrappedHandler)`: as `on`, but what is stored is the
     * closure that unsubscribes `(name, handler)` before it calls `wrapped`.
     */
    method Once(name: EventName, handler: H, wrapped: H) returns (off: Subscription<H>)
      requires Valid()
      modifies this
      ensures Valid()
      ensures handlers == Registered(old(handlers), name, handler, SelfRemoving(wrapped))
      ensures off == Subscription(name, handler)
    {
      off := On(name, handler, SelfRemoving(wrapped));
    }

    /** Calling the closure that `on` or `once` returned: `off(name, handler)`. */
    method Unsubscribe(off: Subscription<H>) returns (removed: bool)
      requires Valid()
      modifies this
      ensures Valid()
      ensures removed == Lookup(old(handlers), off.name, off.handler).Some?
      ensures handlers == Unregistered(old(handlers), off.name, off.handler)
    {
      removed := Off(Some(off.name), Some(off.handler));
    }
  }
}
