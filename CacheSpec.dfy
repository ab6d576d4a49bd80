/**
 * The resource cache as a state machine over values: the state is the
 * key-to-resource map with the `disposed` flag, and each operation yields
 * the new state, the events it caused and its result or exception.
 * `ConcurrentDictionary` calls are taken as atomic and the operations as
 * sequential.
 */
module CacheSpec {
  import opened Resources

  datatype Cache = Cache(resources: map<string, Resource>, disposed: bool)

  /** The state after one operation, what it made happen, and what it returned or threw. */
  datatype Step<+T> = Step(cache: Cache, events: seq<Event>, result: Result<T>)

  /** The empty, live cache a new ResourceManager starts as. */
  function Empty(): (c: Cache)
    ensures c.resources == map[] && !c.disposed
  {
    Cache(map[], false)
  }

  /** `key` holds a value that passes the test `is t`. */
  predicate Hit(c: Cache, key: string, t: TypeName)
  {
    key in c.resources && IsOf(c.resources[key], t)
  }

  /** GetOrCreate<T>(key, factory) with T named `t`. */
  function GetOrCreate(c: Cache, key: string, t: TypeName, factory: Factory): (r: Step<Resource>)
    requires FactoryTyped(factory, t)
    // A disposed cache throws at once: the factory is not invoked and nothing changes.
    ensures c.disposed ==> r == Step(c, [], Err(ObjectDisposed))
    // A hit returns the cached value itself, without invoking the factory.
    ensures !c.disposed && Hit(c, key, t) ==> r == Step(c, [], Ok(c.resources[key]))
    // The factory is invoked exactly when the cache is live and has no value of type t under key, and first.
    ensures Invoked(key) in r.events <==> !c.disposed && !Hit(c, key, t)
    ensures r.events != [] ==> r.events[0] == Invoked(key)
    // It succeeds on a hit, or on a free key whose factory returns a value.
    ensures r.result.Ok? <==> !c.disposed && (Hit(c, key, t) || (key !in c.resources && factory.Returns?))
    // Whatever is returned is what the cache now holds under key, and it has type t.
    ensures r.result.Ok? ==>
      key in r.cache.resources && r.cache.resources[key] == r.result.value && IsOf(r.result.value, t)
    // The failures, each with its cause.
    ensures r.result == Err(FactoryFailed) <==> !c.disposed && !Hit(c, key, t) && factory.Throws?
    ensures r.result == Err(FactoryReturnedNull) <==> !c.disposed && !Hit(c, key, t) && factory.ReturnsNull?
    ensures r.result == Err(AddFailed) <==>
      !c.disposed && key in c.resources && !IsOf(c.resources[key], t) && factory.Returns?
    // Only a free key gains an entry, holding the factory's value; nothing else changes.
    ensures r.cache.disposed == c.disposed
    ensures r.cache.resources ==
      if r.result.Ok? && key !in c.resources then c.resources[key := r.result.value] else c.resources
    ensures r.result.Ok? && key !in c.resources ==>
      factory == Returns(r.result.value) && r.events == [Invoked(key), Added(key, r.result.value)]
    // Nothing is ever released here, not even the value that failed to be added.
    ensures forall e | e in r.events :: !e.Released? && (e.Added? ==> e.key == key)
  {
    if c.disposed then Step(c, [], Err(ObjectDisposed))
    else if Hit(c, key, t) then Step(c, [], Ok(c.resources[key]))
    else match factory
      case Throws => Step(c, [Invoked(key)], Err(FactoryFailed))
      case ReturnsNull => Step(c, [Invoked(key)], Err(FactoryReturnedNull))
      case Returns(created) =>
        if key in c.resources then Step(c, [Invoked(key)], Err(AddFailed))
        else Step(c.(resources := c.resources[key := created]), [Invoked(key), Added(key, created)], Ok(created))
  }

  /** TryGet<T>(key, out resource): `Some` when it returns true, `None` (a null out value) otherwise. */
  function TryGet(c: Cache, key: string, t: TypeName): (r: Option<Resource>)
    ensures r.Some? <==> !c.disposed && key in c.resources && IsOf(c.resources[key], t)
    ensures r.Some? ==> r.value == c.resources[key] && IsOf(r.value, t)
  {
    if c.disposed then None
    else if Hit(c, key, t) then Some(c.resources[key])
    else None
  }

  /** Remove(key): true when an entry was detached; a throwing Dispose of the detached value propagates. */
  function Remove(c: Cache, key: string): (r: Step<bool>)
    // A disposed cache reports false and changes nothing.
    ensures c.disposed ==> r == Step(c, [], Ok(false))
    // On a live cache the key is detached whatever happens next; every other entry stays.
    ensures !c.disposed ==> r.cache == c.(resources := c.resources - {key})
    // A missing key reports false and nothing happens.
    ensures key !in c.resources ==> r == Step(c, [], Ok(false))
    // The detached value is released once if it is disposable, and not at all otherwise.
    ensures r.events == if !c.disposed && key in c.resources && c.resources[key].disposable
      then [Released(key, c.resources[key])] else []
    // It reports true on a detach, unless the release threw.
    ensures r.result == Ok(true) <==> !c.disposed && key in c.resources && !r.result.Err?
    ensures r.result == Err(ReleaseFailed) <==>
      !c.disposed && key in c.resources && c.resources[key].disposable && c.resources[key].releaseThrows
    ensures r.result.Err? ==> r.result.error == ReleaseFailed
  {
    if c.disposed then Step(c, [], Ok(false))
    else if key in c.resources then
      var removed := c.resources[key];
      var c' := c.(resources := c.resources - {key});
      if removed.disposable then
        Step(c', [Released(key, removed)], if removed.releaseThrows then Err(ReleaseFailed) else Ok(true))
      else Step(c', [], Ok(true))
    else Step(c, [], Ok(false))
  }

  /** `order` lists each key of the set exactly once. */
  ghost predicate Enumerates(order: seq<string>, keys: set<string>)
  {
    && (forall i, j | 0 <= i < j < |order| :: order[i] != order[j])
    && (forall k :: k in order <==> k in keys)
  }

  /** The releases the teardown loop performs when it visits `m`'s keys in `order`. */
  function ReleaseEvents(m: map<string, Resource>, order: seq<string>): (r: seq<Event>)
    ensures |r| <= |order|
    ensures forall e | e in r ::
      e.Released? && e.key in order && e.key in m && m[e.key] == e.res && e.res.disposable
    decreases |order|
  {
    if order == [] then []
    else
      var k := order[0];
      (if k in m && m[k].disposable then [Released(k, m[k])] else []) + ReleaseEvents(m, order[1..])
  }

  /**
   * Dispose(), visiting the entries in the enumeration order `order`.
   * Exceptions from the releases are swallowed, so it never throws.
   */
  function Dispose(c: Cache, order: seq<string>): (r: Step<()>)
    ensures r.result == Ok(())
    ensures r.cache.disposed
    // A second call does nothing.
    ensures c.disposed ==> r == Step(c, [], Ok(()))
    // The first call empties the map and only releases entries it held.
    ensures !c.disposed ==> r.cache.resources == map[]
    ensures !c.disposed ==> r.events == ReleaseEvents(c.resources, order)
  {
    if c.disposed then Step(c, [], Ok(()))
    else Step(Cache(map[], true), ReleaseEvents(c.resources, order), Ok(()))
  }

  /** How many times the value `v` currently sits under `k` (0 or 1). */
  function Live(m: map<string, Resource>, k: string, v: Resource): nat
  {
    if k in m && m[k] == v then 1 else 0
  }

  /**
   * Every disposable value added under a key has been released exactly once
   * for each time it left that key, and not while it is still there.
   */
  ghost predicate ReleasedOnce(c: Cache, log: seq<Event>)
  {
    forall k: string, v: Resource | v.disposable ::
      multiset(log)[Added(k, v)] == multiset(log)[Released(k, v)] + Live(c.resources, k, v)
  }

  /** Only disposable values are ever released. */
  ghost predicate OnlyDisposablesReleased(log: seq<Event>)
  {
    forall e | e in log && e.Released? :: e.res.disposable
  }

  /** The invariant of a cache together with the history that produced it. */
  ghost predicate Valid(c: Cache, log: seq<Event>)
  {
    && (c.disposed ==> c.resources == map[])
    && OnlyDisposablesReleased(log)
    && ReleasedOnce(c, log)
  }

  /** The operations of the cache, for reasoning about runs. */
  datatype Op =
    | GetOrCreateOp(key: string, t: TypeName, factory: Factory)
    | TryGetOp(key: string, t: TypeName)
    | RemoveOp(key: string)
    | DisposeOp(order: seq<string>)

  predicate OpTyped(op: Op)
  {
    op.GetOrCreateOp? ==> FactoryTyped(op.factory, op.t)
  }

  /** The state after one operation and the events it caused. */
  function Apply(c: Cache, op: Op): (Cache, seq<Event>)
    requires OpTyped(op)
  {
    match op
    case GetOrCreateOp(key, t, factory) =>
      var s := GetOrCreate(c, key, t, factory); (s.cache, s.events)
    case TryGetOp(_, _) => (c, [])
    case RemoveOp(key) =>
      var s := Remove(c, key); (s.cache, s.events)
    case DisposeOp(order) =>
      var s := Dispose(c, order); (s.cache, s.events)
  }

  /** The state after a sequence of operations and all the events they caused, in order. */
  function Run(c: Cache, ops: seq<Op>): (Cache, seq<Event>)
    requires forall i | 0 <= i < |ops| :: OpTyped(ops[i])
    decreases |ops|
  {
    if ops == [] then (c, [])
    else
      var (c1, e1) := Apply(c, ops[0]);
      var (c2, e2) := Run(c1, ops[1..]);
      (c2, e1 + e2)
  }
}
