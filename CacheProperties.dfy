/**
 * Properties of the resource cache that relate several operations, or an
 * operation and the invariant it keeps.
 */
module CacheProperties {
  import opened Resources
  import opened CacheSpec

  /** A new cache with an empty history satisfies the invariant. */
  lemma EmptyValid()
    ensures Valid(Empty(), [])
  {
  }

  /** GetOrCreate keeps the invariant: it never releases, and what it adds is live afterwards. */
  lemma GetOrCreatePreservesValid(c: Cache, log: seq<Event>, key: string, t: TypeName, factory: Factory)
    requires FactoryTyped(factory, t)
    requires Valid(c, log)
    ensures Valid(GetOrCreate(c, key, t, factory).cache, log + GetOrCreate(c, key, t, factory).events)
  {
    var s := GetOrCreate(c, key, t, factory);
    var log' := log + s.events;
    forall e | e in log' && e.Released? ensures e.res.disposable {
      assert e in log;
    }
    forall k: string, v: Resource | v.disposable
      ensures multiset(log')[Added(k, v)] == multiset(log')[Released(k, v)] + Live(s.cache.resources, k, v)
    {
      assert multiset(log')[Released(k, v)] == multiset(log)[Released(k, v)] by {
        assert Released(k, v) !in s.events;
      }
      if s.result.Ok? && key !in c.resources {
        var created := s.result.value;
        assert s.events == [Invoked(key), Added(key, created)];
        if k == key && v == created {
          assert Live(c.resources, k, v) == 0;
        } else {
          assert Live(s.cache.resources, k, v) == Live(c.resources, k, v);
        }
      } else {
        assert Added(k, v) !in s.events;
      }
    }
  }

  /** Remove keeps the invariant: the detached value is released exactly when it is disposable. */
  lemma RemovePreservesValid(c: Cache, log: seq<Event>, key: string)
    requires Valid(c, log)
    ensures Valid(Remove(c, key).cache, log + Remove(c, key).events)
  {
    var s := Remove(c, key);
    var log' := log + s.events;
    forall k: string, v: Resource | v.disposable
      ensures multiset(log')[Added(k, v)] == multiset(log')[Released(k, v)] + Live(s.cache.resources, k, v)
    {
      assert multiset(log')[Added(k, v)] == multiset(log)[Added(k, v)] by {
        assert Added(k, v) !in s.events;
      }
      if !c.disposed && key in c.resources && k == key && v == c.resources[key] {
        assert s.events == [Released(key, v)];
        assert Live(s.cache.resources, k, v) == 0;
      } else {
        assert Released(k, v) !in s.events;
        assert Live(s.cache.resources, k, v) == Live(c.resources, k, v);
      }
    }
  }

  /**
   * The teardown loop, visiting every key once, releases each disposable
   * entry exactly once and nothing else.
   */
  lemma {:induction false} ReleaseEventsOnce(m: map<string, Resource>, order: seq<string>, k: string, v: Resource)
    requires forall i, j | 0 <= i < j < |order| :: order[i] != order[j]
    ensures multiset(ReleaseEvents(m, order))[Released(k, v)] ==
      if k in order && k in m && m[k] == v && v.disposable then 1 else 0
    decreases |order|
  {
    if order != [] {
      var rest := order[1..];
      var head: seq<Event> := if order[0] in m && m[order[0]].disposable then [Released(order[0], m[order[0]])] else [];
      assert ReleaseEvents(m, order) == head + ReleaseEvents(m, rest);
      assert multiset(ReleaseEvents(m, order)) == multiset(head) + multiset(ReleaseEvents(m, rest));
      DistinctTail(order);
      ReleaseEventsOnce(m, rest, k, v);
      if order[0] != k {
        assert multiset(head)[Released(k, v)] == 0;
        assert k in order <==> k in rest by {
          assert order == [order[0]] + rest;
        }
      }
    }
  }

  /** Dropping the first key of a list of distinct keys leaves distinct keys without it. */
  lemma DistinctTail(order: seq<string>)
    requires order != []
    requires forall i, j | 0 <= i < j < |order| :: order[i] != order[j]
    ensures forall i, j | 0 <= i < j < |order[1..]| :: order[1..][i] != order[1..][j]
    ensures order[0] !in order[1..]
  {
    var rest := order[1..];
    forall i, j | 0 <= i < j < |rest| ensures rest[i] != rest[j] {
      assert rest[i] == order[i + 1] && rest[j] == order[j + 1];
    }
    forall j | 0 <= j < |rest| ensures rest[j] != order[0] {
      assert rest[j] == order[j + 1];
    }
  }

  /** Visiting one more key appends that key's release, if any, to the loop's releases so far. */
  lemma {:induction false} ReleaseEventsAppend(m: map<string, Resource>, order: seq<string>, k: string)
    ensures ReleaseEvents(m, order + [k]) ==
      ReleaseEvents(m, order) + (if k in m && m[k].disposable then [Released(k, m[k])] else [])
    decreases |order|
  {
    if order != [] {
      assert (order + [k])[1..] == order[1..] + [k];
      ReleaseEventsAppend(m, order[1..], k);
    } else {
      assert ReleaseEvents(m, [k]) ==
        (if k in m && m[k].disposable then [Released(k, m[k])] else []) + ReleaseEvents(m, []);
    }
  }

  /** Dispose keeps the invariant: every entry it drops is a disposable one released once, or not disposable. */
  lemma DisposePreservesValid(c: Cache, log: seq<Event>, order: seq<string>)
    requires Valid(c, log)
    requires Enumerates(order, c.resources.Keys)
    ensures Valid(Dispose(c, order).cache, log + Dispose(c, order).events)
  {
    var s := Dispose(c, order);
    var log' := log + s.events;
    forall k: string, v: Resource | v.disposable
      ensures multiset(log')[Added(k, v)] == multiset(log')[Released(k, v)] + Live(s.cache.resources, k, v)
    {
      assert Added(k, v) !in s.events;
      if !c.disposed {
        ReleaseEventsOnce(c.resources, order, k, v);
      }
    }
  }

  /** A second Dispose changes nothing and releases nothing, whatever order it would have used. */
  lemma DisposeIdempotent(c: Cache, first: seq<string>, second: seq<string>)
    ensures Dispose(Dispose(c, first).cache, second) == Step(Dispose(c, first).cache, [], Ok(()))
  {
  }

  /** After Dispose, GetOrCreate always throws without invoking the factory, TryGet finds nothing and Remove reports false. */
  lemma DisposedRejects(c: Cache, order: seq<string>, key: string, t: TypeName, factory: Factory)
    requires FactoryTyped(factory, t)
    ensures var d := Dispose(c, order).cache;
      && GetOrCreate(d, key, t, factory) == Step(d, [], Err(ObjectDisposed))
      && TryGet(d, key, t) == None
      && Remove(d, key) == Step(d, [], Ok(false))
  {
  }

  /** Once disposed, no sequence of operations changes the cache or causes any event. */
  lemma {:induction false} InertOnceDisposed(c: Cache, ops: seq<Op>)
    requires c.disposed
    requires forall i | 0 <= i < |ops| :: OpTyped(ops[i])
    ensures Run(c, ops) == (c, [])
    decreases |ops|
  {
    if ops != [] {
      assert Apply(c, ops[0]) == (c, []);
      InertOnceDisposed(c, ops[1..]);
      var none: seq<Event> := [];
      assert none + none == none;
    }
  }

  /** After a successful GetOrCreate, TryGet with the same type finds the value it returned. */
  lemma CreatedIsVisible(c: Cache, key: string, t: TypeName, factory: Factory)
    requires FactoryTyped(factory, t)
    requires GetOrCreate(c, key, t, factory).result.Ok?
    ensures TryGet(GetOrCreate(c, key, t, factory).cache, key, t) == Some(GetOrCreate(c, key, t, factory).result.value)
  {
  }

  /**
   * A value that TryGet finds is what GetOrCreate returns, for any factory,
   * and the factory is not invoked.
   */
  lemma TryGetAgreesWithGetOrCreate(c: Cache, key: string, t: TypeName, factory: Factory)
    requires FactoryTyped(factory, t)
    requires TryGet(c, key, t).Some?
    ensures GetOrCreate(c, key, t, factory) == Step(c, [], Ok(TryGet(c, key, t).value))
  {
  }

  /**
   * Two GetOrCreate calls for one key and type return the same instance;
   * the second invokes no factory, nor changes anything.
   */
  lemma SecondCallHits(c: Cache, key: string, t: TypeName, f1: Factory, f2: Factory)
    requires FactoryTyped(f1, t) && FactoryTyped(f2, t)
    requires GetOrCreate(c, key, t, f1).result.Ok?
    ensures var s1 := GetOrCreate(c, key, t, f1);
      GetOrCreate(s1.cache, key, t, f2) == Step(s1.cache, [], s1.result)
  {
  }

  /**
   * After Remove, TryGet finds nothing under `key`, even when the release
   * threw, and the next GetOrCreate on a live cache invokes its factory
   * rather than reusing the removed entry.
   */
  lemma RemoveThenMiss(c: Cache, key: string, t: TypeName, factory: Factory)
    requires FactoryTyped(factory, t)
    ensures var r := Remove(c, key).cache;
      && TryGet(r, key, t) == None
      && (!c.disposed ==> GetOrCreate(r, key, t, factory).events != []
                          && GetOrCreate(r, key, t, factory).events[0] == Invoked(key))
      && (!c.disposed && factory.Returns? ==> GetOrCreate(r, key, t, factory).result == Ok(factory.made))
  {
  }

  /**
   * A key holding a value of another type: the factory runs, its value is
   * neither cached nor released, the old entry stays and InvalidOperation is thrown.
   */
  lemma WrongTypeKeepsEntry(c: Cache, key: string, t: TypeName, created: Resource)
    requires FactoryTyped(Returns(created), t)
    requires !c.disposed && key in c.resources && !IsOf(c.resources[key], t)
    ensures GetOrCreate(c, key, t, Returns(created)) == Step(c, [Invoked(key)], Err(AddFailed))
  {
  }

  /**
   * The first Dispose releases each formerly cached disposable value exactly
   * once and nothing else, whatever order the enumeration visits the keys in.
   */
  lemma DisposeReleasesEachOnce(c: Cache, order: seq<string>, k: string, v: Resource)
    requires !c.disposed && Enumerates(order, c.resources.Keys)
    ensures multiset(Dispose(c, order).events)[Released(k, v)] ==
      if k in c.resources && c.resources[k] == v && v.disposable then 1 else 0
  {
    ReleaseEventsOnce(c.resources, order, k, v);
  }

  /**
   * A disposable value is created once, fetched again without a second
   * factory call, released exactly once by Dispose and not found afterwards.
   */
  lemma CachedOnceReleasedOnce(key: string, t: TypeName, res: Resource, other: Resource, order: seq<string>)
    requires IsOf(res, t) && IsOf(other, t) && res.disposable
    requires order == [key]
    ensures var s1 := GetOrCreate(Empty(), key, t, Returns(res));
      var s2 := GetOrCreate(s1.cache, key, t, Returns(other));
      var s3 := Dispose(s2.cache, order);
      && s1 == Step(Cache(map[key := res], false), [Invoked(key), Added(key, res)], Ok(res))
      && s2 == Step(s1.cache, [], Ok(res))
      && s3.events == [Released(key, res)]
      && TryGet(s3.cache, key, t) == None
  {
    var s1 := GetOrCreate(Empty(), key, t, Returns(res));
    assert ReleaseEvents(s1.cache.resources, order[1..]) == [];
  }

  /**
   * The cache after the sample game's start-up: the shaders under
   * "basic_shaders", then the pipeline and the vertex buffer, each made by
   * its factory on a miss.
   */
  function GameStartup(shaders: Resource, shaderType: TypeName, pipeline: Resource, buffer: Resource): (c: Cache)
    requires IsOf(shaders, shaderType) && IsOf(pipeline, "Pipeline") && IsOf(buffer, "DeviceBuffer")
    ensures !c.disposed
    ensures c.resources == map["basic_shaders" := shaders, "triangle_pipeline" := pipeline, "triangle_vb" := buffer]
  {
    var s1 := GetOrCreate(Empty(), "basic_shaders", shaderType, Returns(shaders));
    var s2 := GetOrCreate(s1.cache, "triangle_pipeline", "Pipeline", Returns(pipeline));
    var s3 := GetOrCreate(s2.cache, "triangle_vb", "DeviceBuffer", Returns(buffer));
    s3.cache
  }

  /**
   * The first Dispose of a cache holding three entries under distinct keys
   * releases exactly the disposable ones, each once.
   */
  lemma DisposeThree(c: Cache, order: seq<string>, k1: string, v1: Resource, k2: string, v2: Resource,
                     k3: string, v3: Resource)
    requires k1 != k2 && k1 != k3 && k2 != k3
    requires !c.disposed && c.resources == map[k1 := v1, k2 := v2, k3 := v3]
    requires Enumerates(order, {k1, k2, k3})
    ensures forall e | e in Dispose(c, order).events ::
      (e == Released(k1, v1) && v1.disposable) || (e == Released(k2, v2) && v2.disposable)
      || (e == Released(k3, v3) && v3.disposable)
    ensures multiset(Dispose(c, order).events)[Released(k1, v1)] == if v1.disposable then 1 else 0
    ensures multiset(Dispose(c, order).events)[Released(k2, v2)] == if v2.disposable then 1 else 0
    ensures multiset(Dispose(c, order).events)[Released(k3, v3)] == if v3.disposable then 1 else 0
  {
    assert c.resources.Keys == {k1, k2, k3};
    DisposeReleasesEachOnce(c, order, k1, v1);
    DisposeReleasesEachOnce(c, order, k2, v2);
    DisposeReleasesEachOnce(c, order, k3, v3);
  }

  /**
   * The game's shut-down as written: the shaders are cached as a `Shader[]`,
   * which is not IDisposable, so Dispose drops them without releasing them;
   * the pipeline and the vertex buffer are released exactly once, and
   * nothing else is released.
   */
  lemma GameShutdownAsWritten(shaders: Resource, pipeline: Resource, buffer: Resource, order: seq<string>)
    requires IsOf(shaders, "Shader[]") && !shaders.disposable
    requires IsOf(pipeline, "Pipeline") && pipeline.disposable
    requires IsOf(buffer, "DeviceBuffer") && buffer.disposable
    requires Enumerates(order, {"basic_shaders", "triangle_pipeline", "triangle_vb"})
    ensures var d := Dispose(GameStartup(shaders, "Shader[]", pipeline, buffer), order);
      && d.cache.resources == map[]
      && (forall e | e in d.events :: e == Released("triangle_pipeline", pipeline) || e == Released("triangle_vb", buffer))
      && multiset(d.events)[Released("triangle_pipeline", pipeline)] == 1
      && multiset(d.events)[Released("triangle_vb", buffer)] == 1
  {
    var c := GameStartup(shaders, "Shader[]", pipeline, buffer);
    DisposeThree(c, order, "basic_shaders", shaders, "triangle_pipeline", pipeline, "triangle_vb", buffer);
  }

  /**
   * The same shut-down with the shaders cached as one disposable value
   * that owns them: each of the three entries is released exactly once,
   * and nothing else is released.
   */
  lemma GameShutdownWrapped(shaders: Resource, pipeline: Resource, buffer: Resource, order: seq<string>)
    requires IsOf(shaders, "ShaderSet") && shaders.disposable
    requires IsOf(pipeline, "Pipeline") && pipeline.disposable
    requires IsOf(buffer, "DeviceBuffer") && buffer.disposable
    requires Enumerates(order, {"basic_shaders", "triangle_pipeline", "triangle_vb"})
    ensures var d := Dispose(GameStartup(shaders, "ShaderSet", pipeline, buffer), order);
      && d.cache.resources == map[]
      && (forall e | e in d.events :: e == Released("basic_shaders", shaders)
            || e == Released("triangle_pipeline", pipeline) || e == Released("triangle_vb", buffer))
      && multiset(d.events)[Released("basic_shaders", shaders)] == 1
      && multiset(d.events)[Released("triangle_pipeline", pipeline)] == 1
      && multiset(d.events)[Released("triangle_vb", buffer)] == 1
  {
    var c := GameStartup(shaders, "ShaderSet", pipeline, buffer);
    DisposeThree(c, order, "basic_shaders", shaders, "triangle_pipeline", pipeline, "triangle_vb", buffer);
  }
}
