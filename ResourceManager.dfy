/**
 * The class ResourceManager of Engine.Core: a keyed store of type-erased
 * resources with a disposed flag. Each method is proved to take the state
 * where the matching function of CacheSpec says, and to keep the invariant
 * CacheSpec.Valid.
 */
module EngineCore {
  import opened Resources
  import CacheSpec
  import CacheProperties

  class ResourceManager {
    // The ConcurrentDictionary<string, object> with ordinal keys, and the lifecycle flag.
    var resources: map<string, Resource>
    var disposed: bool
    // Everything observable that happened to this cache so far.
    ghost var log: seq<Event>

    ghost function Model(): CacheSpec.Cache
      reads this
    {
      CacheSpec.Cache(resources, disposed)
    }

    ghost predicate Valid()
      reads this
    {
      CacheSpec.Valid(Model(), log)
    }

    constructor ()
      ensures Valid() && Model() == CacheSpec.Empty() && log == []
    {
      resources := map[];
      disposed := false;
      log := [];
      CacheProperties.EmptyValid();
    }

    /** ConcurrentDictionary.TryAdd: inserts only when the key is free. */
    method TryAdd(key: string, value: Resource) returns (added: bool)
      modifies this`resources, this`log
      ensures added == (key !in old(resources))
      ensures resources == if added then old(resources)[key := value] else old(resources)
      ensures log == if added then old(log) + [Added(key, value)] else old(log)
    {
      added := key !in resources;
      if added {
        resources := resources[key := value];
        log := log + [Added(key, value)];
      }
    }

    /** ConcurrentDictionary.TryRemove: detaches the entry and hands back its value. */
    method TryRemove(key: string) returns (found: bool, removed: Option<Resource>)
      modifies this`resources
      ensures found == (key in old(resources))
      ensures removed == if found then Some(old(resources)[key]) else None
      ensures resources == old(resources) - {key}
    {
      found := key in resources;
      if found {
        removed := Some(resources[key]);
      } else {
        removed := None;
      }
      resources := resources - {key};
    }

    /** Calls the value's Dispose; reports whether it threw. */
    method Release(key: string, value: Resource) returns (threw: bool)
      modifies this`log
      ensures log == old(log) + [Released(key, value)]
      ensures threw == value.releaseThrows
    {
      log := log + [Released(key, value)];
      threw := value.releaseThrows;
    }

    method GetOrCreate(key: string, t: TypeName, factory: Factory) returns (r: Result<Resource>)
      requires Valid()
      requires FactoryTyped(factory, t)
      modifies this
      ensures Valid()
      ensures var s := CacheSpec.GetOrCreate(old(Model()), key, t, factory);
        Model() == s.cache && log == old(log) + s.events && r == s.result
    {
      CacheProperties.GetOrCreatePreservesValid(Model(), log, key, t, factory);
      if disposed {
        return Err(ObjectDisposed);
      }
      if key in resources && IsOf(resources[key], t) {
        return Ok(resources[key]);
      }
      log := log + [Invoked(key)];
      match factory
      case Throws =>
        return Err(FactoryFailed);
      case ReturnsNull =>
        return Err(FactoryReturnedNull);
      case Returns(created) =>
        var added := TryAdd(key, created);
        if !added {
          return Err(AddFailed);
        }
        return Ok(created);
    }

    method TryGet(key: string, t: TypeName) returns (found: bool, resource: Option<Resource>)
      ensures resource == CacheSpec.TryGet(Model(), key, t)
      ensures found == resource.Some?
    {
      resource := None;
      if disposed {
        return false, resource;
      }
      if key in resources && IsOf(resources[key], t) {
        resource := Some(resources[key]);
        return true, resource;
      }
      return false, resource;
    }

    method Remove(key: string) returns (r: Result<bool>)
      requires Valid()
      modifies this
      ensures Valid()
      ensures var s := CacheSpec.Remove(old(Model()), key);
        Model() == s.cache && log == old(log) + s.events && r == s.result
    {
      CacheProperties.RemovePreservesValid(Model(), log, key);
      if disposed {
        return Ok(false);
      }
      var found, removed := TryRemove(key);
      if found {
        if removed.value.disposable {
          var threw := Release(key, removed.value);
          if threw {
            return Err(ReleaseFailed);
          }
        }
        return Ok(true);
      }
      return Ok(false);
    }

    /**
     * Releases every disposable entry, swallowing failures, then clears the
     * map. `order` is the order the enumeration visited the keys in, which
     * ConcurrentDictionary leaves unspecified.
     */
    method Dispose() returns (ghost order: seq<string>)
      requires Valid()
      modifies this
      ensures Valid()
      ensures old(disposed) ==> order == []
      ensures !old(disposed) ==> CacheSpec.Enumerates(order, old(resources).Keys)
      ensures var s := CacheSpec.Dispose(old(Model()), order);
        Model() == s.cache && log == old(log) + s.events
    {
      order := [];
      if disposed {
        return;
      }
      ghost var before := Model();
      disposed := true;
      order := ReleaseEach(resources);
      resources := map[];
      CacheProperties.DisposePreservesValid(before, old(log), order);
    }

    /**
     * The foreach loop of Dispose over the entries `entries`: calls Dispose
     * on every disposable value, catching whatever it throws.
     */
    method ReleaseEach(entries: map<string, Resource>) returns (ghost order: seq<string>)
      modifies this`log
      ensures CacheSpec.Enumerates(order, entries.Keys)
      ensures log == old(log) + CacheSpec.ReleaseEvents(entries, order)
    {
      order := [];
      var remaining := entries.Keys;
      while remaining != {}
        invariant remaining <= entries.Keys
        invariant forall k :: k in order <==> k in entries.Keys - remaining
        invariant forall i, j | 0 <= i < j < |order| :: order[i] != order[j]
        invariant log == old(log) + CacheSpec.ReleaseEvents(entries, order)
        decreases remaining
      {
        var k :| k in remaining;
        var v := entries[k];
        CacheProperties.ReleaseEventsAppend(entries, order, k);
        if v.disposable {
          var threw := Release(k, v);
          // an exception from the release is caught and ignored
        }
        order := order + [k];
        remaining := remaining - {k};
      }
    }
  }
}
