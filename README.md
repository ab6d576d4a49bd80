# ResourceManager: a verified model of the engine's named-resource cache

The engine's `Engine.Core.ResourceManager` maps string keys (compared
ordinally) to type-erased resource objects, and carries a `disposed` flag.
The game creates one at start-up, fills it lazily with shaders, pipelines and
vertex buffers through `GetOrCreate`, and disposes it at shut-down. This
project models that class and proves what its four operations do:

- `GetOrCreate<T>(key, factory)` returns the cached value when the key holds a
  `T`. Otherwise it invokes the factory and inserts the result with `TryAdd`.
  It throws on a disposed cache, on a null factory result, and when `TryAdd`
  finds the key already taken.
- `TryGet<T>(key, out resource)` is a read that never creates anything.
- `Remove(key)` detaches the entry first, then calls `Dispose` on the value
  if the value is `IDisposable`.
- `Dispose()` is idempotent. It sets the flag, releases every disposable
  entry, swallows the exceptions those releases throw, and clears the map.

Files:

- `Resources.dfy` holds the values. A `Resource` is a type-erased object:
  - `id` stands for its identity;
  - `types` is the set of type names it passes `is T` for;
  - `disposable` stands for `is IDisposable`;
  - `releaseThrows` says whether its `Dispose` throws.

  The file also defines the factory outcome (`Returns`, `ReturnsNull`,
  `Throws`), the exceptions as `Error`, and the observable `Event`s: a factory
  invocation, an insertion, and a call to a value's `Dispose`.
- `CacheSpec.dfy` holds the cache as a state machine over values. Each
  operation is a function from a `Cache` (the map and the flag) to a `Step`:
  the new state, the events it caused, and its result or exception. The file
  also defines the invariant `Valid`. It says three things:
  - a disposed cache is empty;
  - only disposable values are released;
  - for every key and disposable value, the number of insertions equals the
    number of releases plus the number of times the value is still cached.
    So each cached value is released exactly once when it leaves the cache,
    and never while it is still there.
- `CacheProperties.dfy` holds the lemmas. Each operation keeps `Valid`. The
  teardown loop releases each disposable entry exactly once. Further lemmas
  cover disposal, hits, misses and removal.
- `ResourceManager.dfy` holds the class `EngineCore.ResourceManager`. Its
  fields are `resources`, `disposed` and a ghost event `log`. Its methods
  follow the C# branch by branch, with `TryAdd`/`TryRemove` as atomic map
  updates and `Dispose` as a loop over a snapshot of the entries. Each method
  is proved to move the state exactly as the matching `CacheSpec` function
  says, and to keep `Valid`.

Three behaviours of the code are modelled as they are:

- When a key holds a value of another type, the code invokes the factory,
  fails `TryAdd` and throws. The value just created is neither cached nor
  released, so a disposable one leaks.
- A `Dispose` that throws during `Remove` propagates to the caller, after the
  entry has been detached.
- The release failures that `Dispose` swallows leave no trace a caller can
  inspect.

## Model

| member | source | states |
|---|---|---|
| CacheSpec.GetOrCreate | Engine.Core/ResourceManager.cs:21-40 | Disposed: throws ObjectDisposed, invokes no factory, changes nothing. Hit of type T: returns that value, invokes nothing. Otherwise the factory is invoked. A returned value is always the one cached under key, and it has type T. Null result, factory exception and a taken key each give their own exception and leave the map unchanged. Only a free key gains an entry. An existing entry is never replaced. Nothing is released. |
| CacheSpec.TryGet | Engine.Core/ResourceManager.cs:45-58 | Finds a value exactly when the cache is live, the key is present and the value has type T; the value found is the cached one. |
| CacheSpec.Remove | Engine.Core/ResourceManager.cs:63-77 | Disposed: false, nothing changes. Missing key: false, nothing happens. Present key on a live cache: detached with all other entries kept, even when the release throws. The value is released once if disposable, not at all otherwise. Result is true, or the ReleaseFailed exception. |
| CacheSpec.ReleaseEvents | Engine.Core/ResourceManager.cs:87-94 | The teardown loop only releases disposable values that the map holds under the visited keys, at most one per visited position; ReleaseEventsOnce gives exactly one per disposable entry when the keys are distinct. |
| CacheSpec.Dispose | Engine.Core/ResourceManager.cs:82-96 | Never throws and always leaves the cache disposed. The first call empties the map and performs the teardown loop's releases. A call on a disposed cache does nothing. |
| CacheProperties.GetOrCreatePreservesValid | Engine.Core/ResourceManager.cs:29-39 | GetOrCreate keeps the invariant: at most one value per key, each released value released once per departure, a disposed cache empty. |
| CacheProperties.RemovePreservesValid | Engine.Core/ResourceManager.cs:63-77 | Remove keeps the invariant: the detached disposable value is released exactly once. |
| CacheProperties.ReleaseEventsAppend | Engine.Core/ResourceManager.cs:87-94 | Visiting one more key in the teardown loop appends exactly that key's release, if any. |
| CacheProperties.ReleaseEventsOnce | Engine.Core/ResourceManager.cs:87-94 | When the loop visits distinct keys, each disposable entry it visits is released exactly once, and nothing else is released. |
| CacheProperties.DisposePreservesValid | Engine.Core/ResourceManager.cs:82-96 | Dispose over an enumeration of all keys keeps the invariant: every formerly cached disposable value is released exactly once, and the cache ends empty and disposed. |
| CacheProperties.DisposeIdempotent | Engine.Core/ResourceManager.cs:84 | A second Dispose changes nothing and releases nothing. |
| CacheProperties.DisposedRejects | Engine.Core/ResourceManager.cs:23-66 | After Dispose, GetOrCreate throws ObjectDisposed without invoking the factory, TryGet finds nothing, and Remove returns false; none of them changes anything. |
| CacheProperties.InertOnceDisposed | Engine.Core/ResourceManager.cs:23-85 | From a disposed cache, any sequence of operations leaves the state unchanged and causes no factory call, insertion or release. |
| CacheProperties.CreatedIsVisible | Engine.Core/ResourceManager.cs:36-55 | After a successful GetOrCreate, TryGet with the same type finds exactly the value returned. |
| CacheProperties.TryGetAgreesWithGetOrCreate | Engine.Core/ResourceManager.cs:29-55 | GetOrCreate returns the value TryGet finds, for any factory: it changes nothing and invokes nothing. |
| CacheProperties.SecondCallHits | Engine.Core/ResourceManager.cs:29-39 | Two GetOrCreate calls for one key and type return the same instance. The second invokes no factory and changes nothing. |
| CacheProperties.RemoveThenMiss | Engine.Core/ResourceManager.cs:63-76 | After any Remove, including one whose release threw (the detach comes first), TryGet finds nothing under the key. On a live cache, the next GetOrCreate first invokes its factory and returns the factory's value when there is one. |
| CacheProperties.WrongTypeKeepsEntry | Engine.Core/ResourceManager.cs:29-37 | For a key holding a value of another type: the factory is invoked and AddFailed is thrown. The old entry stays. The created value is neither cached nor released. |
| CacheProperties.DisposeReleasesEachOnce | Engine.Core/ResourceManager.cs:84-95 | The first Dispose, in any enumeration order, releases each formerly cached disposable value exactly once and releases nothing else. |
| CacheProperties.CachedOnceReleasedOnce | Engine.Core/ResourceManager.cs:29-95 | A disposable value is created once and fetched again without a second factory call. Dispose releases it exactly once, and TryGet does not find it afterwards. |
| CacheProperties.DisposeThree | Engine.Core/ResourceManager.cs:84-95 | The first Dispose of a cache holding three entries under distinct keys, in any enumeration order, releases exactly the disposable ones, each once, and nothing else. |
| CacheProperties.GameStartup | Samples/MyFirstGame/Game.cs:66-101 | The game's three GetOrCreate calls on a new cache leave it live, holding exactly the shaders, the pipeline and the vertex buffer under their keys. |
| CacheProperties.GameShutdownAsWritten | Samples/MyFirstGame/Game.cs:125-128 | The game caches its shaders as a `Shader[]`, which is not IDisposable. Shut-down in any enumeration order releases the pipeline and the vertex buffer exactly once each, and never releases the shaders. |
| CacheProperties.GameShutdownWrapped | Samples/MyFirstGame/Game.cs:66-128 | With the shaders cached as one disposable value that owns them, shut-down in any order releases each of the three entries exactly once. |
| EngineCore.ResourceManager.constructor | Engine.Core/ResourceManager.cs:11-12 | A new cache is empty, live, has no history and satisfies the invariant. |
| EngineCore.ResourceManager.TryAdd | Engine.Core/ResourceManager.cs:36 | Inserts and reports true exactly when the key is free; otherwise changes nothing. |
| EngineCore.ResourceManager.TryRemove | Engine.Core/ResourceManager.cs:68 | Reports whether the key was present, hands back its value, and the key is absent afterwards. |
| EngineCore.ResourceManager.Release | Engine.Core/ResourceManager.cs:70-73 | Records one call of the value's Dispose and reports whether it threw. |
| EngineCore.ResourceManager.GetOrCreate | Engine.Core/ResourceManager.cs:21-40 | Moves the state, appends the events and returns exactly as CacheSpec.GetOrCreate says, and keeps the invariant. |
| EngineCore.ResourceManager.TryGet | Engine.Core/ResourceManager.cs:45-58 | Returns true with the value exactly when CacheSpec.TryGet finds one, otherwise false with no value; changes nothing. |
| EngineCore.ResourceManager.Remove | Engine.Core/ResourceManager.cs:63-77 | Moves the state, appends the events and returns exactly as CacheSpec.Remove says, and keeps the invariant. |
| EngineCore.ResourceManager.ReleaseEach | Engine.Core/ResourceManager.cs:87-94 | Visits every key of the snapshot exactly once and records the releases CacheSpec.ReleaseEvents gives for that order; exceptions are swallowed. |
| EngineCore.ResourceManager.Dispose | Engine.Core/ResourceManager.cs:82-96 | On a disposed cache, does nothing. Otherwise it visits every key once, in the reported order, moves the state and appends the events as CacheSpec.Dispose says, and keeps the invariant. |

## Findings

| source | as written | input that shows it | evidently intended | confidence | as-written member | corrected member |
|---|---|---|---|---|---|---|
| Samples/MyFirstGame/Game.cs:68-69 | The shaders are cached as the `Shader[]` returned by `LoadShaders` (Engine.Shaders/ShaderManager.cs:33). An array is not IDisposable, so `ResourceManager.Dispose` (Engine.Core/ResourceManager.cs:89) drops the two shaders without releasing them. | The game's start-up followed by `Shutdown` (Game.cs:125-128). | Engine.Shaders/ShaderManager.cs:75 says the ResourceManager handles disposal of the shaders. For that, they must be cached as a disposable value, such as one object that owns both shaders. | medium; not executed | CacheProperties.GameShutdownAsWritten | CacheProperties.GameShutdownWrapped |

## Left out

- Concurrency: the `ConcurrentDictionary` races are not modelled. These are the races between the lookup and `TryAdd`, and between the operations and the (non-volatile) `disposed` flag. Operations are sequential; `TryGetValue`, `TryAdd`, `TryRemove` and `Clear` are atomic map updates.
- The runtime type tests `is T` and `is IDisposable` are not modelled as reflection. Each value carries the set of type names it is assignable to, and a disposable flag.
- What a resource's own `Dispose` does is not modelled. Only the fact that it was called, and whether it threw, is recorded.
- A null key: `ConcurrentDictionary` throws `ArgumentNullException` for it. Dafny strings cannot be null, so this path is absent.
- The factory is a value saying what invoking it yields (a resource, null, or an exception), not a closure with effects of its own.
- Exceptions other than those listed in `Error`, such as an exception thrown inside the `Dispose` loop that is not caught, are not modelled.
- CacheSpec.Valid: counts releases per entry, meaning a key together with its value, not per object. If one object is cached under two keys, the code releases it once for each key, and the invariant allows this.
- The game's pipeline and vertex buffer are taken to be IDisposable, as the graphics library's resources are; that library is not part of this model.
- The rest of the repository is not part of this model. This covers the graphics system, the pipeline builder, the shader manager, the mesh loader and the sample game's loop. They are direct calls into the graphics, windowing and shader-compilation libraries.
