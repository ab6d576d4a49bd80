/**
 * Values handled by the resource cache of Engine.Core: the type-erased
 * resources it stores, the factories that make them, the exceptions its
 * operations throw, and the observable events of a run.
 */
module Resources {

  /** The name of a C# class or interface, as used in a runtime type test `x is T`. */
  type TypeName = string

  /**
   * A heap object stored behind the cache's `object` slot.
   * `id` stands for its identity; `types` is every type the object's runtime
   * class is assignable to (its class, base classes and interfaces), so
   * `x is T` holds exactly when `T in types`; `disposable` says whether it
   * implements IDisposable, and `releaseThrows` whether its Dispose throws.
   */
  datatype Resource = Resource(id: nat, types: set<TypeName>, disposable: bool, releaseThrows: bool)

  /** The runtime type test `r is T`. */
  predicate IsOf(r: Resource, t: TypeName)
  {
    t in r.types
  }

  /** What a caller-supplied `Func<T>` does when the cache invokes it. */
  datatype Factory = Returns(made: Resource) | ReturnsNull | Throws

  /**
   * C#'s static typing: a `Func<T>` can only return a `T` (or null).
   */
  predicate FactoryTyped(f: Factory, t: TypeName)
  {
    f.Returns? ==> IsOf(f.made, t)
  }

  /** The exceptions that leave the cache's operations. */
  datatype Error =
    | ObjectDisposed       // the cache was already disposed
    | FactoryFailed        // the factory itself threw; the exception propagates
    | FactoryReturnedNull  // InvalidOperationException: factory returned null
    | AddFailed            // InvalidOperationException: TryAdd found the key taken
    | ReleaseFailed        // a resource's Dispose threw during Remove

  datatype Result<+T> = Ok(value: T) | Err(error: Error)

  datatype Option<+T> = None | Some(value: T)

  /**
   * What an observer of the cache can see happen: a factory being invoked
   * for a key, a value being inserted under a key, and the Dispose method of
   * the value cached under a key being called.
   */
  datatype Event =
    | Invoked(key: string)
    | Added(key: string, res: Resource)
    | Released(key: string, res: Resource)
}
