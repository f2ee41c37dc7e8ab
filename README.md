# ETPackages.Mediator: a Dafny model of the dispatch core

ETPackages.Mediator is an in-process mediator for .NET. A caller passes a request or a
notification to `IMediator`. The mediator finds the handler type for the payload's runtime type
and caches it in a static dictionary. It resolves the handler from the dependency-injection
container and builds a wrapper for the request type, also through a cached type. It then runs the
handler inside the pipeline behaviors registered for that request, or fans a notification out to
every registered notification handler. `AddMediator` fills the service collection from a
configuration object. It scans assemblies for handler implementations and registers the open
pipeline behaviors.

The model has one module per source file:

- `Abstractions`: the vocabulary shared by the other modules. Types are values, and generic
  definitions are closed over their arguments. Errors are values. A resolved service is an
  `Instance`: its class, the interfaces it implements and what its `Handle` does. A `Provider`
  maps a service type to its registrations, in registration order.
- `TypeCaches` models a `ConcurrentDictionary<Type, Type>` as a `TypeCache` object whose
  `GetOrAdd` is specified by the map functions `CacheLookup` and `CacheInsert`. The library's
  caches are static fields, so they are shared objects handed to the classes that use them.
- `RequestHandlerWrapper` covers the pipeline fold `Reverse().Aggregate(handlerDelegate, …)`
  over defunctionalised delegates. It is proved equal to a right fold (`Chain`) in which the
  first registered behavior is outermost. It also covers the before/after trace of the
  behaviors, short-circuiting, the propagation of exceptions, and the two wrapper creations
  with their casts.
- `NotificationHandlerWrapper`: the wrapper's creation, which casts the handler, and its
  `Handle`, which delegates to the handler.
- `ForeachAwaitPublisher`: the sequential fan-out as a loop, proved against the reference
  function `Sequential`. Null handlers are skipped, and the first failure stops the loop.
- `Mediator`:
  - `Send<TResponse>`, `Send` and `Publish` as methods of a `Mediator` class over the shared
    caches, each proved equal to a specification function;
  - lemmas about those functions: null rejection, cache monotonicity, missing handlers, the
    effect of the shared request caches, and notification delivery.
- `Configuration`: `MediatorServiceConfiguration` as a class and the calls an application's
  `configureOptions` makes on it, with lemmas on what a sequence of calls leaves behind.
- `ServiceRegistrar`: `AddMediator` as a method over a `ServiceCollection` class, proved equal to
  a specification function. The lemmas cover:
  - soundness: every descriptor added comes from the configuration;
  - completeness: every handler interface of every concrete type is registered;
  - consistency: request handlers are never registered twice;
  - ordering: behaviors keep their order;
  - where registration fails.

Two details of the code's behaviour matter for what is proved:

- `Send` resolves its handler with `GetRequiredService`. That call fails only when no handler is
  registered; when several are, it returns the last registration. `Provider.GetRequiredService`
  models exactly that. `AddMediatorConsistent` shows that `AddMediator` never registers a
  request-handler interface twice, so an application configured through it has at most one.
- Both `Send` overloads throw `ArgumentNullException("request")` for a null request, modelled as
  `ArgumentNull("request")`. `Publish` has no null check, so a null notification fails with a
  null reference when `GetType` is called.

## Model

| member | source | states |
|---|---|---|
| Abstractions.Provider.GetRequiredService | src/ETPackages.Mediator/Mediator.cs:29 | fails exactly when nothing is registered for the service, naming the service; otherwise returns the last registration |
| TypeCaches.CacheLookup | src/ETPackages.Mediator/Mediator.cs:25-27 | the value GetOrAdd returns: the stored entry when the key is present, else the factory's value; no contract of its own, used by CacheInsert and every cache lemma |
| TypeCaches.CacheInsert | src/ETPackages.Mediator/Mediator.cs:25-27 | adds the key if missing and keeps every existing entry; afterwards the key maps to what the lookup returned |
| TypeCaches.GetOrAddIdempotent | src/ETPackages.Mediator/Wrappers/RequestHandlerWrapper.cs:33-35 | a second GetOrAdd for the same key returns the first value and does not change the cache, whatever its factory |
| TypeCaches.CoherentGetOrAdd | src/ETPackages.Mediator/Wrappers/NotificationHandlerWrapper.cs:15-17 | when every entry is the factory's value for its key, GetOrAdd returns the factory's value and keeps that property |
| TypeCaches.CacheInsertExtends | src/ETPackages.Mediator/Mediator.cs:11-12 | GetOrAdd never removes or overwrites an entry |
| TypeCaches.TypeCache.constructor | src/ETPackages.Mediator/Mediator.cs:11 | a new dictionary is empty |
| TypeCaches.TypeCache.GetOrAdd | src/ETPackages.Mediator/Mediator.cs:25-27 | returns the cached value, or inserts and returns the factory's value for a key not yet present |
| RequestHandlerWrapper.Reverse | src/ETPackages.Mediator/Wrappers/RequestHandlerWrapper.cs:82 | the reversed list has the same length and holds element i at position n-1-i |
| RequestHandlerWrapper.Aggregate | src/ETPackages.Mediator/Wrappers/RequestHandlerWrapper.cs:83-89 | the left fold of Enumerable.Aggregate, each step wrapping the accumulated delegate in one behavior; no contract of its own, its meaning is AggregateReverseNests |
| RequestHandlerWrapper.Compose | src/ETPackages.Mediator/Wrappers/RequestHandlerWrapper.cs:80-89 | the pipeline delegate Handle builds, Reverse then Aggregate around the handler delegate; no contract of its own, its meaning is ComposeIsChain and FirstBehaviorOutermost |
| RequestHandlerWrapper.Invoke | src/ETPackages.Mediator/Wrappers/RequestHandlerWrapper.cs:85-91 | calling a delegate: a behavior's next runs only if the behavior proceeds; no contract of its own, its meaning is ComposeIsChain and the trace lemmas |
| RequestHandlerWrapper.Chain | src/ETPackages.Mediator/Wrappers/RequestHandlerWrapper.cs:80-91 | the reference right fold of the behaviors around the handler; no contract of its own, its properties are AllProceedTrace, ShortCircuitTrace, UnwindRethrows, HandlerRunsOnceIffAllProceed and SameRequestAndToken |
| RequestHandlerWrapper.AggregateReverseNests | src/ETPackages.Mediator/Wrappers/RequestHandlerWrapper.cs:82-89 | folding the reversed behavior list wraps the delegate so that the first behavior is outermost |
| RequestHandlerWrapper.FirstBehaviorOutermost | src/ETPackages.Mediator/Wrappers/RequestHandlerWrapper.cs:53-62 | for a non-empty list, the composed pipeline is the first behavior wrapped around the other behaviors, nested in order, around the handler |
| RequestHandlerWrapper.ComposeIsChain | src/ETPackages.Mediator/Wrappers/RequestHandlerWrapper.cs:80-89 | the pipeline built by Reverse and Aggregate behaves exactly like the right fold of the behaviors around the handler |
| RequestHandlerWrapper.HandlerRunsOnceIffAllProceed | src/ETPackages.Mediator/Wrappers/RequestHandlerWrapper.cs:75-91 | the handler runs exactly once if every behavior calls next, and never otherwise |
| RequestHandlerWrapper.AllProceedTrace | src/ETPackages.Mediator/Wrappers/RequestHandlerWrapper.cs:80-89 | when every behavior calls next, the trace is the behaviors' entries in registration order, the handler, then their exits in reverse order, ending with the handler's result as the after-steps rewrite it |
| RequestHandlerWrapper.ShortCircuitTrace | src/ETPackages.Mediator/Wrappers/RequestHandlerWrapper.cs:83-89 | a behavior that returns without calling next ends the descent: behaviors after it and the handler never run, and only the behaviors before it exit |
| RequestHandlerWrapper.UnwindRethrows | src/ETPackages.Mediator/Wrappers/RequestHandlerWrapper.cs:83-89 | when every after-step rethrows, a failure raised inside leaves the pipeline unchanged |
| RequestHandlerWrapper.HandlerFailurePropagates | src/ETPackages.Mediator/Wrappers/RequestHandlerWrapper.cs:91 | when every behavior calls next and rethrows, the handler's exception is the pipeline's outcome |
| RequestHandlerWrapper.SameRequestAndToken | src/ETPackages.Mediator/Wrappers/RequestHandlerWrapper.cs:75-89 | every behavior and the handler see the same request and the same cancellation token |
| RequestHandlerWrapper.ThreeBehaviorsTrace | src/ETPackages.Mediator/Wrappers/RequestHandlerWrapper.cs:53-62 | with behaviors A, B, C that all call next, the trace is A, B and C entering, the handler, then C, B and A exiting |
| RequestHandlerWrapper.ActivateTyped | src/ETPackages.Mediator/Wrappers/RequestHandlerWrapper.cs:37 | succeeds exactly when the cached type is the typed wrapper for the requested response type and the handler implements its request-handler interface; otherwise an invalid cast |
| RequestHandlerWrapper.ActivateVoid | src/ETPackages.Mediator/Wrappers/RequestHandlerWrapper.cs:23 | succeeds exactly when the cached type is a void-request wrapper and the handler implements its void-request-handler interface; otherwise an invalid cast |
| RequestHandlerWrapper.CreateTyped | src/ETPackages.Mediator/Wrappers/RequestHandlerWrapper.cs:31-38 | looks the wrapper type up in the shared wrapper cache, inserting the typed wrapper if missing, and activates it |
| RequestHandlerWrapper.CreateVoid | src/ETPackages.Mediator/Wrappers/RequestHandlerWrapper.cs:17-24 | looks the wrapper type up in the shared wrapper cache, inserting the void wrapper if missing, and activates it |
| RequestHandlerWrapper.TypedLayers | src/ETPackages.Mediator/Wrappers/RequestHandlerWrapper.cs:80-81 | resolves the registered behaviors for the request and response pair in order; fails with an invalid cast exactly when one is not such a behavior |
| RequestHandlerWrapper.VoidLayers | src/ETPackages.Mediator/Wrappers/RequestHandlerWrapper.cs:53-54 | resolves the registered behaviors for the request in order; fails with an invalid cast exactly when one is not such a behavior |
| RequestHandlerWrapper.HandleTyped | src/ETPackages.Mediator/Wrappers/RequestHandlerWrapper.cs:73-92 | the typed Handle: resolve the behaviors, build the pipeline and await it; no contract of its own, its meaning is HandleTypedRunsChain |
| RequestHandlerWrapper.HandleVoid | src/ETPackages.Mediator/Wrappers/RequestHandlerWrapper.cs:46-65 | the void Handle: resolve the void behaviors, build the pipeline and await it; no contract of its own, its meaning is HandleVoidRunsChain |
| RequestHandlerWrapper.HandleTypedRunsChain | src/ETPackages.Mediator/Wrappers/RequestHandlerWrapper.cs:73-92 | the typed Handle runs the right fold of the resolved behaviors around the handler, or fails with the resolution error before any of them runs |
| RequestHandlerWrapper.HandleVoidRunsChain | src/ETPackages.Mediator/Wrappers/RequestHandlerWrapper.cs:46-65 | the void Handle runs the right fold of the resolved void behaviors around the handler, or fails with the resolution error before any of them runs |
| RequestHandlerWrapper.NoBehaviorsIsHandler | src/ETPackages.Mediator/Wrappers/RequestHandlerWrapper.cs:75-91 | with no behaviors registered, Handle returns exactly the handler's result with a trace of one handler call |
| NotificationHandlerWrapper.Activate | src/ETPackages.Mediator/Wrappers/NotificationHandlerWrapper.cs:19-26 | succeeds exactly when the type is a notification wrapper and the handler implements INotificationHandler for its notification type; otherwise an invalid cast |
| NotificationHandlerWrapper.Handle | src/ETPackages.Mediator/Wrappers/NotificationHandlerWrapper.cs:28-31 | the wrapper's Handle; no contract of its own, its meaning is WrapperDelegatesToHandler |
| NotificationHandlerWrapper.WrapperDelegatesToHandler | src/ETPackages.Mediator/Wrappers/NotificationHandlerWrapper.cs:28-31 | the wrapper of a proper handler exists, and its Handle gives the handler's own outcome for the same notification and token |
| NotificationHandlerWrapper.NonHandlerRejectedAtCreation | src/ETPackages.Mediator/Wrappers/NotificationHandlerWrapper.cs:26 | an object that is not a handler of the notification type is rejected with an invalid cast |
| NotificationHandlerWrapper.Create | src/ETPackages.Mediator/Wrappers/NotificationHandlerWrapper.cs:13-20 | consults and fills the notification wrapper cache, then activates the cached type around the handler |
| ForeachAwaitPublisher.StepOutcome | src/ETPackages.Mediator/NotificationPublishers/ForeachAwaitPublisher.cs:18-20 | one loop iteration for a non-null handler: create its wrapper, then await its Handle; no contract of its own, used by FirstFailureStops and NoneFails |
| ForeachAwaitPublisher.Sequential | src/ETPackages.Mediator/NotificationPublishers/ForeachAwaitPublisher.cs:11-21 | the reference definition of the loop, one handler at a time; no contract of its own, its properties are the lemmas below and Publish is proved equal to it |
| ForeachAwaitPublisher.NoHandlersNoCalls | src/ETPackages.Mediator/NotificationPublishers/ForeachAwaitPublisher.cs:11-16 | with no non-null handler, publishing calls nothing and succeeds |
| ForeachAwaitPublisher.SucceedsIffNoneFails | src/ETPackages.Mediator/NotificationPublishers/ForeachAwaitPublisher.cs:11-20 | succeeds exactly when no non-null handler fails, and then every non-null handler was called once, in list order |
| ForeachAwaitPublisher.FailureIsFinal | src/ETPackages.Mediator/NotificationPublishers/ForeachAwaitPublisher.cs:20 | once a prefix has failed, the rest of the list changes neither the calls nor the outcome |
| ForeachAwaitPublisher.FirstFailureStops | src/ETPackages.Mediator/NotificationPublishers/ForeachAwaitPublisher.cs:18-20 | the first failing handler's failure is the outcome; the calls are the non-null handlers before it, plus it if its wrapper was built |
| ForeachAwaitPublisher.FailureHasFirst | src/ETPackages.Mediator/NotificationPublishers/ForeachAwaitPublisher.cs:11-20 | every failed publish has a first failing non-null handler |
| ForeachAwaitPublisher.Publish | src/ETPackages.Mediator/NotificationPublishers/ForeachAwaitPublisher.cs:9-22 | the loop computes the sequential fan-out, and the wrapper cache gains the notification's entry exactly when a non-null handler is reached |
| Abstractions.Present | src/ETPackages.Mediator/Mediator.cs:68 | the resolved handlers are handed to the publisher one for one, in order, none of them null |
| Mediator.SendTyped | src/ETPackages.Mediator/Mediator.cs:14-34 | the specification of Send&lt;TResponse&gt; over the cache contents; no contract of its own, its properties are the lemmas below and Mediator.Mediator.Send is proved equal to it |
| Mediator.SendVoid | src/ETPackages.Mediator/Mediator.cs:36-56 | the specification of void Send over the cache contents; no contract of its own, its properties are the lemmas below and Mediator.Mediator.SendVoidRequest is proved equal to it |
| Mediator.PublishSpec | src/ETPackages.Mediator/Mediator.cs:58-71 | the specification of Publish over the cache contents; no contract of its own, its properties are the lemmas below and Mediator.Mediator.Publish is proved equal to it |
| Mediator.NullRequestRejected | src/ETPackages.Mediator/Mediator.cs:16-19 | both Send overloads reject a null request with ArgumentNull("request") and leave both caches unchanged |
| Mediator.SendOnlyExtendsCaches | src/ETPackages.Mediator/Mediator.cs:25-31 | Send never removes or changes a cache entry, and the wrapper cache changes only after a handler was resolved |
| Mediator.PublishOnlyExtendsCaches | src/ETPackages.Mediator/Mediator.cs:64-70 | Publish never removes or changes a notification cache entry |
| Mediator.VoidMissingHandlerFails | src/ETPackages.Mediator/Mediator.cs:47-51 | with nothing registered for the cached void-handler interface, void Send fails with ServiceNotFound for that interface, runs nothing and leaves the wrapper cache alone |
| Mediator.CoherentVoidSendRunsHandler | src/ETPackages.Mediator/Mediator.cs:36-56 | while the caches hold only void Send entries, void Send runs the void pipeline around the last registered IRequestHandler&lt;TRequest&gt; and keeps the caches that way |
| Mediator.MissingHandlerFails | src/ETPackages.Mediator/Mediator.cs:29 | with nothing registered for the cached handler interface, Send fails with ServiceNotFound for that interface, runs nothing and leaves the wrapper cache alone |
| Mediator.CoherentSendRunsHandler | src/ETPackages.Mediator/Mediator.cs:14-34 | while the caches hold only Send&lt;TResponse&gt; entries for one response type, Send runs the pipeline around the last registered handler and keeps the caches that way |
| Mediator.VoidThenTypedFails | src/ETPackages.Mediator/Mediator.cs:47-49 | after void Send has seen a request type, Send&lt;TResponse&gt; for that type fails (missing void handler or invalid cast), whatever is registered |
| Mediator.OtherResponseFails | src/ETPackages.Mediator/Mediator.cs:25-27 | after Send&lt;TResponse&gt; has seen a request type, Send for another response type fails (missing handler or invalid cast) |
| Mediator.PublishHandsResolvedHandlers | src/ETPackages.Mediator/Mediator.cs:64-70 | the publisher receives exactly the registered handlers in order; with none, nothing is called, publishing succeeds and the wrapper cache is unchanged |
| Mediator.CoherentPublishCallsAll | src/ETPackages.Mediator/Mediator.cs:58-71 | when every registered handler implements the notification interface and completes, all are called once, in order, and publishing succeeds |
| Mediator.Mediator.constructor | src/ETPackages.Mediator/Mediator.cs:9-12 | the mediator keeps its provider and uses the four shared caches |
| Mediator.Mediator.Send | src/ETPackages.Mediator/Mediator.cs:14-34 | the run and the two new request caches are those of the Send&lt;TResponse&gt; specification |
| Mediator.Mediator.SendVoidRequest | src/ETPackages.Mediator/Mediator.cs:36-56 | the run and the two new request caches are those of the void Send specification, which rejects a null request, fails with ServiceNotFound when no handler is registered, and otherwise runs the void pipeline around the last registered handler (NullRequestRejected, VoidMissingHandlerFails, CoherentVoidSendRunsHandler) |
| Mediator.Mediator.Publish | src/ETPackages.Mediator/Mediator.cs:58-71 | the handlers handed on, the fan-out and the two new notification caches are those of the Publish specification |
| Configuration.Defaults | src/ETPackages.Mediator/Configurations/MediatorServiceConfiguration.cs:10-13 | the initial configuration: scoped lifetime, a ForeachAwaitPublisher, no assemblies, no behaviors; no contract of its own, the constructor is proved to produce it |
| Configuration.ApplyCall | src/ETPackages.Mediator/Configurations/MediatorServiceConfiguration.cs:10-32 | one configuration call fails exactly when it passes a null array to AddRegisterAssemblies, then with ArgumentNull("collection"); on success the assemblies grow by exactly what the call adds |
| Configuration.ApplyCalls | src/ETPackages.Mediator/ServiceRegistrar.cs:19 | the configureOptions callback as its calls in order, the first exception ending it; no contract of its own, its properties are ApplyCallsFailsOnNullArray and ApplyCallsContents |
| Configuration.ApplyCallsFailsOnNullArray | src/ETPackages.Mediator/Configurations/MediatorServiceConfiguration.cs:22-27 | the configuration callback fails exactly when it passes a null array to AddRegisterAssemblies, and then with ArgumentNull("collection") |
| Configuration.ApplyCallsContents | src/ETPackages.Mediator/Configurations/MediatorServiceConfiguration.cs:10-32 | after the callback, the assemblies and behaviors are the initial ones followed by every one added, in call order; lifetime and publisher are the last ones set |
| Configuration.MediatorServiceConfiguration.constructor | src/ETPackages.Mediator/Configurations/MediatorServiceConfiguration.cs:10-13 | a new configuration has the scoped lifetime, a ForeachAwaitPublisher, and no assemblies or behaviors |
| Configuration.MediatorServiceConfiguration.SetLifetime | src/ETPackages.Mediator/Configurations/MediatorServiceConfiguration.cs:10 | only the lifetime changes |
| Configuration.MediatorServiceConfiguration.SetNotificationPublisher | src/ETPackages.Mediator/Configurations/MediatorServiceConfiguration.cs:11 | only the publisher changes |
| Configuration.MediatorServiceConfiguration.AddRegisterAssembly | src/ETPackages.Mediator/Configurations/MediatorServiceConfiguration.cs:15-20 | appends the assembly (null included) and returns the same configuration |
| Configuration.MediatorServiceConfiguration.AddRegisterAssemblies | src/ETPackages.Mediator/Configurations/MediatorServiceConfiguration.cs:22-27 | appends the array's assemblies in order and returns the same configuration; a null array fails with ArgumentNull("collection") and changes nothing |
| Configuration.MediatorServiceConfiguration.AddOpenBehavior | src/ETPackages.Mediator/Configurations/MediatorServiceConfiguration.cs:29-32 | appends the behavior type (null included) |
| Configuration.MediatorServiceConfiguration.Apply | src/ETPackages.Mediator/ServiceRegistrar.cs:19 | one callback call has the effect the call-sequence semantics gives it, and a failing call changes nothing |
| ServiceRegistrar.TryAddResult | src/ETPackages.Mediator/ServiceRegistrar.cs:47 | TryAdd appends the descriptor only when its service is not registered yet; afterwards the service is registered |
| ServiceRegistrar.TryAddEnumerableResult | src/ETPackages.Mediator/ServiceRegistrar.cs:51 | TryAddEnumerable appends the descriptor only when that service and implementation pair is missing; afterwards the pair is registered |
| ServiceRegistrar.AddInterface | src/ETPackages.Mediator/ServiceRegistrar.cs:44-52 | one interface appends at most its own descriptor: nothing for a non-handler interface, afterwards a request-handler interface is registered and a notification-handler interface is registered with this implementation |
| ServiceRegistrar.BehaviorError | src/ETPackages.Mediator/ServiceRegistrar.cs:58-65 | a behavior type is accepted exactly when it is non-null with one or two generic arguments; a null one fails with a null reference, any other arity with ArgumentOutOfRange("genericArg") |
| ServiceRegistrar.AddInterfaces | src/ETPackages.Mediator/ServiceRegistrar.cs:42-53 | registering a type's handler interfaces only appends to the collection |
| ServiceRegistrar.AddTypes | src/ETPackages.Mediator/ServiceRegistrar.cs:27-53 | scanning an assembly's types only appends to the collection |
| ServiceRegistrar.AddAssemblies | src/ETPackages.Mediator/ServiceRegistrar.cs:25-54 | scanning the assemblies only appends, and can only fail with a null reference |
| ServiceRegistrar.AddBehaviors | src/ETPackages.Mediator/ServiceRegistrar.cs:56-68 | registering the behaviors only appends to the collection |
| ServiceRegistrar.AddMediatorSpec | src/ETPackages.Mediator/ServiceRegistrar.cs:10-71 | AddMediator only appends; a null configureOptions fails with ArgumentNull("configureOptions") before anything is added |
| ServiceRegistrar.TryAddConsistent | src/ETPackages.Mediator/ServiceRegistrar.cs:47 | TryAdd keeps every service registered at most once when it was before |
| ServiceRegistrar.TryAddEnumerableConsistent | src/ETPackages.Mediator/ServiceRegistrar.cs:51 | TryAddEnumerable of a notification handler or behavior keeps every single-instance service registered at most once |
| ServiceRegistrar.AddMediatorConsistent | src/ETPackages.Mediator/ServiceRegistrar.cs:10-71 | AddMediator never registers the mediator, the publisher or a request-handler interface twice |
| ServiceRegistrar.AddTypesSound | src/ETPackages.Mediator/ServiceRegistrar.cs:27-40 | every descriptor added by a scan is a handler interface of a concrete type of the assembly, with that type as implementation |
| ServiceRegistrar.AddBehaviorsSound | src/ETPackages.Mediator/ServiceRegistrar.cs:56-67 | every descriptor added for behaviors is a configured behavior under the pipeline interface of its arity |
| ServiceRegistrar.AddMediatorSound | src/ETPackages.Mediator/ServiceRegistrar.cs:21-67 | every descriptor AddMediator adds is the publisher, the mediator, a scanned handler or a configured behavior, all with the configured lifetime |
| ServiceRegistrar.FirstRegistrationWins | src/ETPackages.Mediator/ServiceRegistrar.cs:21-23 | a single-instance service already in the collection keeps its existing descriptors: AddMediator adds none for it |
| ServiceRegistrar.AddInterfacesComplete | src/ETPackages.Mediator/ServiceRegistrar.cs:42-53 | afterwards every request-handler interface of the type is registered, and every notification-handler interface is registered with that type |
| ServiceRegistrar.AddAssembliesComplete | src/ETPackages.Mediator/ServiceRegistrar.cs:25-54 | the scan succeeds exactly when no assembly is null, and then every handler interface of every concrete type is registered |
| ServiceRegistrar.AddBehaviorsComplete | src/ETPackages.Mediator/ServiceRegistrar.cs:56-68 | succeeds exactly when every behavior is non-null with one or two generic arguments, and then each one is registered |
| ServiceRegistrar.AddMediatorComplete | src/ETPackages.Mediator/ServiceRegistrar.cs:10-71 | AddMediator succeeds exactly when the publisher is non-null, no assembly is null and every behavior is valid, and then publisher, mediator, all handlers and all behaviors are registered |
| ServiceRegistrar.BehaviorsInOrder | src/ETPackages.Mediator/ServiceRegistrar.cs:56-68 | distinct, new behaviors are appended in configuration order, one descriptor each |
| ServiceRegistrar.BehaviorFailureIsFinal | src/ETPackages.Mediator/ServiceRegistrar.cs:58-65 | the first invalid behavior (null, or of another arity) decides the error; the behaviors before it stay registered and the later ones are never added |
| ServiceRegistrar.ServiceCollection.TryAdd | src/ETPackages.Mediator/ServiceRegistrar.cs:21 | the search loop updates the collection as TryAddResult says |
| ServiceRegistrar.ServiceCollection.TryAddEnumerable | src/ETPackages.Mediator/ServiceRegistrar.cs:67 | the search loop updates the collection as TryAddEnumerableResult says |
| ServiceRegistrar.RegisterInterfaces | src/ETPackages.Mediator/ServiceRegistrar.cs:42-53 | the loop over a type's interfaces leaves the collection AddInterfaces describes |
| ServiceRegistrar.RegisterTypes | src/ETPackages.Mediator/ServiceRegistrar.cs:27-53 | the loop over an assembly's types leaves the collection AddTypes describes |
| ServiceRegistrar.RegisterAssemblies | src/ETPackages.Mediator/ServiceRegistrar.cs:25-54 | the loop over the assemblies gives the outcome and collection AddAssemblies describes |
| ServiceRegistrar.RegisterBehaviors | src/ETPackages.Mediator/ServiceRegistrar.cs:56-68 | the loop over the behaviors gives the outcome and collection AddBehaviors describes |
| ServiceRegistrar.AddMediator | src/ETPackages.Mediator/ServiceRegistrar.cs:10-71 | runs the callback on a fresh configuration and registers as AddMediatorSpec describes; on success it returns the same collection |

## Left out

- TaskWhenAllPublisher (NotificationPublishers/TaskWhenAllPublisher.cs) is not part of this model because it is concurrent. Unlike ForeachAwaitPublisher, it does not skip null handlers. A null handler passes NotificationHandlerWrapper.Create, since casting null succeeds; the wrapper's async Handle then raises a NullReferenceException, which becomes a faulted task that Task.WhenAll rethrows after the other handlers have run.
- The publisher a Mediator is given is fixed to ForeachAwaitPublisher. The configuration records only the publisher's runtime type, which is what AddMediator registers.
- async and await, `Task`, and `ConfigureAwait` are left out: every call completes before the next starts, and an exception is a `Fail` outcome.
- CancellationToken is an opaque value passed through unchanged; no layer observes it here.
- Scopes are left out: `CreateScope` and its disposal, and the difference between the scoped provider (which resolves the handler) and the root provider (which resolves behaviors). One `Provider` serves both.
- Thread safety of `ConcurrentDictionary` is left out. `GetOrAdd` is sequential, and a factory that runs twice under a race is not modelled.
- Building the container from the service collection is left out, including closing open generic behaviors over a request type. The registrar's output and the provider a Mediator uses are not connected.
- Reflection is given, not computed: `MakeGenericType` is a `Type` constructor, and what `GetTypes`, `GetInterfaces` (in its order) and `GetGenericArguments` report is part of `TypeInfo`. `ReflectionTypeLoadException` from `GetTypes` is left out.
- Activator.CreateInstance in the wrapper creations wraps a failed cast in TargetInvocationException. The model gives `InvalidCast` without the wrapping.
- The `(TRequest)` and `(TNotification)` casts of the payload inside the wrappers are left out. The wrapper is keyed by the payload's runtime type, so the cast holds except when a stale shared cache entry already makes creation fail.
- `TryAddEnumerable` throws `ArgumentException` when the implementation type is `object` or the service type itself. That check is left out.
- Service lifetimes are opaque values copied into the descriptors. Their effect on instance sharing belongs to the container.
- Provider.GetRequiredService: weaker than "exactly one handler". It returns the last registration, as the container does; AddMediatorConsistent shows AddMediator never registers a request handler twice.
- The `configureOptions` delegate is the sequence of configuration calls it makes. Exceptions it throws itself and any other side effects it has are not modelled.
- ApplyCallsFailsOnNullArray (Configuration): its "exactly when" covers only the exceptions raised by the configuration's own methods; a callback that throws on its own account is not modelled.
- HandlerRunsOnceIffAllProceed (RequestHandlerWrapper): a behavior is a `Step` (Abstractions), which either calls `next` once or returns without calling it. A C# behavior may await `next` more than once, to retry say, and each call runs the rest of the pipeline and the handler again. That is not modelled, so "exactly once" is proved only for behaviors that call `next` at most once.
