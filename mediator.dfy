/** Mediator: Send (with and without a response) and Publish, dispatching through
    the provider and the process-wide type caches. */
module Mediator {
  import opened Abstractions
  import opened TypeCaches
  import opened RequestHandlerWrapper
  import opened NotificationHandlerWrapper
  import opened ForeachAwaitPublisher

  /** A request dispatch: what it produced, and the request-handler interface cache
      and the request wrapper cache after it. */
  datatype Sent<R> = Sent(run: Run<R>, handlerTypes: map<Type, Type>, wrapperTypes: map<Type, Type>)

  /** A publish: the handler list handed to the publisher, the fan-out it produced,
      and the notification-handler interface cache and the notification wrapper
      cache after it. */
  datatype Published = Published(handed: seq<Option<Instance>>, fanout: Fanout,
                                 handlerTypes: map<Type, Type>, wrapperTypes: map<Type, Type>)

  /** Send<TResponse>, over the cache contents it starts from. */
  function SendTyped(provider: Provider, handlerTypes: map<Type, Type>, wrapperTypes: map<Type, Type>,
                     request: Option<Payload>, responseType: Type, token: Token): Sent<Value>
  {
    match request
    case None => Sent(Run([], Fail(ArgumentNull("request"))), handlerTypes, wrapperTypes)
    case Some(req) =>
      var requestType := req.runtimeType;
      var created := RequestHandlerInterface(requestType, responseType);
      var newHandlerTypes := CacheInsert(handlerTypes, requestType, created);
      match provider.GetRequiredService(CacheLookup(handlerTypes, requestType, created))
      case Fail(e) => Sent(Run([], Fail(e)), newHandlerTypes, wrapperTypes)
      case Ok(handler) =>
        var wrapper := RequestWrapperType(requestType, responseType);
        var newWrapperTypes := CacheInsert(wrapperTypes, requestType, wrapper);
        match ActivateTyped(CacheLookup(wrapperTypes, requestType, wrapper), handler, responseType)
        case Fail(e) => Sent(Run([], Fail(e)), newHandlerTypes, newWrapperTypes)
        case Ok(w) => Sent(HandleTyped(w, req, provider, token), newHandlerTypes, newWrapperTypes)
  }

  /** Send without a response, over the cache contents it starts from. It uses the
      same two caches as Send<TResponse>. */
  function SendVoid(provider: Provider, handlerTypes: map<Type, Type>, wrapperTypes: map<Type, Type>,
                    request: Option<Payload>, token: Token): Sent<()>
  {
    match request
    case None => Sent(Run([], Fail(ArgumentNull("request"))), handlerTypes, wrapperTypes)
    case Some(req) =>
      var requestType := req.runtimeType;
      var created := VoidRequestHandlerInterface(requestType);
      var newHandlerTypes := CacheInsert(handlerTypes, requestType, created);
      match provider.GetRequiredService(CacheLookup(handlerTypes, requestType, created))
      case Fail(e) => Sent(Run([], Fail(e)), newHandlerTypes, wrapperTypes)
      case Ok(handler) =>
        var wrapper := VoidRequestWrapperType(requestType);
        var newWrapperTypes := CacheInsert(wrapperTypes, requestType, wrapper);
        match ActivateVoid(CacheLookup(wrapperTypes, requestType, wrapper), handler)
        case Fail(e) => Sent(Run([], Fail(e)), newHandlerTypes, newWrapperTypes)
        case Ok(w) => Sent(HandleVoid(w, req, provider, token), newHandlerTypes, newWrapperTypes)
  }

  /** Publish with ForeachAwaitPublisher, over the cache contents it starts from.
      A null notification fails on its GetType, before anything else. */
  function PublishSpec(provider: Provider, handlerTypes: map<Type, Type>, wrapperTypes: map<Type, Type>,
                       notification: Option<Payload>, token: Token): Published
  {
    match notification
    case None => Published([], Fanout([], Fail(NullReference)), handlerTypes, wrapperTypes)
    case Some(n) =>
      var notificationType := n.runtimeType;
      var created := NotificationHandlerInterface(notificationType);
      var services := provider.GetServices(CacheLookup(handlerTypes, notificationType, created));
      var wrapper := NotificationWrapperType(notificationType);
      Published(Present(services),
                Sequential(Present(services), CacheLookup(wrapperTypes, notificationType, wrapper), n, token),
                CacheInsert(handlerTypes, notificationType, created),
                if |services| == 0 then wrapperTypes else CacheInsert(wrapperTypes, notificationType, wrapper))
  }

  /** The factories the request caches are filled with by Send<TResponse> for one
      response type, and by Send without a response. */
  function TypedInterfaceFactory(responseType: Type): Type -> Type
  {
    rt => RequestHandlerInterface(rt, responseType)
  }

  function TypedWrapperFactory(responseType: Type): Type -> Type
  {
    rt => RequestWrapperType(rt, responseType)
  }

  // ---------------------------------------------------------------------------
  // Properties of a dispatch
  // ---------------------------------------------------------------------------

  /** While only Send<TResponse> for one response type has filled the caches, Send
      resolves the last registered IRequestHandler<TRequest, TResponse>, runs the
      pipeline of the behaviors registered for that pair around it, and keeps the
      caches filled that way. */
  lemma CoherentSendRunsHandler(provider: Provider, handlerTypes: map<Type, Type>, wrapperTypes: map<Type, Type>,
                                req: Payload, responseType: Type, token: Token)
    requires Coherent(handlerTypes, TypedInterfaceFactory(responseType))
    requires Coherent(wrapperTypes, TypedWrapperFactory(responseType))
    requires |provider.GetServices(RequestHandlerInterface(req.runtimeType, responseType))| > 0
    requires AsRequestHandler(provider.GetRequiredService(RequestHandlerInterface(req.runtimeType, responseType)).value,
                              req.runtimeType, responseType).Some?
    ensures var handler := provider.GetRequiredService(RequestHandlerInterface(req.runtimeType, responseType)).value;
            (SendTyped(provider, handlerTypes, wrapperTypes, Some(req), responseType, token).run
             == HandleTyped(TypedWrapper(req.runtimeType, responseType, handler.code.respond), req, provider, token))
    ensures Coherent(SendTyped(provider, handlerTypes, wrapperTypes, Some(req), responseType, token).handlerTypes,
                     TypedInterfaceFactory(responseType))
    ensures Coherent(SendTyped(provider, handlerTypes, wrapperTypes, Some(req), responseType, token).wrapperTypes,
                     TypedWrapperFactory(responseType))
  {
    var rt := req.runtimeType;
    CoherentGetOrAdd(handlerTypes, TypedInterfaceFactory(responseType), rt);
    CoherentGetOrAdd(wrapperTypes, TypedWrapperFactory(responseType), rt);
  }

  /** While only Send without a response has filled the caches, it resolves the last
      registered IRequestHandler<TRequest>, runs the pipeline of the void behaviors
      registered for that request type around it, and keeps the caches filled that way. */
  lemma CoherentVoidSendRunsHandler(provider: Provider, handlerTypes: map<Type, Type>, wrapperTypes: map<Type, Type>,
                                    req: Payload, token: Token)
    requires Coherent(handlerTypes, VoidRequestHandlerInterface)
    requires Coherent(wrapperTypes, VoidRequestWrapperType)
    requires |provider.GetServices(VoidRequestHandlerInterface(req.runtimeType))| > 0
    requires AsVoidRequestHandler(provider.GetRequiredService(VoidRequestHandlerInterface(req.runtimeType)).value,
                                  req.runtimeType).Some?
    ensures var handler := provider.GetRequiredService(VoidRequestHandlerInterface(req.runtimeType)).value;
            (SendVoid(provider, handlerTypes, wrapperTypes, Some(req), token).run
             == HandleVoid(VoidWrapper(req.runtimeType, handler.code.complete), req, provider, token))
    ensures Coherent(SendVoid(provider, handlerTypes, wrapperTypes, Some(req), token).handlerTypes,
                     VoidRequestHandlerInterface)
    ensures Coherent(SendVoid(provider, handlerTypes, wrapperTypes, Some(req), token).wrapperTypes,
                     VoidRequestWrapperType)
  {
    var rt := req.runtimeType;
    CoherentGetOrAdd(handlerTypes, VoidRequestHandlerInterface, rt);
    CoherentGetOrAdd(wrapperTypes, VoidRequestWrapperType, rt);
  }

  /** A null request is rejected before any cache is consulted or anything is
      resolved, by both overloads. */
  lemma NullRequestRejected(provider: Provider, handlerTypes: map<Type, Type>, wrapperTypes: map<Type, Type>,
                            responseType: Type, token: Token)
    ensures SendTyped(provider, handlerTypes, wrapperTypes, None, responseType, token)
         == Sent(Run([], Fail(ArgumentNull("request"))), handlerTypes, wrapperTypes)
    ensures SendVoid(provider, handlerTypes, wrapperTypes, None, token)
         == Sent(Run([], Fail(ArgumentNull("request"))), handlerTypes, wrapperTypes)
  {
  }

  /** Neither Send changes or removes a request cache entry; the wrapper cache gains
      an entry only once a handler was resolved. */
  lemma SendOnlyExtendsCaches(provider: Provider, handlerTypes: map<Type, Type>, wrapperTypes: map<Type, Type>,
                              req: Payload, responseType: Type, token: Token)
    ensures var d := SendTyped(provider, handlerTypes, wrapperTypes, Some(req), responseType, token);
            && Extends(handlerTypes, d.handlerTypes) && Extends(wrapperTypes, d.wrapperTypes)
            && (d.wrapperTypes != wrapperTypes ==>
                  provider.GetRequiredService(CacheLookup(handlerTypes, req.runtimeType,
                                                          RequestHandlerInterface(req.runtimeType, responseType))).Ok?)
    ensures var d := SendVoid(provider, handlerTypes, wrapperTypes, Some(req), token);
            && Extends(handlerTypes, d.handlerTypes) && Extends(wrapperTypes, d.wrapperTypes)
            && (d.wrapperTypes != wrapperTypes ==>
                  provider.GetRequiredService(CacheLookup(handlerTypes, req.runtimeType,
                                                          VoidRequestHandlerInterface(req.runtimeType))).Ok?)
  {
    var rt := req.runtimeType;
    CacheInsertExtends(handlerTypes, rt, RequestHandlerInterface(rt, responseType));
    CacheInsertExtends(wrapperTypes, rt, RequestWrapperType(rt, responseType));
    CacheInsertExtends(handlerTypes, rt, VoidRequestHandlerInterface(rt));
    CacheInsertExtends(wrapperTypes, rt, VoidRequestWrapperType(rt));
  }

  /** Publish changes or removes no notification cache entry either. */
  lemma PublishOnlyExtendsCaches(provider: Provider, handlerTypes: map<Type, Type>, wrapperTypes: map<Type, Type>,
                                 notification: Option<Payload>, token: Token)
    ensures var p := PublishSpec(provider, handlerTypes, wrapperTypes, notification, token);
            Extends(handlerTypes, p.handlerTypes) && Extends(wrapperTypes, p.wrapperTypes)
  {
    if notification.Some? {
      var nt := notification.value.runtimeType;
      CacheInsertExtends(handlerTypes, nt, NotificationHandlerInterface(nt));
      CacheInsertExtends(wrapperTypes, nt, NotificationWrapperType(nt));
    }
  }

  /** With no handler registered for the interface the cache yields, Send fails with
      the provider's error before any behavior runs and leaves the wrapper cache alone. */
  lemma MissingHandlerFails(provider: Provider, handlerTypes: map<Type, Type>, wrapperTypes: map<Type, Type>,
                            req: Payload, responseType: Type, token: Token)
    requires |provider.GetServices(CacheLookup(handlerTypes, req.runtimeType,
                                               RequestHandlerInterface(req.runtimeType, responseType)))| == 0
    ensures SendTyped(provider, handlerTypes, wrapperTypes, Some(req), responseType, token)
         == Sent(Run([], Fail(ServiceNotFound(CacheLookup(handlerTypes, req.runtimeType,
                                                          RequestHandlerInterface(req.runtimeType, responseType))))),
                 CacheInsert(handlerTypes, req.runtimeType, RequestHandlerInterface(req.runtimeType, responseType)),
                 wrapperTypes)
  {
  }

  /** Likewise for Send without a response: with no IRequestHandler<TRequest> behind
      the interface the cache yields, it fails with the provider's error before any
      behavior runs and leaves the wrapper cache alone. */
  lemma VoidMissingHandlerFails(provider: Provider, handlerTypes: map<Type, Type>, wrapperTypes: map<Type, Type>,
                                req: Payload, token: Token)
    requires |provider.GetServices(CacheLookup(handlerTypes, req.runtimeType,
                                               VoidRequestHandlerInterface(req.runtimeType)))| == 0
    ensures SendVoid(provider, handlerTypes, wrapperTypes, Some(req), token)
         == Sent(Run([], Fail(ServiceNotFound(CacheLookup(handlerTypes, req.runtimeType,
                                                          VoidRequestHandlerInterface(req.runtimeType))))),
                 CacheInsert(handlerTypes, req.runtimeType, VoidRequestHandlerInterface(req.runtimeType)),
                 wrapperTypes)
  {
  }

  /** The request caches are keyed by the request type alone and shared by both
      overloads: once Send without a response has seen a request type, a later
      Send<TResponse> for an object of the same runtime type fails, whatever the
      response type and whatever is registered. */
  lemma VoidThenTypedFails(provider: Provider, handlerTypes: map<Type, Type>, wrapperTypes: map<Type, Type>,
                           first: Payload, second: Payload, responseType: Type, token: Token, laterToken: Token)
    requires first.runtimeType == second.runtimeType
    requires first.runtimeType !in handlerTypes && first.runtimeType !in wrapperTypes
    ensures var after := SendVoid(provider, handlerTypes, wrapperTypes, Some(first), token);
            var again := SendTyped(provider, after.handlerTypes, after.wrapperTypes, Some(second), responseType, laterToken);
            (|| again.run.outcome == Fail(ServiceNotFound(VoidRequestHandlerInterface(first.runtimeType)))
             || again.run.outcome == Fail(InvalidCast))
  {
    var rt := first.runtimeType;
    var after := SendVoid(provider, handlerTypes, wrapperTypes, Some(first), token);
    assert after.handlerTypes[rt] == VoidRequestHandlerInterface(rt);
    if provider.GetRequiredService(VoidRequestHandlerInterface(rt)).Ok? {
      assert after.wrapperTypes[rt] == VoidRequestWrapperType(rt);
    }
  }

  /** Likewise for two response types: the first Send<TResponse> for a request type
      decides the response type of every later one for that request type. */
  lemma OtherResponseFails(provider: Provider, handlerTypes: map<Type, Type>, wrapperTypes: map<Type, Type>,
                           first: Payload, second: Payload, responseType: Type, otherResponse: Type,
                           token: Token, laterToken: Token)
    requires first.runtimeType == second.runtimeType && responseType != otherResponse
    requires first.runtimeType !in handlerTypes && first.runtimeType !in wrapperTypes
    ensures var after := SendTyped(provider, handlerTypes, wrapperTypes, Some(first), responseType, token);
            var again := SendTyped(provider, after.handlerTypes, after.wrapperTypes, Some(second), otherResponse, laterToken);
            (|| again.run.outcome == Fail(ServiceNotFound(RequestHandlerInterface(first.runtimeType, responseType)))
             || again.run.outcome == Fail(InvalidCast))
  {
    var rt := first.runtimeType;
    var after := SendTyped(provider, handlerTypes, wrapperTypes, Some(first), responseType, token);
    assert after.handlerTypes[rt] == RequestHandlerInterface(rt, responseType);
    if provider.GetRequiredService(RequestHandlerInterface(rt, responseType)).Ok? {
      assert after.wrapperTypes[rt] == RequestWrapperType(rt, responseType);
    }
  }

  /** Publishing goes to exactly the handlers the provider resolves for the cached
      interface, in registration order, none of them null; with none registered it
      succeeds, calls nothing and leaves the wrapper cache alone. */
  lemma PublishHandsResolvedHandlers(provider: Provider, handlerTypes: map<Type, Type>, wrapperTypes: map<Type, Type>,
                                     n: Payload, token: Token)
    ensures var p := PublishSpec(provider, handlerTypes, wrapperTypes, Some(n), token);
            var services := provider.GetServices(CacheLookup(handlerTypes, n.runtimeType, NotificationHandlerInterface(n.runtimeType)));
            && |p.handed| == |services|
            && (forall i | 0 <= i < |services| :: p.handed[i] == Some(services[i]))
            && (|services| == 0 ==> p.fanout == Fanout([], Ok(())) && p.wrapperTypes == wrapperTypes)
  {
    var services := provider.GetServices(CacheLookup(handlerTypes, n.runtimeType, NotificationHandlerInterface(n.runtimeType)));
    if |services| == 0 {
      NoHandlersNoCalls(Present(services), CacheLookup(wrapperTypes, n.runtimeType, NotificationWrapperType(n.runtimeType)), n, token);
    }
  }

  /** While the notification caches hold only what Publish puts there, publishing to
      handlers that all implement INotificationHandler<T> for the notification's T
      and all complete calls every one of them once, in registration order, and
      succeeds; the caches stay that way. */
  lemma CoherentPublishCallsAll(provider: Provider, handlerTypes: map<Type, Type>, wrapperTypes: map<Type, Type>,
                                n: Payload, token: Token)
    requires Coherent(handlerTypes, NotificationHandlerInterface)
    requires Coherent(wrapperTypes, NotificationWrapperType)
    requires var services := provider.GetServices(NotificationHandlerInterface(n.runtimeType));
             forall i | 0 <= i < |services| ::
               && AsNotificationHandler(services[i], n.runtimeType).Some?
               && services[i].code.notify(n, token).Ok?
    ensures var p := PublishSpec(provider, handlerTypes, wrapperTypes, Some(n), token);
            && p.fanout.outcome == Ok(())
            && p.fanout.invoked == NonNullIndices(p.handed)
            && Coherent(p.handlerTypes, NotificationHandlerInterface)
            && Coherent(p.wrapperTypes, NotificationWrapperType)
  {
    var nt := n.runtimeType;
    CoherentGetOrAdd(handlerTypes, NotificationHandlerInterface, nt);
    CoherentGetOrAdd(wrapperTypes, NotificationWrapperType, nt);
    var services := provider.GetServices(NotificationHandlerInterface(nt));
    var handed := Present(services);
    var wrapperType := NotificationWrapperType(nt);
    assert NoneFails(handed, wrapperType, n, token) by {
      forall j | 0 <= j < |handed| && handed[j].Some?
        ensures StepOutcome(handed[j].value, wrapperType, n, token).Ok?
      {
        assert handed[j].value == services[j];
      }
    }
    SucceedsIffNoneFails(handed, wrapperType, n, token);
    var out := Sequential(handed, wrapperType, n, token).outcome;
    assert out == Ok(out.value) && out.value == ();
  }

  // ---------------------------------------------------------------------------
  // The mediator object
  // ---------------------------------------------------------------------------

  /** Mediator(serviceProvider, notificationPublisher) with ForeachAwaitPublisher as
      its publisher. The four caches are static in the library: every mediator of
      the process shares them, so they are handed in rather than created here. */
  class Mediator {
    const provider: Provider
    const requestHandlerTypes: TypeCache       // Mediator.RequestHandlerTypeDictionary
    const notificationHandlerTypes: TypeCache  // Mediator.NotificationHandlerTypeDictionary
    const requestWrapperTypes: TypeCache       // RequestHandlerWrapperBase.WrapperTypeDictionary
    const notificationWrapperTypes: TypeCache  // NotificationHandlerWrapper.WrapperTypeDictionary

    /** The four caches are four different dictionaries. */
    predicate Valid()
    {
      && requestHandlerTypes != notificationHandlerTypes
      && requestHandlerTypes != requestWrapperTypes
      && requestHandlerTypes != notificationWrapperTypes
      && notificationHandlerTypes != requestWrapperTypes
      && notificationHandlerTypes != notificationWrapperTypes
      && requestWrapperTypes != notificationWrapperTypes
    }

    constructor (provider: Provider, requestHandlerTypes: TypeCache, notificationHandlerTypes: TypeCache,
                 requestWrapperTypes: TypeCache, notificationWrapperTypes: TypeCache)
      requires requestHandlerTypes != notificationHandlerTypes && requestHandlerTypes != requestWrapperTypes
      requires requestHandlerTypes != notificationWrapperTypes && notificationHandlerTypes != requestWrapperTypes
      requires notificationHandlerTypes != notificationWrapperTypes && requestWrapperTypes != notificationWrapperTypes
      ensures Valid()
      ensures this.provider == provider
      ensures this.requestHandlerTypes == requestHandlerTypes && this.notificationHandlerTypes == notificationHandlerTypes
      ensures this.requestWrapperTypes == requestWrapperTypes && this.notificationWrapperTypes == notificationWrapperTypes
    {
      this.provider := provider;
      this.requestHandlerTypes := requestHandlerTypes;
      this.notificationHandlerTypes := notificationHandlerTypes;
      this.requestWrapperTypes := requestWrapperTypes;
      this.notificationWrapperTypes := notificationWrapperTypes;
    }

    /** Send<TResponse>(request, cancellationToken). */
    method Send(request: Option<Payload>, responseType: Type, token: Token) returns (r: Run<Value>)
      requires Valid()
      modifies requestHandlerTypes, requestWrapperTypes
      ensures var d := SendTyped(provider, old(requestHandlerTypes.entries), old(requestWrapperTypes.entries),
                                 request, responseType, token);
              && r == d.run
              && requestHandlerTypes.entries == d.handlerTypes
              && requestWrapperTypes.entries == d.wrapperTypes
    {
      if request.None? {
        return Run([], Fail(ArgumentNull("request")));
      }
      var requestType := request.value.runtimeType;
      var interfaceType := requestHandlerTypes.GetOrAdd(requestType, rt => RequestHandlerInterface(rt, responseType));
      var handler := provider.GetRequiredService(interfaceType);
      if handler.Fail? {
        return Run([], Fail(handler.error));
      }
      var wrapper := CreateTyped(requestWrapperTypes, handler.value, requestType, responseType);
      if wrapper.Fail? {
        return Run([], Fail(wrapper.error));
      }
      r := HandleTyped(wrapper.value, request.value, provider, token);
    }

    /** Send(request, cancellationToken), for a request without a response. */
    method SendVoidRequest(request: Option<Payload>, token: Token) returns (r: Run<()>)
      requires Valid()
      modifies requestHandlerTypes, requestWrapperTypes
      ensures var d := SendVoid(provider, old(requestHandlerTypes.entries), old(requestWrapperTypes.entries),
                                request, token);
              && r == d.run
              && requestHandlerTypes.entries == d.handlerTypes
              && requestWrapperTypes.entries == d.wrapperTypes
    {
      if request.None? {
        return Run([], Fail(ArgumentNull("request")));
      }
      var requestType := request.value.runtimeType;
      var interfaceType := requestHandlerTypes.GetOrAdd(requestType, rt => VoidRequestHandlerInterface(rt));
      var handler := provider.GetRequiredService(interfaceType);
      if handler.Fail? {
        return Run([], Fail(handler.error));
      }
      var wrapper := CreateVoid(requestWrapperTypes, handler.value, requestType);
      if wrapper.Fail? {
        return Run([], Fail(wrapper.error));
      }
      r := HandleVoid(wrapper.value, request.value, provider, token);
    }

    /** Publish(notification, cancellationToken). */
    method Publish(notification: Option<Payload>, token: Token) returns (handed: seq<Option<Instance>>, r: Fanout)
      requires Valid()
      modifies notificationHandlerTypes, notificationWrapperTypes
      ensures var p := PublishSpec(provider, old(notificationHandlerTypes.entries), old(notificationWrapperTypes.entries),
                                   notification, token);
              && handed == p.handed
              && r == p.fanout
              && notificationHandlerTypes.entries == p.handlerTypes
              && notificationWrapperTypes.entries == p.wrapperTypes
    {
      if notification.None? {
        return [], Fanout([], Fail(NullReference));
      }
      var notificationType := notification.value.runtimeType;
      var interfaceType := notificationHandlerTypes.GetOrAdd(notificationType, nt => NotificationHandlerInterface(nt));
      var services := provider.GetServices(interfaceType);
      handed := Present(services);
      assert HasHandler(handed) <==> |services| > 0 by {
        if |services| > 0 {
          assert handed[0].Some?;
        }
      }
      r := ForeachAwaitPublisher.Publish(notificationWrapperTypes, handed, notification.value, token);
    }
  }
}
