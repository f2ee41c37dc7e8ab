/** RequestHandlerWrapper and its two implementations: the cached creation of a
    wrapper for a request type, and the pipeline that folds the resolved
    behaviors around the request handler. */
module RequestHandlerWrapper {
  import opened Abstractions
  import opened TypeCaches

  // ---------------------------------------------------------------------------
  // Pipeline composition
  // ---------------------------------------------------------------------------

  /** A resolved pipeline behavior: its class (to name it in a trace) and its Handle. */
  datatype Layer<!R> = Layer(id: Type, intercept: (Payload, Token) -> Step<R>)

  /** A RequestHandlerDelegate, defunctionalised: the terminal delegate calls the
      handler, and each delegate the fold builds calls one behavior with the
      delegate built before it as `next`. Both capture the request and the token. */
  datatype Delegate<!R> =
    | Terminal(handle: (Payload, Token) -> Outcome<R>, request: Payload, token: Token)
    | Wrapped(layer: Layer<R>, request: Payload, token: Token, next: Delegate<R>)

  /** Enumerable.Reverse. */
  function Reverse<T>(s: seq<T>): (r: seq<T>)
    ensures |r| == |s|
    ensures forall i | 0 <= i < |s| :: r[i] == s[|s| - 1 - i]
  {
    if s == [] then [] else Reverse(s[1..]) + [s[0]]
  }

  /** Enumerable.Aggregate with the fold step of Handle: each behavior wraps the
      accumulated delegate. */
  function Aggregate<R>(layers: seq<Layer<R>>, seed: Delegate<R>, request: Payload, token: Token): Delegate<R>
    decreases |layers|
  {
    if layers == [] then seed
    else Aggregate(layers[1..], Wrapped(layers[0], request, token, seed), request, token)
  }

  /** The pipeline Handle builds: the behaviors, reversed, folded around the terminal delegate. */
  function Compose<R>(layers: seq<Layer<R>>, handle: (Payload, Token) -> Outcome<R>, request: Payload, token: Token): Delegate<R>
  {
    Aggregate(Reverse(layers), Terminal(handle, request, token), request, token)
  }

  /** Invoking a delegate (`await pipeline()`): a behavior's `next` runs only if
      the behavior proceeds. */
  function Invoke<R>(d: Delegate<R>): Run<R>
  {
    match d
    case Terminal(handle, request, token) =>
      Run([Handled(request, token)], handle(request, token))
    case Wrapped(layer, request, token, next) =>
      match layer.intercept(request, token)
      case Return(result) =>
        Run([Enter(layer.id, request, token), Exit(layer.id)], result)
      case Proceed(after) =>
        var inner := Invoke(next);
        Run([Enter(layer.id, request, token)] + inner.trace + [Exit(layer.id)], after(inner.outcome))
  }

  /** The behaviors nested with the first one outermost. */
  function Nest<R>(layers: seq<Layer<R>>, seed: Delegate<R>, request: Payload, token: Token): Delegate<R>
    decreases |layers|
  {
    if layers == [] then seed
    else Wrapped(layers[0], request, token, Nest(layers[1..], seed, request, token))
  }

  /** The onion, stated directly as a right fold over the behaviors: the reference
      the composed pipeline is proved against. */
  function Chain<R>(layers: seq<Layer<R>>, handle: (Payload, Token) -> Outcome<R>, request: Payload, token: Token): Run<R>
    decreases |layers|
  {
    if layers == [] then Run([Handled(request, token)], handle(request, token))
    else
      match layers[0].intercept(request, token)
      case Return(result) =>
        Run([Enter(layers[0].id, request, token), Exit(layers[0].id)], result)
      case Proceed(after) =>
        var inner := Chain(layers[1..], handle, request, token);
        Run([Enter(layers[0].id, request, token)] + inner.trace + [Exit(layers[0].id)], after(inner.outcome))
  }

  lemma {:induction false} AggregateSnoc<R>(layers: seq<Layer<R>>, last: Layer<R>, seed: Delegate<R>, request: Payload, token: Token)
    ensures Aggregate(layers + [last], seed, request, token)
         == Wrapped(last, request, token, Aggregate(layers, seed, request, token))
    decreases |layers|
  {
    if layers == [] {
      assert [last][1..] == [];
    } else {
      assert (layers + [last])[1..] == layers[1..] + [last];
      AggregateSnoc(layers[1..], last, Wrapped(layers[0], request, token, seed), request, token);
    }
  }

  /** Reverse-then-Aggregate nests the behaviors with the first-resolved outermost. */
  lemma {:induction false} AggregateReverseNests<R>(layers: seq<Layer<R>>, seed: Delegate<R>, request: Payload, token: Token)
    ensures Aggregate(Reverse(layers), seed, request, token) == Nest(layers, seed, request, token)
    decreases |layers|
  {
    if layers != [] {
      assert Reverse(layers) == Reverse(layers[1..]) + [layers[0]];
      AggregateSnoc(Reverse(layers[1..]), layers[0], seed, request, token);
      AggregateReverseNests(layers[1..], seed, request, token);
    }
  }

  lemma {:induction false} InvokeNest<R>(layers: seq<Layer<R>>, handle: (Payload, Token) -> Outcome<R>, request: Payload, token: Token)
    ensures Invoke(Nest(layers, Terminal(handle, request, token), request, token)) == Chain(layers, handle, request, token)
    decreases |layers|
  {
    if layers != [] {
      InvokeNest(layers[1..], handle, request, token);
    }
  }

  /** The first resolved behavior is the outermost delegate, and the rest are nested inside it in order. */
  lemma FirstBehaviorOutermost<R>(layers: seq<Layer<R>>, handle: (Payload, Token) -> Outcome<R>, request: Payload, token: Token)
    requires |layers| > 0
    ensures Compose(layers, handle, request, token)
         == Wrapped(layers[0], request, token, Nest(layers[1..], Terminal(handle, request, token), request, token))
  {
    AggregateReverseNests(layers, Terminal(handle, request, token), request, token);
  }

  /** Running the composed pipeline is running the onion. */
  lemma ComposeIsChain<R>(layers: seq<Layer<R>>, handle: (Payload, Token) -> Outcome<R>, request: Payload, token: Token)
    ensures Invoke(Compose(layers, handle, request, token)) == Chain(layers, handle, request, token)
  {
    AggregateReverseNests(layers, Terminal(handle, request, token), request, token);
    InvokeNest(layers, handle, request, token);
  }

  // ---------------------------------------------------------------------------
  // What the onion does
  // ---------------------------------------------------------------------------

  /** Every behavior calls `next` for this request and token. */
  ghost predicate AllProceed<R>(layers: seq<Layer<R>>, request: Payload, token: Token)
  {
    forall i | 0 <= i < |layers| :: layers[i].intercept(request, token).Proceed?
  }

  function Enters<R>(layers: seq<Layer<R>>, request: Payload, token: Token): seq<Event>
  {
    seq(|layers|, i requires 0 <= i < |layers| => Enter(layers[i].id, request, token))
  }

  function ExitsInReverse<R>(layers: seq<Layer<R>>): seq<Event>
  {
    seq(|layers|, i requires 0 <= i < |layers| => Exit(layers[|layers| - 1 - i].id))
  }

  /** How many times the request handler ran. */
  function HandledCount(trace: seq<Event>): nat
  {
    if trace == [] then 0 else (if trace[0].Handled? then 1 else 0) + HandledCount(trace[1..])
  }

  lemma {:induction false} HandledCountAppend(a: seq<Event>, b: seq<Event>)
    ensures HandledCount(a + b) == HandledCount(a) + HandledCount(b)
    decreases |a|
  {
    if a != [] {
      assert (a + b)[1..] == a[1..] + b;
      HandledCountAppend(a[1..], b);
    } else {
      assert a + b == b;
    }
  }

  /** The outcomes of the behaviors' after-parts, applied from the innermost out. */
  function Unwind<R>(layers: seq<Layer<R>>, request: Payload, token: Token, inner: Outcome<R>): Outcome<R>
    requires AllProceed(layers, request, token)
    decreases |layers|
  {
    if layers == [] then inner
    else layers[0].intercept(request, token).after(Unwind(layers[1..], request, token, inner))
  }

  /** Every behavior proceeds, and none of them catches a failure of `next`. */
  ghost predicate RethrowAll<R>(layers: seq<Layer<R>>, request: Payload, token: Token)
  {
    && AllProceed(layers, request, token)
    && forall i, e | 0 <= i < |layers| :: layers[i].intercept(request, token).after(Fail(e)) == Fail(e)
  }

  /** The handler runs exactly once if every behavior calls `next`, and never otherwise. */
  lemma {:induction false} HandlerRunsOnceIffAllProceed<R>(layers: seq<Layer<R>>, handle: (Payload, Token) -> Outcome<R>, request: Payload, token: Token)
    ensures HandledCount(Chain(layers, handle, request, token).trace) == if AllProceed(layers, request, token) then 1 else 0
    decreases |layers|
  {
    if layers == [] {
      assert HandledCount([Handled(request, token)]) == 1;
    } else {
      var first := layers[0];
      assert AllProceed(layers, request, token) <==>
        first.intercept(request, token).Proceed? && AllProceed(layers[1..], request, token)
      by {
        if first.intercept(request, token).Proceed? && AllProceed(layers[1..], request, token) {
          forall i | 0 <= i < |layers| ensures layers[i].intercept(request, token).Proceed? {
            if i > 0 { assert layers[i] == layers[1..][i - 1]; }
          }
        }
        if AllProceed(layers, request, token) {
          forall i | 0 <= i < |layers[1..]| ensures layers[1..][i].intercept(request, token).Proceed? {
            assert layers[1..][i] == layers[i + 1];
          }
        }
      }
      match first.intercept(request, token)
      case Return(result) =>
        assert HandledCount([Exit(first.id)]) == 0;
      case Proceed(after) =>
        var inner := Chain(layers[1..], handle, request, token);
        HandlerRunsOnceIffAllProceed(layers[1..], handle, request, token);
        HandledCountAppend([Enter(first.id, request, token)] + inner.trace, [Exit(first.id)]);
        HandledCountAppend([Enter(first.id, request, token)], inner.trace);
        assert HandledCount([Exit(first.id)]) == 0;
    }
  }

  /** When every behavior calls `next`: each enters in resolution order, the handler
      runs, each exits in reverse order, and the outcome is the handler's outcome
      passed out through every behavior's after-part. */
  lemma {:induction false} AllProceedTrace<R>(layers: seq<Layer<R>>, handle: (Payload, Token) -> Outcome<R>, request: Payload, token: Token)
    requires AllProceed(layers, request, token)
    ensures Chain(layers, handle, request, token).trace
         == Enters(layers, request, token) + [Handled(request, token)] + ExitsInReverse(layers)
    ensures Chain(layers, handle, request, token).outcome == Unwind(layers, request, token, handle(request, token))
    decreases |layers|
  {
    if layers != [] {
      assert AllProceed(layers[1..], request, token) by {
        forall i | 0 <= i < |layers[1..]| ensures layers[1..][i].intercept(request, token).Proceed? {
          assert layers[1..][i] == layers[i + 1];
        }
      }
      AllProceedTrace(layers[1..], handle, request, token);
      assert Enters(layers, request, token) == [Enter(layers[0].id, request, token)] + Enters(layers[1..], request, token);
      assert ExitsInReverse(layers) == ExitsInReverse(layers[1..]) + [Exit(layers[0].id)];
    }
  }

  /** When the behavior at `k` returns without calling `next` while all before it
      proceed: only the first k + 1 behaviors run, the handler never runs, and the
      outcome is that behavior's result passed out through the outer behaviors. */
  lemma {:induction false} ShortCircuitTrace<R>(layers: seq<Layer<R>>, handle: (Payload, Token) -> Outcome<R>, request: Payload, token: Token, k: nat)
    requires k < |layers|
    requires AllProceed(layers[..k], request, token)
    requires layers[k].intercept(request, token).Return?
    ensures Chain(layers, handle, request, token).trace
         == Enters(layers[..k + 1], request, token) + [Exit(layers[k].id)] + ExitsInReverse(layers[..k])
    ensures Chain(layers, handle, request, token).outcome
         == Unwind(layers[..k], request, token, layers[k].intercept(request, token).result)
    decreases k
  {
    if k > 0 {
      var rest := layers[1..];
      assert rest[..k - 1] == layers[1..k];
      assert rest[k - 1] == layers[k];
      assert layers[..k][0] == layers[0];
      assert layers[..k][1..] == rest[..k - 1];
      assert layers[0].intercept(request, token).Proceed?;
      var inner := rest[..k - 1];
      assert AllProceed(inner, request, token) by {
        forall i | 0 <= i < |inner| ensures inner[i].intercept(request, token).Proceed? {
          assert inner[i] == layers[..k][i + 1];
        }
      }
      ShortCircuitTrace(rest, handle, request, token, k - 1);
      assert layers[..k + 1][1..] == rest[..k];
      assert Enters(layers[..k + 1], request, token)
          == [Enter(layers[0].id, request, token)] + Enters(rest[..k], request, token);
      assert ExitsInReverse(layers[..k]) == ExitsInReverse(rest[..k - 1]) + [Exit(layers[0].id)];
    } else {
      assert Enters(layers[..1], request, token) == [Enter(layers[0].id, request, token)];
    }
  }

  /** Failures pass through a behavior that does not catch them. */
  lemma {:induction false} UnwindRethrows<R>(layers: seq<Layer<R>>, request: Payload, token: Token, e: Error)
    requires RethrowAll(layers, request, token)
    ensures Unwind(layers, request, token, Fail(e)) == Fail(e)
    decreases |layers|
  {
    if layers != [] {
      assert RethrowAll(layers[1..], request, token) by {
        forall i | 0 <= i < |layers[1..]| ensures layers[1..][i].intercept(request, token).Proceed? {
          assert layers[1..][i] == layers[i + 1];
        }
        forall i, other | 0 <= i < |layers[1..]| ensures layers[1..][i].intercept(request, token).after(Fail(other)) == Fail(other) {
          assert layers[1..][i] == layers[i + 1];
        }
      }
      UnwindRethrows(layers[1..], request, token, e);
      assert layers[0].intercept(request, token).after(Fail(e)) == Fail(e);
    }
  }

  /** The pipeline adds no try/catch: a handler failure reaches the caller unchanged
      through behaviors that do not catch it. */
  lemma HandlerFailurePropagates<R>(layers: seq<Layer<R>>, handle: (Payload, Token) -> Outcome<R>, request: Payload, token: Token, e: Error)
    requires RethrowAll(layers, request, token)
    requires handle(request, token) == Fail(e)
    ensures Invoke(Compose(layers, handle, request, token)).outcome == Fail(e)
  {
    ComposeIsChain(layers, handle, request, token);
    AllProceedTrace(layers, handle, request, token);
    UnwindRethrows(layers, request, token, e);
  }

  /** Every behavior and the handler receive the request and the token Handle was given. */
  lemma {:induction false} SameRequestAndToken<R>(layers: seq<Layer<R>>, handle: (Payload, Token) -> Outcome<R>, request: Payload, token: Token)
    ensures forall ev | ev in Invoke(Compose(layers, handle, request, token)).trace ::
      (ev.Enter? || ev.Handled?) ==> ev.request == request && ev.token == token
  {
    ComposeIsChain(layers, handle, request, token);
    ChainCarries(layers, handle, request, token);
  }

  lemma {:induction false} ChainCarries<R>(layers: seq<Layer<R>>, handle: (Payload, Token) -> Outcome<R>, request: Payload, token: Token)
    ensures forall ev | ev in Chain(layers, handle, request, token).trace ::
      (ev.Enter? || ev.Handled?) ==> ev.request == request && ev.token == token
    decreases |layers|
  {
    if layers != [] {
      ChainCarries(layers[1..], handle, request, token);
    }
  }

  /** The trace Handle produces for behaviors [A, B, C] that all call `next`. */
  lemma ThreeBehaviorsTrace<R>(a: Layer<R>, b: Layer<R>, c: Layer<R>, handle: (Payload, Token) -> Outcome<R>, request: Payload, token: Token)
    requires a.intercept(request, token).Proceed?
    requires b.intercept(request, token).Proceed?
    requires c.intercept(request, token).Proceed?
    ensures Invoke(Compose([a, b, c], handle, request, token)).trace
         == [Enter(a.id, request, token), Enter(b.id, request, token), Enter(c.id, request, token),
             Handled(request, token), Exit(c.id), Exit(b.id), Exit(a.id)]
  {
    ComposeIsChain([a, b, c], handle, request, token);
    AllProceedTrace([a, b, c], handle, request, token);
  }

  // ---------------------------------------------------------------------------
  // The wrappers and their creation
  // ---------------------------------------------------------------------------

  /** RequestHandlerWrapperImplementation<TRequest, TResponse> around a handler. */
  datatype TypedWrapper = TypedWrapper(requestType: Type, responseType: Type, respond: (Payload, Token) -> Outcome<Value>)

  /** RequestHandlerWrapperImplementation<TRequest> around a handler. */
  datatype VoidWrapper = VoidWrapper(requestType: Type, complete: (Payload, Token) -> Outcome<()>)

  /** The cast (IRequestHandler<TRequest, TResponse>)handler. */
  function AsRequestHandler(o: Instance, requestType: Type, responseType: Type): Option<(Payload, Token) -> Outcome<Value>>
  {
    if RequestHandlerInterface(requestType, responseType) in o.interfaces && o.code.RespondCode?
    then Some(o.code.respond) else None
  }

  /** The cast (IRequestHandler<TRequest>)handler. */
  function AsVoidRequestHandler(o: Instance, requestType: Type): Option<(Payload, Token) -> Outcome<()>>
  {
    if VoidRequestHandlerInterface(requestType) in o.interfaces && o.code.CompleteCode?
    then Some(o.code.complete) else None
  }

  /** Activator.CreateInstance(wrapperType, handler) cast to RequestHandlerWrapper<TResponse>:
      it succeeds exactly when the cached wrapper type is the typed implementation
      for this response type and the handler implements the matching interface. */
  function ActivateTyped(wrapperType: Type, handler: Instance, responseType: Type): (r: Outcome<TypedWrapper>)
    ensures r.Ok? <==>
      && wrapperType.ClosedType? && wrapperType.definition == RequestWrapper
      && |wrapperType.arguments| == 2 && wrapperType.arguments[1] == responseType
      && AsRequestHandler(handler, wrapperType.arguments[0], responseType).Some?
    ensures r.Ok? ==>
      && wrapperType == RequestWrapperType(r.value.requestType, r.value.responseType)
      && r.value.responseType == responseType
      && AsRequestHandler(handler, r.value.requestType, responseType) == Some(r.value.respond)
    ensures r.Fail? ==> r.error == InvalidCast
  {
    if wrapperType.ClosedType? && wrapperType.definition == RequestWrapper && |wrapperType.arguments| == 2 then
      var requestType, wrappedResponse := wrapperType.arguments[0], wrapperType.arguments[1];
      match AsRequestHandler(handler, requestType, wrappedResponse)
      case None => Fail(InvalidCast)
      case Some(respond) =>
        if wrappedResponse == responseType then Ok(TypedWrapper(requestType, wrappedResponse, respond))
        else Fail(InvalidCast)
    else Fail(InvalidCast)
  }

  /** Activator.CreateInstance(wrapperType, handler) cast to RequestHandlerWrapper. */
  function ActivateVoid(wrapperType: Type, handler: Instance): (r: Outcome<VoidWrapper>)
    ensures r.Ok? <==>
      && wrapperType.ClosedType? && wrapperType.definition == VoidRequestWrapper
      && |wrapperType.arguments| == 1
      && AsVoidRequestHandler(handler, wrapperType.arguments[0]).Some?
    ensures r.Ok? ==>
      && wrapperType == VoidRequestWrapperType(r.value.requestType)
      && AsVoidRequestHandler(handler, r.value.requestType) == Some(r.value.complete)
    ensures r.Fail? ==> r.error == InvalidCast
  {
    if wrapperType.ClosedType? && wrapperType.definition == VoidRequestWrapper && |wrapperType.arguments| == 1 then
      match AsVoidRequestHandler(handler, wrapperType.arguments[0])
      case None => Fail(InvalidCast)
      case Some(complete) => Ok(VoidWrapper(wrapperType.arguments[0], complete))
    else Fail(InvalidCast)
  }

  /** RequestHandlerWrapper<TResponse>.Create: look the wrapper type up in the shared
      cache, keyed by the request type alone, then instantiate it. */
  method CreateTyped(wrapperTypes: TypeCache, handler: Instance, requestType: Type, responseType: Type)
    returns (w: Outcome<TypedWrapper>)
    modifies wrapperTypes
    ensures wrapperTypes.entries == CacheInsert(old(wrapperTypes.entries), requestType, RequestWrapperType(requestType, responseType))
    ensures w == ActivateTyped(CacheLookup(old(wrapperTypes.entries), requestType, RequestWrapperType(requestType, responseType)), handler, responseType)
  {
    var wrapperType := wrapperTypes.GetOrAdd(requestType, rt => RequestWrapperType(rt, responseType));
    w := ActivateTyped(wrapperType, handler, responseType);
  }

  /** RequestHandlerWrapper.Create: the same cache as the typed Create. */
  method CreateVoid(wrapperTypes: TypeCache, handler: Instance, requestType: Type)
    returns (w: Outcome<VoidWrapper>)
    modifies wrapperTypes
    ensures wrapperTypes.entries == CacheInsert(old(wrapperTypes.entries), requestType, VoidRequestWrapperType(requestType))
    ensures w == ActivateVoid(CacheLookup(old(wrapperTypes.entries), requestType, VoidRequestWrapperType(requestType)), handler)
  {
    var wrapperType := wrapperTypes.GetOrAdd(requestType, rt => VoidRequestWrapperType(rt));
    w := ActivateVoid(wrapperType, handler);
  }

  /** The typed behaviors GetServices<IPipelineBehavior<TRequest, TResponse>> yields;
      an object that is not such a behavior fails the cast. */
  function TypedLayers(behaviors: seq<Instance>, requestType: Type, responseType: Type): (r: Outcome<seq<Layer<Value>>>)
    ensures r.Ok? <==> forall i | 0 <= i < |behaviors| ::
      PipelineBehaviorInterface(requestType, responseType) in behaviors[i].interfaces && behaviors[i].code.InterceptCode?
    ensures r.Ok? ==> |r.value| == |behaviors| && forall i | 0 <= i < |behaviors| ::
      r.value[i] == Layer(behaviors[i].cls, behaviors[i].code.intercept)
    ensures r.Fail? ==> r.error == InvalidCast
    decreases |behaviors|
  {
    if behaviors == [] then Ok([])
    else
      var b := behaviors[0];
      if PipelineBehaviorInterface(requestType, responseType) in b.interfaces && b.code.InterceptCode? then
        match TypedLayers(behaviors[1..], requestType, responseType)
        case Fail(e) => Fail(e)
        case Ok(rest) => Ok([Layer(b.cls, b.code.intercept)] + rest)
      else Fail(InvalidCast)
  }

  /** The void behaviors GetServices<IPipelineBehavior<TRequest>> yields. */
  function VoidLayers(behaviors: seq<Instance>, requestType: Type): (r: Outcome<seq<Layer<()>>>)
    ensures r.Ok? <==> forall i | 0 <= i < |behaviors| ::
      VoidPipelineBehaviorInterface(requestType) in behaviors[i].interfaces && behaviors[i].code.InterceptVoidCode?
    ensures r.Ok? ==> |r.value| == |behaviors| && forall i | 0 <= i < |behaviors| ::
      r.value[i] == Layer(behaviors[i].cls, behaviors[i].code.interceptVoid)
    ensures r.Fail? ==> r.error == InvalidCast
    decreases |behaviors|
  {
    if behaviors == [] then Ok([])
    else
      var b := behaviors[0];
      if VoidPipelineBehaviorInterface(requestType) in b.interfaces && b.code.InterceptVoidCode? then
        match VoidLayers(behaviors[1..], requestType)
        case Fail(e) => Fail(e)
        case Ok(rest) => Ok([Layer(b.cls, b.code.interceptVoid)] + rest)
      else Fail(InvalidCast)
  }

  /** RequestHandlerWrapperImplementation<TRequest, TResponse>.Handle: resolve the
      behaviors for this request and response type, fold them around the handler,
      run the pipeline. */
  function HandleTyped(w: TypedWrapper, request: Payload, provider: Provider, token: Token): Run<Value>
  {
    match TypedLayers(provider.GetServices(PipelineBehaviorInterface(w.requestType, w.responseType)), w.requestType, w.responseType)
    case Fail(e) => Run([], Fail(e))
    case Ok(layers) => Invoke(Compose(layers, w.respond, request, token))
  }

  /** RequestHandlerWrapperImplementation<TRequest>.Handle: the same composition;
      only the terminal delegate and the result shape differ. */
  function HandleVoid(w: VoidWrapper, request: Payload, provider: Provider, token: Token): Run<()>
  {
    match VoidLayers(provider.GetServices(VoidPipelineBehaviorInterface(w.requestType)), w.requestType)
    case Fail(e) => Run([], Fail(e))
    case Ok(layers) => Invoke(Compose(layers, w.complete, request, token))
  }

  /** The typed Handle is the onion over the resolved behaviors, unchanged, or fails
      before any of them runs when one resolved object is not such a behavior. */
  lemma HandleTypedRunsChain(w: TypedWrapper, request: Payload, provider: Provider, token: Token)
    ensures var layers := TypedLayers(provider.GetServices(PipelineBehaviorInterface(w.requestType, w.responseType)), w.requestType, w.responseType);
            layers.Fail? ==> HandleTyped(w, request, provider, token) == Run([], Fail(layers.error))
    ensures var layers := TypedLayers(provider.GetServices(PipelineBehaviorInterface(w.requestType, w.responseType)), w.requestType, w.responseType);
            layers.Ok? ==> HandleTyped(w, request, provider, token) == Chain(layers.value, w.respond, request, token)
  {
    var layers := TypedLayers(provider.GetServices(PipelineBehaviorInterface(w.requestType, w.responseType)), w.requestType, w.responseType);
    if layers.Ok? {
      ComposeIsChain(layers.value, w.respond, request, token);
    }
  }

  /** The same for the void Handle. */
  lemma HandleVoidRunsChain(w: VoidWrapper, request: Payload, provider: Provider, token: Token)
    ensures var layers := VoidLayers(provider.GetServices(VoidPipelineBehaviorInterface(w.requestType)), w.requestType);
            layers.Fail? ==> HandleVoid(w, request, provider, token) == Run([], Fail(layers.error))
    ensures var layers := VoidLayers(provider.GetServices(VoidPipelineBehaviorInterface(w.requestType)), w.requestType);
            layers.Ok? ==> HandleVoid(w, request, provider, token) == Chain(layers.value, w.complete, request, token)
  {
    var layers := VoidLayers(provider.GetServices(VoidPipelineBehaviorInterface(w.requestType)), w.requestType);
    if layers.Ok? {
      ComposeIsChain(layers.value, w.complete, request, token);
    }
  }

  /** With no behaviors registered, Handle returns exactly the handler's outcome and
      runs the handler exactly once. */
  lemma NoBehaviorsIsHandler(w: TypedWrapper, request: Payload, provider: Provider, token: Token)
    requires |provider.GetServices(PipelineBehaviorInterface(w.requestType, w.responseType))| == 0
    ensures HandleTyped(w, request, provider, token) == Run([Handled(request, token)], w.respond(request, token))
  {
  }
}
