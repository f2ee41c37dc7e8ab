/** The vocabulary shared by every part of the mediator: runtime types as opaque
    keys, the payloads and cancellation tokens threaded through a dispatch, the
    objects a service provider hands out, and synchronous stand-ins for tasks. */
module Abstractions {

  datatype Option<+T> = None | Some(value: T)

  /** Every element of a sequence, as a non-null entry of a list that may hold nulls. */
  function Present<T>(xs: seq<T>): (r: seq<Option<T>>)
    ensures |r| == |xs|
    ensures forall i | 0 <= i < |xs| :: r[i] == Some(xs[i])
  {
    seq(|xs|, i requires 0 <= i < |xs| => Some(xs[i]))
  }

  /** The generic type definitions of the library that the core closes over a
      payload type with MakeGenericType. */
  datatype GenericDefinition =
    | VoidRequestHandler      // IRequestHandler<TRequest>
    | RequestHandler          // IRequestHandler<TRequest, TResponse>
    | NotificationHandler     // INotificationHandler<TNotification>
    | VoidPipelineBehavior    // IPipelineBehavior<TRequest>
    | PipelineBehavior        // IPipelineBehavior<TRequest, TResponse>
    | VoidRequestWrapper      // RequestHandlerWrapperImplementation<TRequest>
    | RequestWrapper          // RequestHandlerWrapperImplementation<TRequest, TResponse>
    | NotificationWrapper     // NotificationHandlerWrapper<TNotification>

  /** A runtime type, compared by identity only. */
  datatype Type =
    | UserType(name: nat)                                           // declared by the application
    | OpenType(definition: GenericDefinition)                       // typeof(X<>) or typeof(X<,>)
    | ClosedType(definition: GenericDefinition, arguments: seq<Type>) // X<>.MakeGenericType(arguments)
    | MediatorInterface                                             // IMediator
    | MediatorClass                                                 // Mediator
    | PublisherInterface                                            // INotificationPublisher
    | ForeachAwaitPublisherClass                                    // ForeachAwaitPublisher

  function VoidRequestHandlerInterface(requestType: Type): Type
  {
    ClosedType(VoidRequestHandler, [requestType])
  }

  function RequestHandlerInterface(requestType: Type, responseType: Type): Type
  {
    ClosedType(RequestHandler, [requestType, responseType])
  }

  function NotificationHandlerInterface(notificationType: Type): Type
  {
    ClosedType(NotificationHandler, [notificationType])
  }

  function VoidPipelineBehaviorInterface(requestType: Type): Type
  {
    ClosedType(VoidPipelineBehavior, [requestType])
  }

  function PipelineBehaviorInterface(requestType: Type, responseType: Type): Type
  {
    ClosedType(PipelineBehavior, [requestType, responseType])
  }

  function VoidRequestWrapperType(requestType: Type): Type
  {
    ClosedType(VoidRequestWrapper, [requestType])
  }

  function RequestWrapperType(requestType: Type, responseType: Type): Type
  {
    ClosedType(RequestWrapper, [requestType, responseType])
  }

  function NotificationWrapperType(notificationType: Type): Type
  {
    ClosedType(NotificationWrapper, [notificationType])
  }

  /** The exceptions the core raises or lets through. */
  datatype Error =
    | ArgumentNull(parameter: string)        // ArgumentNullException
    | ArgumentOutOfRange(parameter: string)  // ArgumentOutOfRangeException
    | NullReference                          // NullReferenceException
    | ServiceNotFound(service: Type)         // GetRequiredService: no registration
    | InvalidCast                            // a cast of a resolved object failed
    | Raised(exception: nat)                 // thrown by application code (a handler or a behavior)

  /** A finished task: completed with a value, or faulted with an exception. */
  datatype Outcome<+T> = Ok(value: T) | Fail(error: Error)

  /** A request or notification object; the core only ever asks for its runtime type. */
  datatype Payload = Payload(runtimeType: Type, contents: nat)

  /** A cancellation token, passed along and never inspected. */
  datatype Token = Token(id: nat)

  /** A response value of a request handler. */
  datatype Value = Value(id: nat)

  /** What a pipeline behavior does with a request: await `next` and then turn its
      outcome into its own (it may pass it on, replace it, or catch a failure), or
      return its own outcome without ever calling `next`. */
  datatype Step<!R> =
    | Proceed(after: Outcome<R> -> Outcome<R>)
    | Return(result: Outcome<R>)

  /** The Handle method of an object resolved from the provider, by interface shape. */
  datatype Code =
    | RespondCode(respond: (Payload, Token) -> Outcome<Value>)      // IRequestHandler<,>
    | CompleteCode(complete: (Payload, Token) -> Outcome<()>)       // IRequestHandler<>
    | NotifyCode(notify: (Payload, Token) -> Outcome<()>)           // INotificationHandler<>
    | InterceptCode(intercept: (Payload, Token) -> Step<Value>)     // IPipelineBehavior<,>
    | InterceptVoidCode(interceptVoid: (Payload, Token) -> Step<()>) // IPipelineBehavior<>

  /** An object: its runtime class, the closed interfaces that class implements
      (what a cast checks), and its Handle method. */
  datatype Instance = Instance(cls: Type, interfaces: set<Type>, code: Code)

  /** The service provider: for each service type, the instances it resolves to,
      in registration order. */
  datatype Provider = Provider(registrations: map<Type, seq<Instance>>) {

    /** GetServices: every registration for the service, possibly none. */
    function GetServices(service: Type): seq<Instance>
    {
      if service in registrations then registrations[service] else []
    }

    /** GetRequiredService: the last registration wins; none is an error. */
    function GetRequiredService(service: Type): (r: Outcome<Instance>)
      ensures r.Fail? <==> |GetServices(service)| == 0
      ensures r.Fail? ==> r.error == ServiceNotFound(service)
      ensures r.Ok? ==> r.value == GetServices(service)[|GetServices(service)| - 1]
    {
      var all := GetServices(service);
      if |all| == 0 then Fail(ServiceNotFound(service)) else Ok(all[|all| - 1])
    }
  }

  /** What an observer of a request dispatch sees, in order. */
  datatype Event =
    | Enter(behavior: Type, request: Payload, token: Token)  // a behavior's Handle starts
    | Handled(request: Payload, token: Token)                // the request handler runs
    | Exit(behavior: Type)                                   // that behavior's Handle returns

  /** A dispatch run: the events it produced and its outcome. */
  datatype Run<R> = Run(trace: seq<Event>, outcome: Outcome<R>)
}
