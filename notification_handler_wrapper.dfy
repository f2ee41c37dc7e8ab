/** NotificationHandlerWrapper: the cached creation of a wrapper for a
    notification type and its Handle, which delegates to the handler. */
module NotificationHandlerWrapper {
  import opened Abstractions
  import opened TypeCaches

  /** NotificationHandlerWrapper<TNotification> around a handler. */
  datatype Wrapper = Wrapper(notificationType: Type, notify: (Payload, Token) -> Outcome<()>)

  /** The cast (INotificationHandler<TNotification>)handler. */
  function AsNotificationHandler(o: Instance, notificationType: Type): Option<(Payload, Token) -> Outcome<()>>
  {
    if NotificationHandlerInterface(notificationType) in o.interfaces && o.code.NotifyCode?
    then Some(o.code.notify) else None
  }

  /** Activator.CreateInstance(wrapperType, handler): the wrapper's constructor casts
      the handler, so a handler that is not an INotificationHandler<T> for the
      wrapper's T is rejected here, before any Handle. */
  function Activate(wrapperType: Type, handler: Instance): (r: Outcome<Wrapper>)
    ensures r.Ok? <==>
      && wrapperType.ClosedType? && wrapperType.definition == NotificationWrapper
      && |wrapperType.arguments| == 1
      && AsNotificationHandler(handler, wrapperType.arguments[0]).Some?
    ensures r.Ok? ==>
      && wrapperType == NotificationWrapperType(r.value.notificationType)
      && AsNotificationHandler(handler, r.value.notificationType) == Some(r.value.notify)
    ensures r.Fail? ==> r.error == InvalidCast
  {
    if wrapperType.ClosedType? && wrapperType.definition == NotificationWrapper && |wrapperType.arguments| == 1 then
      match AsNotificationHandler(handler, wrapperType.arguments[0])
      case None => Fail(InvalidCast)
      case Some(notify) => Ok(Wrapper(wrapperType.arguments[0], notify))
    else Fail(InvalidCast)
  }

  /** NotificationHandlerWrapper<TNotification>.Handle: await the handler once. */
  function Handle(w: Wrapper, notification: Payload, token: Token): Outcome<()>
  {
    w.notify(notification, token)
  }

  /** A wrapper created for a handler forwards the notification and the token to
      that handler's own Handle, once, and completes or fails exactly as it does. */
  lemma WrapperDelegatesToHandler(handler: Instance, notificationType: Type, notification: Payload, token: Token)
    requires NotificationHandlerInterface(notificationType) in handler.interfaces && handler.code.NotifyCode?
    ensures Activate(NotificationWrapperType(notificationType), handler).Ok?
    ensures Handle(Activate(NotificationWrapperType(notificationType), handler).value, notification, token)
         == handler.code.notify(notification, token)
  {
  }

  /** A handler that does not implement INotificationHandler<T> never gets a wrapper. */
  lemma NonHandlerRejectedAtCreation(handler: Instance, notificationType: Type)
    requires NotificationHandlerInterface(notificationType) !in handler.interfaces
    ensures Activate(NotificationWrapperType(notificationType), handler) == Fail(InvalidCast)
  {
  }

  /** NotificationHandlerWrapper.Create: look the wrapper type up in its own cache,
      keyed by notification type, then instantiate it. */
  method Create(wrapperTypes: TypeCache, handler: Instance, notificationType: Type)
    returns (w: Outcome<Wrapper>)
    modifies wrapperTypes
    ensures wrapperTypes.entries == CacheInsert(old(wrapperTypes.entries), notificationType, NotificationWrapperType(notificationType))
    ensures w == Activate(CacheLookup(old(wrapperTypes.entries), notificationType, NotificationWrapperType(notificationType)), handler)
  {
    var wrapperType := wrapperTypes.GetOrAdd(notificationType, nt => NotificationWrapperType(nt));
    w := Activate(wrapperType, handler);
  }
}
