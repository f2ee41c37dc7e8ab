/** ForeachAwaitPublisher: hand a notification to each resolved handler in turn,
    skipping null entries and stopping at the first failure. */
module ForeachAwaitPublisher {
  import opened Abstractions
  import opened TypeCaches
  import opened NotificationHandlerWrapper

  /** A fan-out: the positions in the handler list whose Handle was called, in
      call order, and how the publish ended. */
  datatype Fanout = Fanout(invoked: seq<nat>, outcome: Outcome<()>)

  /** What publishing to one non-null handler does: build its wrapper (which may
      reject the handler) and await its Handle. */
  function StepOutcome(handler: Instance, wrapperType: Type, notification: Payload, token: Token): Outcome<()>
  {
    match Activate(wrapperType, handler)
    case Fail(e) => Fail(e)
    case Ok(w) => Handle(w, notification, token)
  }

  /** The loop of Publish over a prefix of the handler list, one element at a time. */
  function Sequential(handlers: seq<Option<Instance>>, wrapperType: Type, notification: Payload, token: Token): Fanout
    decreases |handlers|
  {
    if |handlers| == 0 then Fanout([], Ok(()))
    else
      var last := |handlers| - 1;
      var prior := Sequential(handlers[..last], wrapperType, notification, token);
      if prior.outcome.Fail? then prior
      else
        match handlers[last]
        case None => prior
        case Some(h) =>
          match Activate(wrapperType, h)
          case Fail(e) => Fanout(prior.invoked, Fail(e))
          case Ok(w) => Fanout(prior.invoked + [last], Handle(w, notification, token))
  }

  /** The list holds at least one non-null handler. */
  ghost predicate HasHandler(handlers: seq<Option<Instance>>)
  {
    exists i | 0 <= i < |handlers| :: handlers[i].Some?
  }

  /** The positions of the non-null handlers, in order. */
  function NonNullIndices(handlers: seq<Option<Instance>>): seq<nat>
    decreases |handlers|
  {
    if |handlers| == 0 then []
    else NonNullIndices(handlers[..|handlers| - 1]) + (if handlers[|handlers| - 1].Some? then [|handlers| - 1] else [])
  }

  /** No non-null handler's step fails. */
  ghost predicate NoneFails(handlers: seq<Option<Instance>>, wrapperType: Type, notification: Payload, token: Token)
  {
    forall j | 0 <= j < |handlers| :: handlers[j].Some? ==> StepOutcome(handlers[j].value, wrapperType, notification, token).Ok?
  }

  /** Position k holds the first non-null handler whose step fails. */
  ghost predicate FailsFirstAt(handlers: seq<Option<Instance>>, wrapperType: Type, notification: Payload, token: Token, k: nat)
  {
    && k < |handlers|
    && handlers[k].Some?
    && StepOutcome(handlers[k].value, wrapperType, notification, token).Fail?
    && NoneFails(handlers[..k], wrapperType, notification, token)
  }

  /** With no non-null handler (in particular with none at all), publishing succeeds
      and calls nothing: null entries are skipped, not errors. */
  lemma {:induction false} NoHandlersNoCalls(handlers: seq<Option<Instance>>, wrapperType: Type, notification: Payload, token: Token)
    requires !HasHandler(handlers)
    ensures Sequential(handlers, wrapperType, notification, token) == Fanout([], Ok(()))
    decreases |handlers|
  {
    if |handlers| > 0 {
      var prefix := handlers[..|handlers| - 1];
      assert !HasHandler(prefix) by {
        forall i | 0 <= i < |prefix| ensures prefix[i].None? {
          assert prefix[i] == handlers[i];
        }
      }
      NoHandlersNoCalls(prefix, wrapperType, notification, token);
      assert handlers[|handlers| - 1].None?;
    }
  }

  /** Publishing succeeds exactly when no non-null handler fails, and then every
      non-null handler was called exactly once, in list order. */
  lemma {:induction false} SucceedsIffNoneFails(handlers: seq<Option<Instance>>, wrapperType: Type, notification: Payload, token: Token)
    ensures Sequential(handlers, wrapperType, notification, token).outcome.Ok?
        <==> NoneFails(handlers, wrapperType, notification, token)
    ensures Sequential(handlers, wrapperType, notification, token).outcome.Ok?
        ==> Sequential(handlers, wrapperType, notification, token).invoked == NonNullIndices(handlers)
    decreases |handlers|
  {
    if |handlers| > 0 {
      var last := |handlers| - 1;
      var prefix := handlers[..last];
      SucceedsIffNoneFails(prefix, wrapperType, notification, token);
      assert NoneFails(handlers, wrapperType, notification, token) <==>
        NoneFails(prefix, wrapperType, notification, token)
        && (handlers[last].Some? ==> StepOutcome(handlers[last].value, wrapperType, notification, token).Ok?)
      by {
        forall j | 0 <= j < last ensures prefix[j] == handlers[j] { }
      }
    }
  }

  /** Once a prefix of the list has failed, nothing after it is called. */
  lemma {:induction false} FailureIsFinal(handlers: seq<Option<Instance>>, wrapperType: Type, notification: Payload, token: Token, k: nat)
    requires k <= |handlers|
    requires Sequential(handlers[..k], wrapperType, notification, token).outcome.Fail?
    ensures Sequential(handlers, wrapperType, notification, token) == Sequential(handlers[..k], wrapperType, notification, token)
    decreases |handlers| - k
  {
    if k < |handlers| {
      var longer := handlers[..k + 1];
      assert longer[..k] == handlers[..k];
      assert Sequential(longer, wrapperType, notification, token) == Sequential(handlers[..k], wrapperType, notification, token);
      FailureIsFinal(handlers, wrapperType, notification, token, k + 1);
    } else {
      assert handlers[..k] == handlers;
    }
  }

  /** When the handler at k is the first to fail, the failure is the outcome, and the
      handlers called are exactly the non-null ones before k, plus the one at k if
      its wrapper could be built. */
  lemma FirstFailureStops(handlers: seq<Option<Instance>>, wrapperType: Type, notification: Payload, token: Token, k: nat)
    requires FailsFirstAt(handlers, wrapperType, notification, token, k)
    ensures Sequential(handlers, wrapperType, notification, token).outcome
         == StepOutcome(handlers[k].value, wrapperType, notification, token)
    ensures Sequential(handlers, wrapperType, notification, token).invoked
         == NonNullIndices(handlers[..k]) + (if Activate(wrapperType, handlers[k].value).Ok? then [k] else [])
  {
    var upTo := handlers[..k + 1];
    assert upTo[..k] == handlers[..k];
    SucceedsIffNoneFails(handlers[..k], wrapperType, notification, token);
    FailureIsFinal(handlers, wrapperType, notification, token, k + 1);
  }

  /** Every failing publish has a first failing handler. */
  lemma {:induction false} FailureHasFirst(handlers: seq<Option<Instance>>, wrapperType: Type, notification: Payload, token: Token)
    returns (k: nat)
    requires Sequential(handlers, wrapperType, notification, token).outcome.Fail?
    ensures FailsFirstAt(handlers, wrapperType, notification, token, k)
    decreases |handlers|
  {
    var last := |handlers| - 1;
    var prefix := handlers[..last];
    forall j | 0 <= j < last ensures prefix[j] == handlers[j] { }
    if Sequential(prefix, wrapperType, notification, token).outcome.Fail? {
      k := FailureHasFirst(prefix, wrapperType, notification, token);
      assert prefix[..k] == handlers[..k];
    } else {
      SucceedsIffNoneFails(prefix, wrapperType, notification, token);
      k := last;
    }
  }

  /** ForeachAwaitPublisher.Publish. The wrapper type comes from the notification's
      runtime type through the notification wrapper cache; the cache gains that
      entry as soon as one non-null handler is reached. */
  method Publish(wrapperTypes: TypeCache, handlers: seq<Option<Instance>>, notification: Payload, token: Token)
    returns (r: Fanout)
    modifies wrapperTypes
    ensures r == Sequential(handlers, CacheLookup(old(wrapperTypes.entries), notification.runtimeType,
                                                  NotificationWrapperType(notification.runtimeType)), notification, token)
    ensures wrapperTypes.entries == if HasHandler(handlers)
      then CacheInsert(old(wrapperTypes.entries), notification.runtimeType, NotificationWrapperType(notification.runtimeType))
      else old(wrapperTypes.entries)
  {
    ghost var before := wrapperTypes.entries;
    var notificationType := notification.runtimeType;
    ghost var wrapperType := CacheLookup(before, notificationType, NotificationWrapperType(notificationType));
    var invoked: seq<nat> := [];
    var i := 0;
    while i < |handlers|
      invariant 0 <= i <= |handlers|
      invariant Sequential(handlers[..i], wrapperType, notification, token) == Fanout(invoked, Ok(()))
      invariant wrapperTypes.entries == if HasHandler(handlers[..i])
        then CacheInsert(before, notificationType, NotificationWrapperType(notificationType))
        else before
    {
      ghost var next := handlers[..i + 1];
      assert next[..i] == handlers[..i];
      assert HasHandler(next) <==> HasHandler(handlers[..i]) || handlers[i].Some? by {
        forall j | 0 <= j < i ensures next[j] == handlers[..i][j] { }
      }
      assert next[i] == handlers[i];
      if handlers[i].None? {
        assert Sequential(next, wrapperType, notification, token) == Fanout(invoked, Ok(()));
        i := i + 1;
        continue;
      }
      assert CacheLookup(wrapperTypes.entries, notificationType, NotificationWrapperType(notificationType)) == wrapperType;
      var w := NotificationHandlerWrapper.Create(wrapperTypes, handlers[i].value, notificationType);
      assert w == Activate(wrapperType, handlers[i].value);
      if w.Fail? {
        r := Fanout(invoked, Fail(w.error));
        FailureIsFinal(handlers, wrapperType, notification, token, i + 1);
        return;
      }
      var outcome := NotificationHandlerWrapper.Handle(w.value, notification, token);
      assert Sequential(next, wrapperType, notification, token) == Fanout(invoked + [i], outcome);
      invoked := invoked + [i];
      if outcome.Fail? {
        r := Fanout(invoked, outcome);
        FailureIsFinal(handlers, wrapperType, notification, token, i + 1);
        return;
      }
      assert outcome == Ok(outcome.value) && outcome.value == ();
      assert Sequential(next, wrapperType, notification, token) == Fanout(invoked, outcome);
      i := i + 1;
    }
    assert handlers[..i] == handlers;
    r := Fanout(invoked, Ok(()));
  }
}
