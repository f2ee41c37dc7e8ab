/** ServiceRegistrar.AddMediator: register the mediator, the publisher, every
    handler found in the configured assemblies and every configured open pipeline
    behavior into a service collection. */
module ServiceRegistrar {
  import opened Abstractions
  import opened Configuration

  /** ServiceDescriptor(serviceType, implementationType, lifetime). */
  datatype Descriptor = Descriptor(service: Type, implementation: Type, lifetime: Lifetime)

  /** What AddMediator did: how it ended and the collection's descriptors after it
      (an exception part-way keeps what was registered before it). */
  datatype Registration = Registration(outcome: Outcome<()>, descriptors: seq<Descriptor>)

  // ---------------------------------------------------------------------------
  // The two ways of adding a descriptor
  // ---------------------------------------------------------------------------

  /** Some descriptor registers the service. */
  ghost predicate HasService(s: seq<Descriptor>, service: Type)
  {
    exists i | 0 <= i < |s| :: s[i].service == service
  }

  /** Some descriptor registers the service with this implementation. */
  ghost predicate HasPair(s: seq<Descriptor>, service: Type, implementation: Type)
  {
    exists i | 0 <= i < |s| :: s[i].service == service && s[i].implementation == implementation
  }

  /** TryAdd: append unless the service is registered at all. */
  ghost function TryAddResult(s: seq<Descriptor>, d: Descriptor): (r: seq<Descriptor>)
    ensures HasService(s, d.service) ==> r == s
    ensures !HasService(s, d.service) ==> r == s + [d]
    ensures HasService(r, d.service)
  {
    if HasService(s, d.service) then s
    else
      assert (s + [d])[|s|] == d;
      s + [d]
  }

  /** TryAddEnumerable: append unless this service is registered with this
      implementation already. */
  ghost function TryAddEnumerableResult(s: seq<Descriptor>, d: Descriptor): (r: seq<Descriptor>)
    ensures HasPair(s, d.service, d.implementation) ==> r == s
    ensures !HasPair(s, d.service, d.implementation) ==> r == s + [d]
    ensures HasPair(r, d.service, d.implementation)
  {
    if HasPair(s, d.service, d.implementation) then s
    else
      assert (s + [d])[|s|] == d;
      s + [d]
  }

  // ---------------------------------------------------------------------------
  // What is registered, step by step
  // ---------------------------------------------------------------------------

  /** GetGenericTypeDefinition, for the generic types of the library. */
  function Definition(t: Type): Option<GenericDefinition>
  {
    match t
    case OpenType(def) => Some(def)
    case ClosedType(def, _) => Some(def)
    case _ => None
  }

  /** IRequestHandler<> or IRequestHandler<,>: registered with TryAdd. */
  predicate IsRequestHandlerInterface(t: Type)
  {
    Definition(t) == Some(VoidRequestHandler) || Definition(t) == Some(RequestHandler)
  }

  /** INotificationHandler<>: registered with TryAddEnumerable. */
  predicate IsNotificationHandlerInterface(t: Type)
  {
    Definition(t) == Some(NotificationHandler)
  }

  predicate IsHandlerInterface(t: Type)
  {
    IsRequestHandlerInterface(t) || IsNotificationHandlerInterface(t)
  }

  /** The services AddMediator registers with TryAdd, so at most once each. */
  predicate IsSingleService(t: Type)
  {
    IsRequestHandlerInterface(t) || t == MediatorInterface || t == PublisherInterface
  }

  /** The types the assembly scan keeps: neither interfaces nor abstract. */
  predicate IsConcrete(t: TypeInfo)
  {
    !t.isInterface && !t.isAbstract
  }

  /** The open pipeline interface for a behavior with this many generic arguments. */
  function BehaviorInterface(arity: nat): Option<Type>
  {
    if arity == 1 then Some(OpenType(VoidPipelineBehavior))
    else if arity == 2 then Some(OpenType(PipelineBehavior))
    else None
  }

  /** One interface of one implementation. */
  ghost function AddInterface(s: seq<Descriptor>, implementation: Type, iface: Type, lifetime: Lifetime): (r: seq<Descriptor>)
    ensures r == s || r == s + [Descriptor(iface, implementation, lifetime)]
    ensures !IsHandlerInterface(iface) ==> r == s
    ensures IsRequestHandlerInterface(iface) ==> HasService(r, iface)
    ensures IsNotificationHandlerInterface(iface) ==> HasPair(r, iface, implementation)
  {
    if IsRequestHandlerInterface(iface) then TryAddResult(s, Descriptor(iface, implementation, lifetime))
    else if IsNotificationHandlerInterface(iface) then TryAddEnumerableResult(s, Descriptor(iface, implementation, lifetime))
    else s
  }

  /** The handler interfaces of one implementation, in GetInterfaces order. */
  ghost function AddInterfaces(s: seq<Descriptor>, implementation: Type, ifaces: seq<Type>, lifetime: Lifetime): (r: seq<Descriptor>)
    ensures s <= r
    decreases |ifaces|
  {
    if |ifaces| == 0 then s
    else AddInterface(AddInterfaces(s, implementation, ifaces[..|ifaces| - 1], lifetime), implementation, ifaces[|ifaces| - 1], lifetime)
  }

  /** The concrete types of one assembly, in GetTypes order. */
  ghost function AddTypes(s: seq<Descriptor>, types: seq<TypeInfo>, lifetime: Lifetime): (r: seq<Descriptor>)
    ensures s <= r
    decreases |types|
  {
    if |types| == 0 then s
    else
      var prior := AddTypes(s, types[..|types| - 1], lifetime);
      var t := types[|types| - 1];
      if IsConcrete(t) then AddInterfaces(prior, t.self, t.interfaces, lifetime) else prior
  }

  /** The configured assemblies, in order; a null one raises on GetTypes. */
  ghost function AddAssemblies(s: seq<Descriptor>, assemblies: seq<Option<Assembly>>, lifetime: Lifetime): (r: Registration)
    ensures s <= r.descriptors
    ensures r.outcome.Fail? ==> r.outcome.error == NullReference
    decreases |assemblies|
  {
    if |assemblies| == 0 then Registration(Ok(()), s)
    else
      var prior := AddAssemblies(s, assemblies[..|assemblies| - 1], lifetime);
      if prior.outcome.Fail? then prior
      else
        match assemblies[|assemblies| - 1]
        case None => Registration(Fail(NullReference), prior.descriptors)
        case Some(a) => Registration(Ok(()), AddTypes(prior.descriptors, a.types, lifetime))
  }

  /** The error a behavior type raises, if any: a null one on GetGenericArguments, one
      with neither one nor two generic arguments by the arity switch. */
  function BehaviorError(b: Option<TypeInfo>): (r: Option<Error>)
    ensures r.None? <==> b.Some? && (b.value.genericArity == 1 || b.value.genericArity == 2)
    ensures b.None? ==> r == Some(NullReference)
    ensures b.Some? && r.Some? ==> r.value == ArgumentOutOfRange("genericArg")
  {
    match b
    case None => Some(NullReference)
    case Some(t) => if BehaviorInterface(t.genericArity).None? then Some(ArgumentOutOfRange("genericArg")) else None
  }

  /** The configured open behaviors, in order. */
  ghost function AddBehaviors(s: seq<Descriptor>, behaviors: seq<Option<TypeInfo>>, lifetime: Lifetime): (r: Registration)
    ensures s <= r.descriptors
    decreases |behaviors|
  {
    if |behaviors| == 0 then Registration(Ok(()), s)
    else
      var prior := AddBehaviors(s, behaviors[..|behaviors| - 1], lifetime);
      var b := behaviors[|behaviors| - 1];
      if prior.outcome.Fail? then prior
      else if BehaviorError(b).Some? then Registration(Fail(BehaviorError(b).value), prior.descriptors)
      else
        var t := b.value;
        Registration(Ok(()), TryAddEnumerableResult(prior.descriptors,
                                                    Descriptor(BehaviorInterface(t.genericArity).value, t.self, lifetime)))
  }

  /** AddMediator(services, configureOptions), on the descriptors it starts from. The
      callback is the list of calls it makes on the configuration, None for a null
      delegate. */
  ghost function AddMediatorSpec(s: seq<Descriptor>, configureOptions: Option<seq<ConfigCall>>): (r: Registration)
    ensures s <= r.descriptors
    ensures configureOptions.None? ==> r.outcome == Fail(ArgumentNull("configureOptions")) && r.descriptors == s
  {
    match configureOptions
    case None => Registration(Fail(ArgumentNull("configureOptions")), s)
    case Some(calls) =>
      match ApplyCalls(Defaults(), calls)
      case Fail(e) => Registration(Fail(e), s)
      case Ok(config) =>
        match config.publisher
        case None => Registration(Fail(NullReference), s)
        case Some(publisher) =>
          var lifetime := config.lifetime;
          var s1 := TryAddResult(s, Descriptor(PublisherInterface, publisher, lifetime));
          var s2 := TryAddResult(s1, Descriptor(MediatorInterface, MediatorClass, lifetime));
          var scanned := AddAssemblies(s2, config.assemblies, lifetime);
          if scanned.outcome.Fail? then scanned
          else AddBehaviors(scanned.descriptors, config.behaviors, lifetime)
  }

  // ---------------------------------------------------------------------------
  // Facts about the registration steps
  // ---------------------------------------------------------------------------

  lemma HasServiceGrows(s: seq<Descriptor>, r: seq<Descriptor>, service: Type)
    requires s <= r && HasService(s, service)
    ensures HasService(r, service)
  {
    var i :| 0 <= i < |s| && s[i].service == service;
    assert r[i] == s[i];
  }

  lemma HasPairGrows(s: seq<Descriptor>, r: seq<Descriptor>, service: Type, implementation: Type)
    requires s <= r && HasPair(s, service, implementation)
    ensures HasPair(r, service, implementation)
  {
    var i :| 0 <= i < |s| && s[i].service == service && s[i].implementation == implementation;
    assert r[i] == s[i];
  }

  /** No service is registered twice with the same implementation, and each single
      service at most once: the provider then hands out one handler per request
      type and calls each notification handler once. */
  ghost predicate Consistent(s: seq<Descriptor>)
  {
    && (forall i, j | 0 <= i < j < |s| && s[i].service == s[j].service :: s[i].implementation != s[j].implementation)
    && (forall i, j | 0 <= i < j < |s| && IsSingleService(s[i].service) :: s[i].service != s[j].service)
  }

  lemma TryAddConsistent(s: seq<Descriptor>, d: Descriptor)
    requires Consistent(s)
    ensures Consistent(TryAddResult(s, d))
  {
  }

  lemma TryAddEnumerableConsistent(s: seq<Descriptor>, d: Descriptor)
    requires Consistent(s) && !IsSingleService(d.service)
    ensures Consistent(TryAddEnumerableResult(s, d))
  {
  }

  lemma {:induction false} AddInterfacesConsistent(s: seq<Descriptor>, implementation: Type, ifaces: seq<Type>, lifetime: Lifetime)
    requires Consistent(s)
    ensures Consistent(AddInterfaces(s, implementation, ifaces, lifetime))
    decreases |ifaces|
  {
    if |ifaces| > 0 {
      var prior := AddInterfaces(s, implementation, ifaces[..|ifaces| - 1], lifetime);
      var iface := ifaces[|ifaces| - 1];
      AddInterfacesConsistent(s, implementation, ifaces[..|ifaces| - 1], lifetime);
      TryAddConsistent(prior, Descriptor(iface, implementation, lifetime));
      if !IsRequestHandlerInterface(iface) && IsNotificationHandlerInterface(iface) {
        TryAddEnumerableConsistent(prior, Descriptor(iface, implementation, lifetime));
      }
    }
  }

  lemma {:induction false} AddTypesConsistent(s: seq<Descriptor>, types: seq<TypeInfo>, lifetime: Lifetime)
    requires Consistent(s)
    ensures Consistent(AddTypes(s, types, lifetime))
    decreases |types|
  {
    if |types| > 0 {
      var t := types[|types| - 1];
      AddTypesConsistent(s, types[..|types| - 1], lifetime);
      AddInterfacesConsistent(AddTypes(s, types[..|types| - 1], lifetime), t.self, t.interfaces, lifetime);
    }
  }

  lemma {:induction false} AddAssembliesConsistent(s: seq<Descriptor>, assemblies: seq<Option<Assembly>>, lifetime: Lifetime)
    requires Consistent(s)
    ensures Consistent(AddAssemblies(s, assemblies, lifetime).descriptors)
    decreases |assemblies|
  {
    if |assemblies| > 0 {
      var prior := AddAssemblies(s, assemblies[..|assemblies| - 1], lifetime);
      AddAssembliesConsistent(s, assemblies[..|assemblies| - 1], lifetime);
      if assemblies[|assemblies| - 1].Some? {
        AddTypesConsistent(prior.descriptors, assemblies[|assemblies| - 1].value.types, lifetime);
      }
    }
  }

  lemma {:induction false} AddBehaviorsConsistent(s: seq<Descriptor>, behaviors: seq<Option<TypeInfo>>, lifetime: Lifetime)
    requires Consistent(s)
    ensures Consistent(AddBehaviors(s, behaviors, lifetime).descriptors)
    decreases |behaviors|
  {
    if |behaviors| > 0 {
      var prior := AddBehaviors(s, behaviors[..|behaviors| - 1], lifetime);
      var b := behaviors[|behaviors| - 1];
      AddBehaviorsConsistent(s, behaviors[..|behaviors| - 1], lifetime);
      if !prior.outcome.Fail? && BehaviorError(b).None? {
        TryAddEnumerableConsistent(prior.descriptors, Descriptor(BehaviorInterface(b.value.genericArity).value, b.value.self, lifetime));
      }
    }
  }

  /** AddMediator keeps a consistent collection consistent, whatever the callback does
      and however the registration ends. */
  lemma AddMediatorConsistent(s: seq<Descriptor>, configureOptions: Option<seq<ConfigCall>>)
    requires Consistent(s)
    ensures Consistent(AddMediatorSpec(s, configureOptions).descriptors)
  {
    if configureOptions.Some? && ApplyCalls(Defaults(), configureOptions.value).Ok? {
      var config := ApplyCalls(Defaults(), configureOptions.value).value;
      if config.publisher.Some? {
        var lifetime := config.lifetime;
        var s1 := TryAddResult(s, Descriptor(PublisherInterface, config.publisher.value, lifetime));
        var s2 := TryAddResult(s1, Descriptor(MediatorInterface, MediatorClass, lifetime));
        TryAddConsistent(s, Descriptor(PublisherInterface, config.publisher.value, lifetime));
        TryAddConsistent(s1, Descriptor(MediatorInterface, MediatorClass, lifetime));
        AddAssembliesConsistent(s2, config.assemblies, lifetime);
        AddBehaviorsConsistent(AddAssemblies(s2, config.assemblies, lifetime).descriptors, config.behaviors, lifetime);
      }
    }
  }

  // ---------------------------------------------------------------------------
  // Nothing else is registered, and a registered single service is kept
  // ---------------------------------------------------------------------------

  /** A descriptor the scan adds for an implementation: one of its handler interfaces,
      with the configured lifetime, and for a request-handler interface only when
      the collection did not register that interface before. */
  ghost predicate ScannedFrom(d: Descriptor, s: seq<Descriptor>, implementation: Type, ifaces: seq<Type>, lifetime: Lifetime)
  {
    && d.implementation == implementation && d.service in ifaces && IsHandlerInterface(d.service)
    && d.lifetime == lifetime && (IsRequestHandlerInterface(d.service) ==> !HasService(s, d.service))
  }

  /** Every descriptor r adds to s is accounted for by the implementation. */
  ghost predicate AllScannedFrom(s: seq<Descriptor>, r: seq<Descriptor>, implementation: Type, ifaces: seq<Type>, lifetime: Lifetime)
  {
    forall k | |s| <= k < |r| :: ScannedFrom(r[k], s, implementation, ifaces, lifetime)
  }

  lemma {:induction false} AddInterfacesSound(s: seq<Descriptor>, implementation: Type, ifaces: seq<Type>, lifetime: Lifetime)
    ensures AllScannedFrom(s, AddInterfaces(s, implementation, ifaces, lifetime), implementation, ifaces, lifetime)
    decreases |ifaces|
  {
    if |ifaces| > 0 {
      var front := ifaces[..|ifaces| - 1];
      var iface := ifaces[|ifaces| - 1];
      var prior := AddInterfaces(s, implementation, front, lifetime);
      var r := AddInterfaces(s, implementation, ifaces, lifetime);
      AddInterfacesSound(s, implementation, front, lifetime);
      assert ifaces == front + [iface];
      var d := Descriptor(iface, implementation, lifetime);
      assert r == AddInterface(prior, implementation, iface, lifetime);
      assert r == prior || (r == prior + [d] && IsHandlerInterface(iface)
                            && (IsRequestHandlerInterface(iface) ==> !HasService(prior, iface)));
      forall k | |s| <= k < |r| ensures ScannedFrom(r[k], s, implementation, ifaces, lifetime) {
        if k < |prior| {
          assert r[k] == prior[k];
          assert ScannedFrom(prior[k], s, implementation, front, lifetime);
        } else {
          assert r[k] == d;
          if IsRequestHandlerInterface(iface) && HasService(s, iface) {
            HasServiceGrows(s, prior, iface);
          }
        }
      }
    }
  }

  /** Some concrete type of the list accounts for the descriptor. */
  ghost predicate ScannedFromTypes(d: Descriptor, s: seq<Descriptor>, types: seq<TypeInfo>, lifetime: Lifetime)
  {
    exists t | t in types :: IsConcrete(t) && ScannedFrom(d, s, t.self, t.interfaces, lifetime)
  }

  ghost predicate AllScannedFromTypes(s: seq<Descriptor>, r: seq<Descriptor>, types: seq<TypeInfo>, lifetime: Lifetime)
  {
    forall k | |s| <= k < |r| :: ScannedFromTypes(r[k], s, types, lifetime)
  }

  lemma {:induction false} AddTypesSound(s: seq<Descriptor>, types: seq<TypeInfo>, lifetime: Lifetime)
    ensures AllScannedFromTypes(s, AddTypes(s, types, lifetime), types, lifetime)
    decreases |types|
  {
    if |types| > 0 {
      var front := types[..|types| - 1];
      var t := types[|types| - 1];
      var prior := AddTypes(s, front, lifetime);
      var r := AddTypes(s, types, lifetime);
      AddTypesSound(s, front, lifetime);
      if IsConcrete(t) {
        AddInterfacesSound(prior, t.self, t.interfaces, lifetime);
      }
      forall k | |s| <= k < |r| ensures ScannedFromTypes(r[k], s, types, lifetime) {
        if k < |prior| {
          assert r[k] == prior[k];
          var u :| u in front && IsConcrete(u) && ScannedFrom(prior[k], s, u.self, u.interfaces, lifetime);
          assert u in types;
        } else {
          assert ScannedFrom(r[k], prior, t.self, t.interfaces, lifetime);
          if IsRequestHandlerInterface(r[k].service) && HasService(s, r[k].service) {
            HasServiceGrows(s, prior, r[k].service);
          }
          assert ScannedFrom(r[k], s, t.self, t.interfaces, lifetime);
        }
      }
    }
  }

  /** Some concrete type of some non-null assembly accounts for the descriptor. */
  ghost predicate ScannedFromAssemblies(d: Descriptor, s: seq<Descriptor>, assemblies: seq<Option<Assembly>>, lifetime: Lifetime)
  {
    exists a | Some(a) in assemblies :: ScannedFromTypes(d, s, a.types, lifetime)
  }

  ghost predicate AllScannedFromAssemblies(s: seq<Descriptor>, r: seq<Descriptor>, assemblies: seq<Option<Assembly>>, lifetime: Lifetime)
  {
    forall k | |s| <= k < |r| :: ScannedFromAssemblies(r[k], s, assemblies, lifetime)
  }

  lemma {:induction false} AddAssembliesSound(s: seq<Descriptor>, assemblies: seq<Option<Assembly>>, lifetime: Lifetime)
    ensures AllScannedFromAssemblies(s, AddAssemblies(s, assemblies, lifetime).descriptors, assemblies, lifetime)
    decreases |assemblies|
  {
    if |assemblies| > 0 {
      var front := assemblies[..|assemblies| - 1];
      var prior := AddAssemblies(s, front, lifetime);
      var r := AddAssemblies(s, assemblies, lifetime).descriptors;
      AddAssembliesSound(s, front, lifetime);
      var last := assemblies[|assemblies| - 1];
      if !prior.outcome.Fail? && last.Some? {
        AddTypesSound(prior.descriptors, last.value.types, lifetime);
      }
      forall k | |s| <= k < |r| ensures ScannedFromAssemblies(r[k], s, assemblies, lifetime) {
        if k < |prior.descriptors| {
          assert r[k] == prior.descriptors[k];
          assert ScannedFromAssemblies(prior.descriptors[k], s, front, lifetime);
          var a :| Some(a) in front && ScannedFromTypes(prior.descriptors[k], s, a.types, lifetime);
          assert Some(a) in assemblies;
        } else {
          assert !prior.outcome.Fail? && last.Some?;
          var a := last.value;
          assert r == AddTypes(prior.descriptors, a.types, lifetime);
          assert Some(a) in assemblies;
          assert ScannedFromTypes(r[k], prior.descriptors, a.types, lifetime);
          var t :| t in a.types && IsConcrete(t) && ScannedFrom(r[k], prior.descriptors, t.self, t.interfaces, lifetime);
          if IsRequestHandlerInterface(r[k].service) && HasService(s, r[k].service) {
            HasServiceGrows(s, prior.descriptors, r[k].service);
          }
          assert ScannedFrom(r[k], s, t.self, t.interfaces, lifetime);
        }
      }
    }
  }

  /** A descriptor the behavior loop adds: a configured behavior type under the open
      pipeline interface its generic arity selects. */
  ghost predicate BehaviorFrom(d: Descriptor, behaviors: seq<Option<TypeInfo>>, lifetime: Lifetime)
  {
    exists t | Some(t) in behaviors ::
      && BehaviorInterface(t.genericArity) == Some(d.service)
      && d.implementation == t.self && d.lifetime == lifetime
  }

  ghost predicate AllBehaviorsFrom(s: seq<Descriptor>, r: seq<Descriptor>, behaviors: seq<Option<TypeInfo>>, lifetime: Lifetime)
  {
    forall k | |s| <= k < |r| :: BehaviorFrom(r[k], behaviors, lifetime)
  }

  lemma {:induction false} AddBehaviorsSound(s: seq<Descriptor>, behaviors: seq<Option<TypeInfo>>, lifetime: Lifetime)
    ensures AllBehaviorsFrom(s, AddBehaviors(s, behaviors, lifetime).descriptors, behaviors, lifetime)
    decreases |behaviors|
  {
    if |behaviors| > 0 {
      var front := behaviors[..|behaviors| - 1];
      var prior := AddBehaviors(s, front, lifetime);
      var r := AddBehaviors(s, behaviors, lifetime).descriptors;
      AddBehaviorsSound(s, front, lifetime);
      forall k | |s| <= k < |r| ensures BehaviorFrom(r[k], behaviors, lifetime) {
        if k < |prior.descriptors| {
          assert r[k] == prior.descriptors[k];
          var t :| Some(t) in front && BehaviorInterface(t.genericArity) == Some(r[k].service)
                  && r[k].implementation == t.self && r[k].lifetime == lifetime;
          assert Some(t) in behaviors;
        } else {
          assert Some(behaviors[|behaviors| - 1].value) in behaviors;
        }
      }
    }
  }

  /** Everything AddMediator adds is the publisher's class under INotificationPublisher
      or Mediator under IMediator (each only if that service was not registered yet),
      a handler interface of a concrete type from a configured assembly (a
      request-handler interface only if it was not registered yet), or a configured
      behavior under its open pipeline interface; all with the configured lifetime. */
  lemma AddMediatorSound(s: seq<Descriptor>, calls: seq<ConfigCall>)
    requires ApplyCalls(Defaults(), calls).Ok?
    ensures var config := ApplyCalls(Defaults(), calls).value;
            var r := AddMediatorSpec(s, Some(calls)).descriptors;
            forall k | |s| <= k < |r| ::
              || (config.publisher.Some? && r[k] == Descriptor(PublisherInterface, config.publisher.value, config.lifetime)
                  && !HasService(s, PublisherInterface))
              || (r[k] == Descriptor(MediatorInterface, MediatorClass, config.lifetime) && !HasService(s, MediatorInterface))
              || ScannedFromAssemblies(r[k], s, config.assemblies, config.lifetime)
              || BehaviorFrom(r[k], config.behaviors, config.lifetime)
  {
    var config := ApplyCalls(Defaults(), calls).value;
    var r := AddMediatorSpec(s, Some(calls)).descriptors;
    if config.publisher.Some? {
      var lifetime := config.lifetime;
      var s1 := TryAddResult(s, Descriptor(PublisherInterface, config.publisher.value, lifetime));
      var s2 := TryAddResult(s1, Descriptor(MediatorInterface, MediatorClass, lifetime));
      var scanned := AddAssemblies(s2, config.assemblies, lifetime);
      AddAssembliesSound(s2, config.assemblies, lifetime);
      if !scanned.outcome.Fail? {
        AddBehaviorsSound(scanned.descriptors, config.behaviors, lifetime);
      }
      forall k | |s| <= k < |r|
        ensures || (r[k] == Descriptor(PublisherInterface, config.publisher.value, lifetime) && !HasService(s, PublisherInterface))
                || (r[k] == Descriptor(MediatorInterface, MediatorClass, lifetime) && !HasService(s, MediatorInterface))
                || ScannedFromAssemblies(r[k], s, config.assemblies, lifetime)
                || BehaviorFrom(r[k], config.behaviors, lifetime)
      {
        if k < |s1| {
          assert r[k] == s1[k];
        } else if k < |s2| {
          assert r[k] == s2[k];
          if HasService(s, MediatorInterface) {
            HasServiceGrows(s, s1, MediatorInterface);
          }
        } else if k < |scanned.descriptors| {
          assert r[k] == scanned.descriptors[k];
          var a :| Some(a) in config.assemblies && ScannedFromTypes(r[k], s2, a.types, lifetime);
          var t :| t in a.types && IsConcrete(t) && ScannedFrom(r[k], s2, t.self, t.interfaces, lifetime);
          if IsRequestHandlerInterface(r[k].service) && HasService(s, r[k].service) {
            HasServiceGrows(s, s2, r[k].service);
          }
          assert ScannedFrom(r[k], s, t.self, t.interfaces, lifetime);
        }
      }
    }
  }

  /** A service registered once with TryAdd is never registered again: when the
      application registered IMediator, INotificationPublisher or a request handler
      interface before AddMediator, its own registration is the one that stays. */
  lemma FirstRegistrationWins(s: seq<Descriptor>, configureOptions: Option<seq<ConfigCall>>, service: Type)
    requires IsSingleService(service) && HasService(s, service)
    ensures var r := AddMediatorSpec(s, configureOptions).descriptors;
            forall k | |s| <= k < |r| :: r[k].service != service
  {
    if configureOptions.Some? && ApplyCalls(Defaults(), configureOptions.value).Ok? {
      AddMediatorSound(s, configureOptions.value);
    }
  }

  // ---------------------------------------------------------------------------
  // Everything configured is registered
  // ---------------------------------------------------------------------------

  /** Every handler interface of the implementation is served: a request-handler
      interface by some implementation, a notification-handler interface by this one. */
  ghost predicate HandlersRegistered(r: seq<Descriptor>, implementation: Type, ifaces: seq<Type>, lifetime: Lifetime)
  {
    forall iface | iface in ifaces ::
      && (IsRequestHandlerInterface(iface) ==> HasService(r, iface))
      && (IsNotificationHandlerInterface(iface) ==> HasPair(r, iface, implementation))
  }

  lemma HandlersRegisteredGrows(s: seq<Descriptor>, r: seq<Descriptor>, implementation: Type, ifaces: seq<Type>, lifetime: Lifetime)
    requires s <= r && HandlersRegistered(s, implementation, ifaces, lifetime)
    ensures HandlersRegistered(r, implementation, ifaces, lifetime)
  {
    forall iface | iface in ifaces
      ensures && (IsRequestHandlerInterface(iface) ==> HasService(r, iface))
              && (IsNotificationHandlerInterface(iface) ==> HasPair(r, iface, implementation))
    {
      if IsRequestHandlerInterface(iface) {
        HasServiceGrows(s, r, iface);
      }
      if IsNotificationHandlerInterface(iface) {
        HasPairGrows(s, r, iface, implementation);
      }
    }
  }

  lemma {:induction false} AddInterfacesComplete(s: seq<Descriptor>, implementation: Type, ifaces: seq<Type>, lifetime: Lifetime)
    ensures HandlersRegistered(AddInterfaces(s, implementation, ifaces, lifetime), implementation, ifaces, lifetime)
    decreases |ifaces|
  {
    if |ifaces| > 0 {
      var front := ifaces[..|ifaces| - 1];
      var iface := ifaces[|ifaces| - 1];
      var prior := AddInterfaces(s, implementation, front, lifetime);
      var r := AddInterfaces(s, implementation, ifaces, lifetime);
      AddInterfacesComplete(s, implementation, front, lifetime);
      HandlersRegisteredGrows(prior, r, implementation, front, lifetime);
      assert ifaces == front + [iface];
    }
  }

  /** Every concrete type of the list has its handler interfaces registered. */
  ghost predicate TypesRegistered(r: seq<Descriptor>, types: seq<TypeInfo>, lifetime: Lifetime)
  {
    forall t | t in types && IsConcrete(t) :: HandlersRegistered(r, t.self, t.interfaces, lifetime)
  }

  lemma {:induction false} AddTypesComplete(s: seq<Descriptor>, types: seq<TypeInfo>, lifetime: Lifetime)
    ensures TypesRegistered(AddTypes(s, types, lifetime), types, lifetime)
    decreases |types|
  {
    if |types| > 0 {
      var front := types[..|types| - 1];
      var t := types[|types| - 1];
      var prior := AddTypes(s, front, lifetime);
      var r := AddTypes(s, types, lifetime);
      AddTypesComplete(s, front, lifetime);
      if IsConcrete(t) {
        AddInterfacesComplete(prior, t.self, t.interfaces, lifetime);
      }
      forall u | u in types && IsConcrete(u) ensures HandlersRegistered(r, u.self, u.interfaces, lifetime) {
        if u in front {
          HandlersRegisteredGrows(prior, r, u.self, u.interfaces, lifetime);
        } else {
          assert types == front + [t];
        }
      }
    }
  }

  lemma {:induction false} AddAssembliesComplete(s: seq<Descriptor>, assemblies: seq<Option<Assembly>>, lifetime: Lifetime)
    ensures var r := AddAssemblies(s, assemblies, lifetime);
            r.outcome.Ok? <==> None !in assemblies
    ensures var r := AddAssemblies(s, assemblies, lifetime);
            r.outcome.Ok? ==> forall a | Some(a) in assemblies :: TypesRegistered(r.descriptors, a.types, lifetime)
    decreases |assemblies|
  {
    if |assemblies| > 0 {
      var front := assemblies[..|assemblies| - 1];
      var last := assemblies[|assemblies| - 1];
      var prior := AddAssemblies(s, front, lifetime);
      var r := AddAssemblies(s, assemblies, lifetime);
      AddAssembliesComplete(s, front, lifetime);
      assert assemblies == front + [last];
      if r.outcome.Ok? {
        var a := last.value;
        AddTypesComplete(prior.descriptors, a.types, lifetime);
        forall b | Some(b) in assemblies ensures TypesRegistered(r.descriptors, b.types, lifetime) {
          if Some(b) in front {
            forall t | t in b.types && IsConcrete(t) ensures HandlersRegistered(r.descriptors, t.self, t.interfaces, lifetime) {
              HandlersRegisteredGrows(prior.descriptors, r.descriptors, t.self, t.interfaces, lifetime);
            }
          }
        }
      }
    }
  }

  lemma {:induction false} AddBehaviorsComplete(s: seq<Descriptor>, behaviors: seq<Option<TypeInfo>>, lifetime: Lifetime)
    ensures var r := AddBehaviors(s, behaviors, lifetime);
            r.outcome.Ok? <==> forall i | 0 <= i < |behaviors| :: BehaviorError(behaviors[i]).None?
    ensures var r := AddBehaviors(s, behaviors, lifetime);
            r.outcome.Ok? ==> forall t | Some(t) in behaviors ::
              HasPair(r.descriptors, BehaviorInterface(t.genericArity).value, t.self)
    decreases |behaviors|
  {
    if |behaviors| > 0 {
      var front := behaviors[..|behaviors| - 1];
      var last := behaviors[|behaviors| - 1];
      var prior := AddBehaviors(s, front, lifetime);
      var r := AddBehaviors(s, behaviors, lifetime);
      AddBehaviorsComplete(s, front, lifetime);
      assert behaviors == front + [last];
      assert (forall i | 0 <= i < |behaviors| :: BehaviorError(behaviors[i]).None?)
         <==> (forall i | 0 <= i < |front| :: BehaviorError(front[i]).None?) && BehaviorError(last).None? by {
        forall i | 0 <= i < |front| ensures front[i] == behaviors[i] { }
      }
      if r.outcome.Ok? {
        forall t | Some(t) in behaviors ensures HasPair(r.descriptors, BehaviorInterface(t.genericArity).value, t.self) {
          if Some(t) in front {
            var i :| 0 <= i < |front| && front[i] == Some(t);
            assert BehaviorError(front[i]).None?;
            HasPairGrows(prior.descriptors, r.descriptors, BehaviorInterface(t.genericArity).value, t.self);
          }
        }
      }
    }
  }

  /** When AddMediator completes, the collection serves INotificationPublisher and
      IMediator, every handler interface of every concrete type of every configured
      assembly (each notification handler under its own implementation), and every
      configured behavior under its open pipeline interface. It completes exactly
      when the callback is given and finishes, the publisher is not null, no
      assembly is null and every behavior type has one or two generic arguments. */
  lemma AddMediatorComplete(s: seq<Descriptor>, calls: seq<ConfigCall>)
    requires ApplyCalls(Defaults(), calls).Ok?
    ensures var config := ApplyCalls(Defaults(), calls).value;
            var r := AddMediatorSpec(s, Some(calls));
            r.outcome.Ok? <==>
              && config.publisher.Some? && None !in config.assemblies
              && forall i | 0 <= i < |config.behaviors| :: BehaviorError(config.behaviors[i]).None?
    ensures var config := ApplyCalls(Defaults(), calls).value;
            var r := AddMediatorSpec(s, Some(calls));
            r.outcome.Ok? ==>
              && HasService(r.descriptors, PublisherInterface)
              && HasService(r.descriptors, MediatorInterface)
              && (forall a | Some(a) in config.assemblies :: TypesRegistered(r.descriptors, a.types, config.lifetime))
              && (forall t | Some(t) in config.behaviors ::
                    HasPair(r.descriptors, BehaviorInterface(t.genericArity).value, t.self))
  {
    var config := ApplyCalls(Defaults(), calls).value;
    if config.publisher.Some? {
      var lifetime := config.lifetime;
      var s1 := TryAddResult(s, Descriptor(PublisherInterface, config.publisher.value, lifetime));
      var s2 := TryAddResult(s1, Descriptor(MediatorInterface, MediatorClass, lifetime));
      var scanned := AddAssemblies(s2, config.assemblies, lifetime);
      AddAssembliesComplete(s2, config.assemblies, lifetime);
      if scanned.outcome.Ok? {
        var r := AddBehaviors(scanned.descriptors, config.behaviors, lifetime);
        AddBehaviorsComplete(scanned.descriptors, config.behaviors, lifetime);
        if r.outcome.Ok? {
          HasServiceGrows(s1, r.descriptors, PublisherInterface);
          HasServiceGrows(s2, r.descriptors, MediatorInterface);
          forall a | Some(a) in config.assemblies ensures TypesRegistered(r.descriptors, a.types, lifetime) {
            forall t | t in a.types && IsConcrete(t) ensures HandlersRegistered(r.descriptors, t.self, t.interfaces, lifetime) {
              HandlersRegisteredGrows(scanned.descriptors, r.descriptors, t.self, t.interfaces, lifetime);
            }
          }
        }
      }
    }
  }

  // ---------------------------------------------------------------------------
  // Behavior order and failures
  // ---------------------------------------------------------------------------

  /** The descriptors of the behaviors, in configuration order. */
  function BehaviorDescriptors(behaviors: seq<TypeInfo>, lifetime: Lifetime): (r: seq<Descriptor>)
    requires forall i | 0 <= i < |behaviors| :: BehaviorInterface(behaviors[i].genericArity).Some?
    ensures |r| == |behaviors|
    ensures forall i | 0 <= i < |behaviors| ::
      r[i] == Descriptor(BehaviorInterface(behaviors[i].genericArity).value, behaviors[i].self, lifetime)
  {
    seq(|behaviors|, i requires 0 <= i < |behaviors| =>
      Descriptor(BehaviorInterface(behaviors[i].genericArity).value, behaviors[i].self, lifetime))
  }

  /** Behaviors that are all valid, pairwise different and not registered beforehand
      are appended in configuration order, one descriptor each, under the pipeline
      interface of their arity. */
  lemma {:induction false} BehaviorsInOrder(s: seq<Descriptor>, behaviors: seq<TypeInfo>, lifetime: Lifetime)
    requires forall i | 0 <= i < |behaviors| :: BehaviorInterface(behaviors[i].genericArity).Some?
    requires forall i, j | 0 <= i < j < |behaviors| :: behaviors[i].self != behaviors[j].self
    requires forall i | 0 <= i < |behaviors| ::
      !HasPair(s, BehaviorInterface(behaviors[i].genericArity).value, behaviors[i].self)
    ensures AddBehaviors(s, Present(behaviors), lifetime) == Registration(Ok(()), s + BehaviorDescriptors(behaviors, lifetime))
    decreases |behaviors|
  {
    var wrapped := Present(behaviors);
    if |behaviors| > 0 {
      var front := behaviors[..|behaviors| - 1];
      var t := behaviors[|behaviors| - 1];
      var wrappedFront := Present(front);
      assert wrapped[..|wrapped| - 1] == wrappedFront;
      BehaviorsInOrder(s, front, lifetime);
      var prior := s + BehaviorDescriptors(front, lifetime);
      var iface := BehaviorInterface(t.genericArity).value;
      forall k | 0 <= k < |prior| ensures !(prior[k].service == iface && prior[k].implementation == t.self) {
        if k < |s| {
          assert prior[k] == s[k];
        } else {
          assert prior[k] == BehaviorDescriptors(front, lifetime)[k - |s|];
          assert prior[k].implementation == behaviors[k - |s|].self;
        }
      }
      assert BehaviorDescriptors(behaviors, lifetime) == BehaviorDescriptors(front, lifetime) + [Descriptor(iface, t.self, lifetime)];
    }
  }

  /** The first behavior type that raises ends the loop with its error, and what the
      behaviors before it registered stays registered. */
  lemma {:induction false} BehaviorFailureIsFinal(s: seq<Descriptor>, behaviors: seq<Option<TypeInfo>>, lifetime: Lifetime, k: nat)
    requires k < |behaviors| && BehaviorError(behaviors[k]).Some?
    requires forall i | 0 <= i < k :: BehaviorError(behaviors[i]).None?
    ensures AddBehaviors(s, behaviors, lifetime)
         == Registration(Fail(BehaviorError(behaviors[k]).value), AddBehaviors(s, behaviors[..k], lifetime).descriptors)
    decreases |behaviors|
  {
    var front := behaviors[..|behaviors| - 1];
    if k == |behaviors| - 1 {
      AddBehaviorsComplete(s, front, lifetime);
      assert behaviors[..k] == front;
    } else {
      assert front[..k] == behaviors[..k];
      BehaviorFailureIsFinal(s, front, lifetime, k);
    }
  }

  // ---------------------------------------------------------------------------
  // The service collection and AddMediator
  // ---------------------------------------------------------------------------

  /** IServiceCollection: a list of descriptors, appended to in place. */
  class ServiceCollection {
    var descriptors: seq<Descriptor>

    constructor (initial: seq<Descriptor>)
      ensures descriptors == initial
    {
      descriptors := initial;
    }

    /** TryAdd: scan for a descriptor of the same service; append only if there is none. */
    method TryAdd(d: Descriptor)
      modifies this
      ensures descriptors == TryAddResult(old(descriptors), d)
    {
      var i := 0;
      while i < |descriptors| && descriptors[i].service != d.service
        invariant 0 <= i <= |descriptors|
        invariant forall j | 0 <= j < i :: descriptors[j].service != d.service
      {
        i := i + 1;
      }
      if i == |descriptors| {
        descriptors := descriptors + [d];
      }
    }

    /** TryAddEnumerable: scan for a descriptor of the same service and implementation;
        append only if there is none. */
    method TryAddEnumerable(d: Descriptor)
      modifies this
      ensures descriptors == TryAddEnumerableResult(old(descriptors), d)
    {
      var i := 0;
      while i < |descriptors| && !(descriptors[i].service == d.service && descriptors[i].implementation == d.implementation)
        invariant 0 <= i <= |descriptors|
        invariant forall j | 0 <= j < i :: !(descriptors[j].service == d.service && descriptors[j].implementation == d.implementation)
      {
        i := i + 1;
      }
      if i == |descriptors| {
        descriptors := descriptors + [d];
      }
    }
  }

  /** The inner loop of the scan: the handler interfaces of one concrete type. */
  method RegisterInterfaces(services: ServiceCollection, t: TypeInfo, lifetime: Lifetime)
    modifies services
    ensures services.descriptors == AddInterfaces(old(services.descriptors), t.self, t.interfaces, lifetime)
  {
    ghost var before := services.descriptors;
    var i := 0;
    while i < |t.interfaces|
      invariant 0 <= i <= |t.interfaces|
      invariant services.descriptors == AddInterfaces(before, t.self, t.interfaces[..i], lifetime)
    {
      assert t.interfaces[..i + 1][..i] == t.interfaces[..i];
      var iface := t.interfaces[i];
      if IsRequestHandlerInterface(iface) {
        services.TryAdd(Descriptor(iface, t.self, lifetime));
      } else if IsNotificationHandlerInterface(iface) {
        services.TryAddEnumerable(Descriptor(iface, t.self, lifetime));
      }
      i := i + 1;
    }
    assert t.interfaces[..i] == t.interfaces;
  }

  /** The scan of one assembly. */
  method RegisterTypes(services: ServiceCollection, a: Assembly, lifetime: Lifetime)
    modifies services
    ensures services.descriptors == AddTypes(old(services.descriptors), a.types, lifetime)
  {
    ghost var before := services.descriptors;
    var i := 0;
    while i < |a.types|
      invariant 0 <= i <= |a.types|
      invariant services.descriptors == AddTypes(before, a.types[..i], lifetime)
    {
      assert a.types[..i + 1][..i] == a.types[..i];
      var t := a.types[i];
      if IsConcrete(t) {
        RegisterInterfaces(services, t, lifetime);
      }
      i := i + 1;
    }
    assert a.types[..i] == a.types;
  }

  /** The loop over the configured assemblies. */
  method RegisterAssemblies(services: ServiceCollection, assemblies: seq<Option<Assembly>>, lifetime: Lifetime)
    returns (r: Outcome<()>)
    modifies services
    ensures Registration(r, services.descriptors) == AddAssemblies(old(services.descriptors), assemblies, lifetime)
  {
    ghost var before := services.descriptors;
    var i := 0;
    while i < |assemblies|
      invariant 0 <= i <= |assemblies|
      invariant AddAssemblies(before, assemblies[..i], lifetime) == Registration(Ok(()), services.descriptors)
    {
      assert assemblies[..i + 1][..i] == assemblies[..i];
      if assemblies[i].None? {
        AssemblyFailureIsFinal(before, assemblies, lifetime, i + 1);
        return Fail(NullReference);
      }
      RegisterTypes(services, assemblies[i].value, lifetime);
      i := i + 1;
    }
    assert assemblies[..i] == assemblies;
    r := Ok(());
  }

  lemma {:induction false} AssemblyFailureIsFinal(s: seq<Descriptor>, assemblies: seq<Option<Assembly>>, lifetime: Lifetime, k: nat)
    requires k <= |assemblies| && AddAssemblies(s, assemblies[..k], lifetime).outcome.Fail?
    ensures AddAssemblies(s, assemblies, lifetime) == AddAssemblies(s, assemblies[..k], lifetime)
    decreases |assemblies| - k
  {
    if k < |assemblies| {
      assert assemblies[..k + 1][..k] == assemblies[..k];
      AssemblyFailureIsFinal(s, assemblies, lifetime, k + 1);
    } else {
      assert assemblies[..k] == assemblies;
    }
  }

  /** One more behavior after a prefix that succeeded: an invalid one ends the whole
      loop with its error, a valid one adds its descriptor. */
  lemma AddBehaviorsStep(s: seq<Descriptor>, behaviors: seq<Option<TypeInfo>>, lifetime: Lifetime, i: nat)
    requires i < |behaviors| && AddBehaviors(s, behaviors[..i], lifetime).outcome.Ok?
    ensures BehaviorError(behaviors[i]).Some? ==>
              AddBehaviors(s, behaviors, lifetime)
              == Registration(Fail(BehaviorError(behaviors[i]).value), AddBehaviors(s, behaviors[..i], lifetime).descriptors)
    ensures BehaviorError(behaviors[i]).None? ==>
              AddBehaviors(s, behaviors[..i + 1], lifetime)
              == Registration(Ok(()), TryAddEnumerableResult(AddBehaviors(s, behaviors[..i], lifetime).descriptors,
                                      Descriptor(BehaviorInterface(behaviors[i].value.genericArity).value,
                                                 behaviors[i].value.self, lifetime)))
  {
    assert behaviors[..i + 1][..i] == behaviors[..i];
    if BehaviorError(behaviors[i]).Some? {
      AddBehaviorsComplete(s, behaviors[..i], lifetime);
      BehaviorFailureIsFinal(s, behaviors, lifetime, i);
    }
  }

  /** The loop over the configured behavior types. */
  method RegisterBehaviors(services: ServiceCollection, behaviors: seq<Option<TypeInfo>>, lifetime: Lifetime)
    returns (r: Outcome<()>)
    modifies services
    ensures Registration(r, services.descriptors) == AddBehaviors(old(services.descriptors), behaviors, lifetime)
  {
    ghost var before := services.descriptors;
    var i := 0;
    while i < |behaviors|
      invariant 0 <= i <= |behaviors|
      invariant AddBehaviors(before, behaviors[..i], lifetime) == Registration(Ok(()), services.descriptors)
    {
      AddBehaviorsStep(before, behaviors, lifetime, i);
      if behaviors[i].None? {
        return Fail(NullReference);
      }
      var t := behaviors[i].value;
      var genericArg := t.genericArity;
      var pipelineTypeInterface: Type;
      if genericArg == 1 {
        pipelineTypeInterface := OpenType(VoidPipelineBehavior);
      } else if genericArg == 2 {
        pipelineTypeInterface := OpenType(PipelineBehavior);
      } else {
        return Fail(ArgumentOutOfRange("genericArg"));
      }
      services.TryAddEnumerable(Descriptor(pipelineTypeInterface, t.self, lifetime));
      i := i + 1;
    }
    assert behaviors[..i] == behaviors;
    r := Ok(());
  }

  /** AddMediator(services, configureOptions): returns the same collection for chaining. */
  method AddMediator(services: ServiceCollection, configureOptions: Option<seq<ConfigCall>>)
    returns (r: Outcome<ServiceCollection>)
    modifies services
    ensures var spec := AddMediatorSpec(old(services.descriptors), configureOptions);
            && (r.Ok? <==> spec.outcome.Ok?)
            && (r.Ok? ==> r.value == services)
            && (r.Fail? ==> r.error == spec.outcome.error)
            && services.descriptors == spec.descriptors
  {
    if configureOptions.None? {
      return Fail(ArgumentNull("configureOptions"));
    }
    var calls := configureOptions.value;
    var config := new MediatorServiceConfiguration();
    var i := 0;
    while i < |calls|
      invariant 0 <= i <= |calls|
      invariant ApplyCalls(Defaults(), calls[..i]) == Ok(config.State())
      invariant services.descriptors == old(services.descriptors)
    {
      assert calls[..i + 1][..i] == calls[..i];
      var done := config.Apply(calls[i]);
      if done.Fail? {
        ConfigFailureIsFinal(calls, i + 1);
        return Fail(done.error);
      }
      i := i + 1;
    }
    assert calls[..i] == calls;
    if config.notificationPublisher.None? {
      return Fail(NullReference);
    }
    var lifetime := config.lifetime;
    services.TryAdd(Descriptor(PublisherInterface, config.notificationPublisher.value, lifetime));
    services.TryAdd(Descriptor(MediatorInterface, MediatorClass, lifetime));
    var scanned := RegisterAssemblies(services, config.assemblies, lifetime);
    if scanned.Fail? {
      return Fail(scanned.error);
    }
    var added := RegisterBehaviors(services, config.pipelineBehaviors, lifetime);
    if added.Fail? {
      return Fail(added.error);
    }
    r := Ok(services);
  }

  lemma {:induction false} ConfigFailureIsFinal(calls: seq<ConfigCall>, k: nat)
    requires k <= |calls| && ApplyCalls(Defaults(), calls[..k]).Fail?
    ensures ApplyCalls(Defaults(), calls) == ApplyCalls(Defaults(), calls[..k])
    decreases |calls| - k
  {
    if k < |calls| {
      assert calls[..k + 1][..k] == calls[..k];
      ConfigFailureIsFinal(calls, k + 1);
    } else {
      assert calls[..k] == calls;
    }
  }
}
