/** MediatorServiceConfiguration: the options object AddMediator hands to the
    application's configureOptions callback, and what reflection reports about
    the assemblies and behavior types put into it. */
module Configuration {
  import opened Abstractions

  /** ServiceLifetime. */
  datatype Lifetime = Singleton | Scoped | Transient

  /** What reflection reports about a type: whether it is an interface or abstract,
      GetInterfaces() in order, and GetGenericArguments().Length. */
  datatype TypeInfo = TypeInfo(self: Type, isInterface: bool, isAbstract: bool, interfaces: seq<Type>, genericArity: nat)

  /** An assembly, by Assembly.GetTypes(). */
  datatype Assembly = Assembly(types: seq<TypeInfo>)

  /** The configuration's four properties. The publisher is the runtime class of the
      NotificationPublisher instance (None when the application set it to null);
      a null assembly or behavior type in a list is None. */
  datatype ConfigState = ConfigState(lifetime: Lifetime, publisher: Option<Type>,
                                     assemblies: seq<Option<Assembly>>, behaviors: seq<Option<TypeInfo>>)

  /** One call configureOptions makes on the configuration object. */
  datatype ConfigCall =
    | SetLifetime(newLifetime: Lifetime)                        // Lifetime = …
    | SetPublisher(newPublisher: Option<Type>)                  // NotificationPublisher = …
    | AddAssembly(assembly: Option<Assembly>)                   // AddRegisterAssembly(…)
    | AddAssemblies(assemblyList: Option<seq<Option<Assembly>>>) // AddRegisterAssemblies(…); None is a null array
    | AddBehavior(behaviorType: Option<TypeInfo>)               // AddOpenBehavior(…)

  /** A fresh configuration: scoped lifetime, a ForeachAwaitPublisher, no assemblies
      and no behaviors. */
  function Defaults(): ConfigState
  {
    ConfigState(Scoped, Some(ForeachAwaitPublisherClass), [], [])
  }

  /** The effect of one call; List.AddRange rejects a null array, naming its parameter
      "collection", and changes nothing. */
  function ApplyCall(st: ConfigState, call: ConfigCall): (r: Outcome<ConfigState>)
    ensures r.Fail? <==> call == AddAssemblies(None)
    ensures r.Fail? ==> r.error == ArgumentNull("collection")
    ensures r.Ok? ==> r.value.assemblies == st.assemblies + AssembliesOf(call)
  {
    match call
    case SetLifetime(l) => Ok(st.(lifetime := l))
    case SetPublisher(p) => Ok(st.(publisher := p))
    case AddAssembly(a) => Ok(st.(assemblies := st.assemblies + [a]))
    case AddAssemblies(None) => Fail(ArgumentNull("collection"))
    case AddAssemblies(Some(list)) => Ok(st.(assemblies := st.assemblies + list))
    case AddBehavior(b) => Ok(st.(behaviors := st.behaviors + [b]))
  }

  /** The calls of configureOptions, one after the other; the first exception ends
      the callback. */
  function ApplyCalls(st: ConfigState, calls: seq<ConfigCall>): Outcome<ConfigState>
    decreases |calls|
  {
    if |calls| == 0 then Ok(st)
    else
      match ApplyCalls(st, calls[..|calls| - 1])
      case Fail(e) => Fail(e)
      case Ok(prior) => ApplyCall(prior, calls[|calls| - 1])
  }

  // ---------------------------------------------------------------------------
  // Reference definitions: what a sequence of calls adds, read off the calls
  // ---------------------------------------------------------------------------

  /** The assemblies one call adds. */
  function AssembliesOf(call: ConfigCall): seq<Option<Assembly>>
  {
    match call
    case AddAssembly(a) => [a]
    case AddAssemblies(Some(list)) => list
    case _ => []
  }

  /** The assemblies the calls add, in call order. */
  function AssembliesAdded(calls: seq<ConfigCall>): seq<Option<Assembly>>
    decreases |calls|
  {
    if |calls| == 0 then [] else AssembliesOf(calls[0]) + AssembliesAdded(calls[1..])
  }

  /** The behavior types the calls add, in call order. */
  function BehaviorsAdded(calls: seq<ConfigCall>): seq<Option<TypeInfo>>
    decreases |calls|
  {
    if |calls| == 0 then []
    else (if calls[0].AddBehavior? then [calls[0].behaviorType] else []) + BehaviorsAdded(calls[1..])
  }

  /** The lifetime the last SetLifetime sets, or `start` when none does. */
  function FinalLifetime(start: Lifetime, calls: seq<ConfigCall>): Lifetime
    decreases |calls|
  {
    if |calls| == 0 then start
    else if calls[|calls| - 1].SetLifetime? then calls[|calls| - 1].newLifetime
    else FinalLifetime(start, calls[..|calls| - 1])
  }

  /** The publisher the last SetPublisher sets, or `start` when none does. */
  function FinalPublisher(start: Option<Type>, calls: seq<ConfigCall>): Option<Type>
    decreases |calls|
  {
    if |calls| == 0 then start
    else if calls[|calls| - 1].SetPublisher? then calls[|calls| - 1].newPublisher
    else FinalPublisher(start, calls[..|calls| - 1])
  }

  /** No call passes a null array to AddRegisterAssemblies. */
  ghost predicate NoNullArray(calls: seq<ConfigCall>)
  {
    forall i | 0 <= i < |calls| :: calls[i].AddAssemblies? ==> calls[i].assemblyList.Some?
  }

  lemma {:induction false} AssembliesAddedSnoc(calls: seq<ConfigCall>, last: ConfigCall)
    ensures AssembliesAdded(calls + [last]) == AssembliesAdded(calls) + AssembliesAdded([last])
    decreases |calls|
  {
    if |calls| == 0 {
      assert calls + [last] == [last];
    } else {
      assert (calls + [last])[1..] == calls[1..] + [last];
      AssembliesAddedSnoc(calls[1..], last);
    }
  }

  lemma {:induction false} BehaviorsAddedSnoc(calls: seq<ConfigCall>, last: ConfigCall)
    ensures BehaviorsAdded(calls + [last]) == BehaviorsAdded(calls) + BehaviorsAdded([last])
    decreases |calls|
  {
    if |calls| == 0 {
      assert calls + [last] == [last];
    } else {
      assert (calls + [last])[1..] == calls[1..] + [last];
      BehaviorsAddedSnoc(calls[1..], last);
    }
  }

  /** The callback fails exactly when it passes a null array, and then with the
      ArgumentNullException of AddRange. */
  lemma {:induction false} ApplyCallsFailsOnNullArray(st: ConfigState, calls: seq<ConfigCall>)
    ensures ApplyCalls(st, calls).Ok? <==> NoNullArray(calls)
    ensures ApplyCalls(st, calls).Fail? ==> ApplyCalls(st, calls).error == ArgumentNull("collection")
    decreases |calls|
  {
    if |calls| > 0 {
      var prefix, last := calls[..|calls| - 1], calls[|calls| - 1];
      ApplyCallsFailsOnNullArray(st, prefix);
      assert NoNullArray(calls) <==> NoNullArray(prefix) && (last.AddAssemblies? ==> last.assemblyList.Some?) by {
        forall i | 0 <= i < |prefix| ensures prefix[i] == calls[i] { }
      }
    }
  }

  /** A callback that succeeds leaves what the configuration started with followed
      by every assembly and every behavior type the calls added, in call order (so
      nothing is dropped or reordered), and the last lifetime and publisher set. */
  lemma {:induction false} ApplyCallsContents(st: ConfigState, calls: seq<ConfigCall>)
    requires ApplyCalls(st, calls).Ok?
    ensures ApplyCalls(st, calls).value.assemblies == st.assemblies + AssembliesAdded(calls)
    ensures ApplyCalls(st, calls).value.behaviors == st.behaviors + BehaviorsAdded(calls)
    ensures ApplyCalls(st, calls).value.lifetime == FinalLifetime(st.lifetime, calls)
    ensures ApplyCalls(st, calls).value.publisher == FinalPublisher(st.publisher, calls)
    decreases |calls|
  {
    if |calls| > 0 {
      var prefix, last := calls[..|calls| - 1], calls[|calls| - 1];
      assert calls == prefix + [last];
      var prior := ApplyCalls(st, prefix);
      assert prior.Ok? && ApplyCalls(st, calls) == ApplyCall(prior.value, last);
      ApplyCallsContents(st, prefix);
      AssembliesAddedSnoc(prefix, last);
      BehaviorsAddedSnoc(prefix, last);
      assert AssembliesAdded([last]) == AssembliesOf(last) + AssembliesAdded([last][1..]);
      assert BehaviorsAdded([last]) == (if last.AddBehavior? then [last.behaviorType] else []) + BehaviorsAdded([last][1..]);
    }
  }

  /** MediatorServiceConfiguration. */
  class MediatorServiceConfiguration {
    var lifetime: Lifetime
    var notificationPublisher: Option<Type>
    var assemblies: seq<Option<Assembly>>
    var pipelineBehaviors: seq<Option<TypeInfo>>

    function State(): ConfigState
      reads this
    {
      ConfigState(lifetime, notificationPublisher, assemblies, pipelineBehaviors)
    }

    constructor ()
      ensures State() == Defaults()
    {
      lifetime := Scoped;
      notificationPublisher := Some(ForeachAwaitPublisherClass);
      assemblies := [];
      pipelineBehaviors := [];
    }

    /** The Lifetime setter. */
    method SetLifetime(value: Lifetime)
      modifies this
      ensures State() == old(State()).(lifetime := value)
    {
      lifetime := value;
    }

    /** The NotificationPublisher setter. */
    method SetNotificationPublisher(value: Option<Type>)
      modifies this
      ensures State() == old(State()).(publisher := value)
    {
      notificationPublisher := value;
    }

    /** AddRegisterAssembly: append one assembly (null included) and return this
        configuration for chaining. */
    method AddRegisterAssembly(assembly: Option<Assembly>) returns (self: MediatorServiceConfiguration)
      modifies this
      ensures self == this
      ensures State() == old(State()).(assemblies := old(assemblies) + [assembly])
    {
      assemblies := assemblies + [assembly];
      self := this;
    }

    /** AddRegisterAssemblies: append every assembly of the array, in order, and return
        this configuration; a null array raises and appends nothing. */
    method AddRegisterAssemblies(list: Option<seq<Option<Assembly>>>) returns (self: Outcome<MediatorServiceConfiguration>)
      modifies this
      ensures list.None? ==> self == Fail(ArgumentNull("collection")) && State() == old(State())
      ensures list.Some? ==> self == Ok(this) && State() == old(State()).(assemblies := old(assemblies) + list.value)
    {
      if list.None? {
        return Fail(ArgumentNull("collection"));
      }
      assemblies := assemblies + list.value;
      self := Ok(this);
    }

    /** AddOpenBehavior: append one behavior type (null included). */
    method AddOpenBehavior(behaviorType: Option<TypeInfo>)
      modifies this
      ensures State() == old(State()).(behaviors := old(pipelineBehaviors) + [behaviorType])
    {
      pipelineBehaviors := pipelineBehaviors + [behaviorType];
    }

    /** Make one call of configureOptions on this configuration. */
    method Apply(call: ConfigCall) returns (r: Outcome<()>)
      modifies this
      ensures ApplyCall(old(State()), call) == if r.Ok? then Ok(State()) else Fail(r.error)
      ensures r.Fail? ==> State() == old(State())
    {
      r := Ok(());
      match call
      case SetLifetime(l) => SetLifetime(l);
      case SetPublisher(p) => SetNotificationPublisher(p);
      case AddAssembly(a) => var _ := AddRegisterAssembly(a);
      case AddAssemblies(list) =>
        var self := AddRegisterAssemblies(list);
        if self.Fail? {
          r := Fail(self.error);
        }
      case AddBehavior(b) => AddOpenBehavior(b);
    }
  }
}
