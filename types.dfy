/**
 * The values the dispatch core passes around: runtime types and what
 * reflection reports about them, events, consumer instances, exceptions,
 * the outcome of one handler call, and the configuration options.
 */
module Types {

  datatype Option<T> = None | Some(value: T)

  /** A runtime type (`System.Type`), identified by a number. */
  datatype TypeId = TypeId(id: nat)

  /** The open generic definition an implemented interface was built from. */
  datatype GenericDefinition = IConsumerDefinition | OtherDefinition(definition: TypeId)

  /**
   * One interface as `GetInterfaces` reports it: a non-generic interface, or a
   * closed generic one with its definition and its first generic argument.
   */
  datatype Interface =
    | NonGeneric(interfaceType: TypeId)
    | Generic(definition: GenericDefinition, argument: TypeId)

  /** What reflection reports about a type. */
  datatype TypeDesc = TypeDesc(isClass: bool, isAbstract: bool, interfaces: seq<Interface>)

  /**
   * The runtime's type metadata: a type's descriptor, `IsAssignableFrom`
   * (`isAssignableFrom(a, b)` holds when a value of type `b` can be assigned to
   * a variable of type `a`), and what `GetMethod("ConsumeAsync", [event,
   * CancellationToken])` does on a consumer type for an event type.
   */
  class Reflection {
    const describe: TypeId -> TypeDesc
    const isAssignableFrom: (TypeId, TypeId) -> bool
    const consumeMethod: (TypeId, TypeId) -> MethodLookup

    constructor (
      describe: TypeId -> TypeDesc,
      isAssignableFrom: (TypeId, TypeId) -> bool,
      consumeMethod: (TypeId, TypeId) -> MethodLookup)
      ensures this.describe == describe
      ensures this.isAssignableFrom == isAssignableFrom
      ensures this.consumeMethod == consumeMethod
    {
      this.describe := describe;
      this.isAssignableFrom := isAssignableFrom;
      this.consumeMethod := consumeMethod;
    }
  }

  /**
   * What `GetMethod` with an argument-type list does: it returns the one
   * applicable method, returns `null` when none applies, or throws
   * `AmbiguousMatchException` when several apply equally well (a consumer
   * with a `ConsumeAsync` for each of two interfaces the event implements).
   */
  datatype MethodLookup = Found | Missing | Ambiguous

  /** An event object: its identity and its runtime type (`GetType()`). */
  datatype Event = Event(id: nat, runtimeType: TypeId)

  /** A live consumer object handed out by the instance resolver. */
  datatype Instance = Instance(id: nat)

  datatype CancellationToken = CancellationToken(id: nat)

  datatype Exception =
    | ArgumentNullException(paramName: string)
    | InvalidOperationException(message: string)
    | QueueException(message: string)
    | NullReferenceException
    | TargetException
    | TargetInvocationException(inner: Exception)
    | AmbiguousMatchException
    | HandlerException(id: nat)

  /** The result of a member that returns a value or throws. */
  datatype Result<T> = Ok(value: T) | Err(error: Exception)

  /** The result of a member that returns nothing or throws. */
  datatype Outcome = Done | Failed(error: Exception)

  /**
   * What calling a consumer's `ConsumeAsync` does: returns a task that completes,
   * returns a task that faults (the exception surfaces when it is awaited), or
   * throws before returning a task.
   */
  datatype Invocation = Completed | Faulted(exception: Exception) | Threw(exception: Exception)

  /**
   * The behaviour of the consumers' own code: the invocation that calling the
   * `ConsumeAsync` overload for `handlerType` on `instance` with an event yields.
   */
  type Invoker = (Instance, TypeId, Event) -> Invocation

  /** One call of a consumer's `ConsumeAsync`, as observed by the consumer. */
  datatype Call = Call(
    consumerType: TypeId,
    instance: Instance,
    handlerType: TypeId,
    event: Event,
    token: CancellationToken)

  /** A failure record of the error queue. */
  datatype FailedEvent = FailedEvent(
    data: Event,
    exception: Exception,
    failedConsumer: Option<TypeId>,
    timestamp: Option<int>)

  datatype ServiceLifetime = Singleton | Scoped | Transient

  /** `ProcessingMode`; `Undefined` is an integer cast to the enum that names no member. */
  datatype ProcessingMode = Sequential | Parallel | Undefined(value: int)

  /** Durations are counted in `TimeSpan` ticks: 10,000 ticks make a millisecond. */
  const TicksPerMillisecond: nat := 10_000

  /** `EventBusBuilderOptions`. */
  datatype EventBusBuilderOptions = EventBusBuilderOptions(
    useEventPolymorphism: bool,
    useEventsQueue: bool,
    useErrorQueue: bool,
    queueTickRate: nat,
    errorTickRate: nat)

  /** The options a new builder starts with. */
  const DefaultOptions: EventBusBuilderOptions := EventBusBuilderOptions(
    useEventPolymorphism := false,
    useEventsQueue := true,
    useErrorQueue := false,
    queueTickRate := 20 * TicksPerMillisecond,
    errorTickRate := 20 * TicksPerMillisecond)

  /**
   * The exception that awaiting `Task.WhenAll` over tasks with these outcomes
   * rethrows: the exception of the first faulted task, if any.
   */
  function FirstFault(started: seq<Invocation>): (r: Option<Exception>)
    ensures r.None? <==> forall k :: 0 <= k < |started| ==> !started[k].Faulted?
    ensures r.Some? ==> exists k :: 0 <= k < |started| && started[k] == Faulted(r.value)
                          && forall j :: 0 <= j < k ==> !started[j].Faulted?
  {
    if started == [] then None
    else if started[0].Faulted? then Some(started[0].exception)
    else
      var rest := FirstFault(started[1..]);
      assert forall k :: 1 <= k < |started| ==> started[k] == started[1..][k - 1];
      rest
  }

  lemma {:induction false} FirstFaultAppend(started: seq<Invocation>, x: Invocation)
    ensures FirstFault(started + [x]) ==
      if FirstFault(started).Some? then FirstFault(started)
      else if x.Faulted? then Some(x.exception) else None
  {
    if started != [] {
      assert (started + [x])[1..] == started[1..] + [x];
      FirstFaultAppend(started[1..], x);
    }
  }
}
