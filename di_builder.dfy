/**
 * `DependencyInjectionEventBusBuilder`: the builder over a service
 * collection. Its `AddConsumer` overloads check the collection's descriptors
 * before falling through to the base builder's registration.
 */
module DiBuilder {
  import opened Types
  import opened Seqs
  import opened Registry
  import opened Builder

  /** A `ServiceDescriptor` as the builder creates and inspects it. */
  datatype ServiceDescriptor = ServiceDescriptor(serviceType: TypeId, implementationType: TypeId, lifetime: ServiceLifetime)

  /** The `IServiceCollection`: a list of descriptors that `Add` appends to. */
  class ServiceCollection {
    var descriptors: seq<ServiceDescriptor>

    constructor (descriptors: seq<ServiceDescriptor>)
      ensures this.descriptors == descriptors
    {
      this.descriptors := descriptors;
    }

    method Add(d: ServiceDescriptor)
      modifies this
      ensures descriptors == old(descriptors) + [d]
    {
      descriptors := descriptors + [d];
    }
  }

  /** `typeof(DependencyInjectionQueueProcessor)`, the default background service. */
  const QueueProcessorType: TypeId := TypeId(0)

  const LifetimeMismatchMessage: string := "Event consumer must be registered with the same lifetime as the one provided."
  const NotRegisteredMessage: string := "Event consumer must be registered in the service collection."

  /**
   * `services.FirstOrDefault(d => d.ServiceType == consumerType)`. A descriptor
   * never has a null service type, so a null `consumerType` finds nothing.
   */
  function FirstOrDefault(svcs: seq<ServiceDescriptor>, consumerType: Option<TypeId>): (r: Option<ServiceDescriptor>)
    ensures consumerType.None? ==> r.None?
    ensures r.None? ==> forall i :: 0 <= i < |svcs| ==> Some(svcs[i].serviceType) != consumerType
    ensures r.Some? ==> exists i :: 0 <= i < |svcs| && svcs[i] == r.value && Some(r.value.serviceType) == consumerType
                          && forall j :: 0 <= j < i ==> Some(svcs[j].serviceType) != consumerType
  {
    if svcs == [] || consumerType.None? then None
    else if svcs[0].serviceType == consumerType.value then Some(svcs[0])
    else
      var rest := FirstOrDefault(svcs[1..], consumerType);
      assert forall i :: 1 <= i < |svcs| ==> svcs[i] == svcs[1..][i - 1];
      rest
  }

  /** How many descriptors have `c` as service type. */
  function DescriptorCount(svcs: seq<ServiceDescriptor>, c: TypeId): nat
  {
    if svcs == [] then 0
    else DescriptorCount(DropLast(svcs), c) + (if Last(svcs).serviceType == c then 1 else 0)
  }

  lemma {:induction false} DescriptorCountZero(svcs: seq<ServiceDescriptor>, c: TypeId)
    ensures DescriptorCount(svcs, c) == 0 <==> FirstOrDefault(svcs, Some(c)).None?
  {
    if svcs != [] {
      LastSplit(svcs);
      DescriptorCountZero(DropLast(svcs), c);
      var init := DropLast(svcs);
      if FirstOrDefault(init, Some(c)).Some? {
        var i :| 0 <= i < |init| && init[i].serviceType == c;
        assert svcs[i] == init[i];
      }
      if FirstOrDefault(svcs, Some(c)).Some? {
        var i :| 0 <= i < |svcs| && svcs[i].serviceType == c;
        if i < |init| { assert init[i] == svcs[i]; }
      }
    }
  }

  /**
   * What `AddConsumer(consumerType, lifetime)` does to the descriptors: a
   * descriptor of another lifetime is an error; one of the same lifetime is
   * kept as it is; none means `(c, c, lifetime)` is appended. A null type
   * reaches the `ServiceDescriptor` constructor, which rejects it.
   */
  function DescriptorsAfterAdd(svcs: seq<ServiceDescriptor>, consumerType: Option<TypeId>, lifetime: ServiceLifetime)
    : Result<seq<ServiceDescriptor>>
  {
    match FirstOrDefault(svcs, consumerType)
    case Some(d) =>
      if d.lifetime != lifetime then Err(InvalidOperationException(LifetimeMismatchMessage)) else Ok(svcs)
    case None =>
      if consumerType.None? then Err(ArgumentNullException("serviceType"))
      else Ok(svcs + [ServiceDescriptor(consumerType.value, consumerType.value, lifetime)])
  }

  /**
   * After a successful `AddConsumer(c, lifetime)` the collection has a
   * descriptor for `c` of that lifetime, it was appended only if none existed,
   * and a second call with the same lifetime changes nothing more: adding twice
   * to a collection without `c` leaves exactly one descriptor for it.
   */
  lemma DescriptorsAfterAddTwice(svcs: seq<ServiceDescriptor>, c: TypeId, lifetime: ServiceLifetime)
    requires DescriptorsAfterAdd(svcs, Some(c), lifetime).Ok?
    ensures FirstOrDefault(DescriptorsAfterAdd(svcs, Some(c), lifetime).value, Some(c)).Some?
    ensures FirstOrDefault(DescriptorsAfterAdd(svcs, Some(c), lifetime).value, Some(c)).value.lifetime == lifetime
    ensures DescriptorsAfterAdd(DescriptorsAfterAdd(svcs, Some(c), lifetime).value, Some(c), lifetime)
         == DescriptorsAfterAdd(svcs, Some(c), lifetime)
    ensures DescriptorCount(svcs, c) == 0 ==> DescriptorCount(DescriptorsAfterAdd(svcs, Some(c), lifetime).value, c) == 1
  {
    var s1 := DescriptorsAfterAdd(svcs, Some(c), lifetime).value;
    if FirstOrDefault(svcs, Some(c)).None? {
      var d := ServiceDescriptor(c, c, lifetime);
      assert s1 == svcs + [d];
      FirstOrDefaultAppend(svcs, d, c);
      DescriptorCountZero(svcs, c);
      DropLastAppend(svcs, d);
    } else {
      DescriptorCountZero(svcs, c);
    }
  }

  lemma FirstOrDefaultAppend(svcs: seq<ServiceDescriptor>, d: ServiceDescriptor, c: TypeId)
    requires FirstOrDefault(svcs, Some(c)).None? && d.serviceType == c
    ensures FirstOrDefault(svcs + [d], Some(c)) == Some(d)
  {
    var s := svcs + [d];
    var r := FirstOrDefault(s, Some(c));
    assert s[|svcs|] == d;
    assert r.Some?;
    var i :| 0 <= i < |s| && s[i] == r.value && r.value.serviceType == c
             && forall j :: 0 <= j < i ==> Some(s[j].serviceType) != Some(c);
    assert forall j :: 0 <= j < |svcs| ==> s[j] == svcs[j];
  }

  class DependencyInjectionEventBusBuilder {
    /** The `EventBusBuilder` this class derives from: its dictionary and options. */
    const base: EventBusBuilder
    /** The service collection given to the constructor. */
    const services: ServiceCollection
    /** `QueueBackgroundService`. */
    var queueBackgroundService: TypeId

    ghost predicate Valid()
      reads this, base, base.classConsumers
    {
      base.Valid()
    }

    constructor (services: ServiceCollection, reflection: Reflection)
      ensures Valid() && fresh(base) && fresh(base.classConsumers)
      ensures this.services == services && base.reflection == reflection
      ensures base.classConsumers.View() == Empty && base.options == DefaultOptions
      ensures queueBackgroundService == QueueProcessorType
    {
      base := new EventBusBuilder(reflection);
      this.services := services;
      queueBackgroundService := QueueProcessorType;
    }

    /**
     * `AddConsumer(consumerType, lifetime)`: the descriptors change as
     * `DescriptorsAfterAdd` says; on success the base builder registers the
     * type and this builder is returned, on an error nothing changes.
     */
    method AddConsumerWithLifetime(consumerType: Option<TypeId>, lifetime: ServiceLifetime)
      returns (r: Result<BuilderRef>)
      requires Valid()
      modifies services, base.classConsumers
      ensures Valid()
      ensures DescriptorsAfterAdd(old(services.descriptors), consumerType, lifetime).Err? ==>
                r == Err(DescriptorsAfterAdd(old(services.descriptors), consumerType, lifetime).error)
                && services.descriptors == old(services.descriptors)
                && base.classConsumers.View() == old(base.classConsumers.View())
      ensures DescriptorsAfterAdd(old(services.descriptors), consumerType, lifetime).Ok? ==>
                consumerType.Some? && r == Ok(DependencyInjection(this))
                && services.descriptors == DescriptorsAfterAdd(old(services.descriptors), consumerType, lifetime).value
                && base.classConsumers.View() == AfterAdd(base.reflection.describe, old(base.classConsumers.View()), consumerType.value)
    {
      var descriptor := FirstOrDefault(services.descriptors, consumerType);
      if descriptor.Some? {
        if descriptor.value.lifetime != lifetime {
          return Err(InvalidOperationException(LifetimeMismatchMessage));
        }
        var _ := base.AddConsumer(consumerType);
        return Ok(DependencyInjection(this));
      }
      if consumerType.None? {
        return Err(ArgumentNullException("serviceType"));
      }
      services.Add(ServiceDescriptor(consumerType.value, consumerType.value, lifetime));
      var _ := base.AddConsumer(consumerType);
      return Ok(DependencyInjection(this));
    }

    /**
     * The `AddConsumer(consumerType)` override: a type without a descriptor is
     * refused with "must be registered"; otherwise the base builder registers
     * it. The descriptors are never changed.
     */
    method AddConsumer(consumerType: Option<TypeId>) returns (r: Result<BuilderRef>)
      requires Valid()
      modifies base.classConsumers
      ensures Valid()
      ensures FirstOrDefault(services.descriptors, consumerType).None? ==>
                r == Err(InvalidOperationException(NotRegisteredMessage))
                && base.classConsumers.View() == old(base.classConsumers.View())
      ensures FirstOrDefault(services.descriptors, consumerType).Some? ==>
                consumerType.Some? && r == Ok(DependencyInjection(this))
                && base.classConsumers.View() == AfterAdd(base.reflection.describe, old(base.classConsumers.View()), consumerType.value)
    {
      var descriptor := FirstOrDefault(services.descriptors, consumerType);
      if descriptor.None? {
        return Err(InvalidOperationException(NotRegisteredMessage));
      }
      var _ := base.AddConsumer(consumerType);
      return Ok(DependencyInjection(this));
    }
  }

  /** A reference of static type `EventBusBuilder`: a plain builder or a dependency-injection one. */
  datatype BuilderRef =
    | Base(builder: EventBusBuilder)
    | DependencyInjection(di: DependencyInjectionEventBusBuilder)
  {
    /** The `EventBusBuilder` part of the object. */
    function Core(): EventBusBuilder
    {
      match this
      case Base(b) => b
      case DependencyInjection(d) => d.base
    }

    ghost predicate Valid()
      reads Core(), Core().classConsumers
    {
      Core().Valid()
    }
  }

  /**
   * The exception the virtual `AddConsumer(consumerType)` throws before
   * registering, if any: the base builder refuses only null, the
   * dependency-injection override refuses any type without a descriptor.
   */
  function Rejection(b: BuilderRef, svcs: seq<ServiceDescriptor>, consumerType: Option<TypeId>): Option<Exception>
  {
    match b
    case Base(_) => if consumerType.None? then Some(ArgumentNullException("consumerType")) else None
    case DependencyInjection(_) =>
      if FirstOrDefault(svcs, consumerType).None? then Some(InvalidOperationException(NotRegisteredMessage)) else None
  }

  /** The descriptors the override consults: none for a plain builder. */
  ghost function ServicesOf(b: BuilderRef): seq<ServiceDescriptor>
    reads if b.DependencyInjection? then {b.di.services} else {}
  {
    if b.DependencyInjection? then b.di.services.descriptors else []
  }

  /** A refused call is exactly a null type or, on a dependency-injection builder, an unregistered one. */
  lemma RejectionCases(b: BuilderRef, svcs: seq<ServiceDescriptor>, consumerType: Option<TypeId>)
    ensures Rejection(b, svcs, None).Some?
    ensures consumerType.Some? && b.Base? ==> Rejection(b, svcs, consumerType).None?
    ensures consumerType.Some? && b.DependencyInjection? ==>
              (Rejection(b, svcs, consumerType).None? <==>
               exists i :: 0 <= i < |svcs| && svcs[i].serviceType == consumerType.value)
  {
    if consumerType.Some? && b.DependencyInjection? {
      var r := FirstOrDefault(svcs, consumerType);
      if r.None? {
        assert forall i :: 0 <= i < |svcs| ==> svcs[i].serviceType != consumerType.value;
      }
    }
  }

  /** `builder.AddConsumer(consumerType)` through a reference of static type `EventBusBuilder`. */
  method AddConsumer(b: BuilderRef, consumerType: Option<TypeId>) returns (r: Result<BuilderRef>)
    requires b.Valid()
    modifies b.Core().classConsumers
    ensures b.Valid()
    ensures Rejection(b, ServicesOf(b), consumerType).Some? ==>
              r == Err(Rejection(b, ServicesOf(b), consumerType).value)
              && b.Core().classConsumers.View() == old(b.Core().classConsumers.View())
    ensures Rejection(b, ServicesOf(b), consumerType).None? ==>
              consumerType.Some? && r == Ok(b)
              && b.Core().classConsumers.View() == AfterAdd(b.Core().reflection.describe, old(b.Core().classConsumers.View()), consumerType.value)
  {
    match b
    case Base(builder) =>
      var res := builder.AddConsumer(consumerType);
      if res.Err? {
        return Err(res.error);
      }
      return Ok(b);
    case DependencyInjection(di) =>
      r := di.AddConsumer(consumerType);
  }
}
