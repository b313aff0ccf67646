/**
 * The dependency-injection extension methods on `EventBusBuilder`: each one
 * refuses a builder that is not a `DependencyInjectionEventBusBuilder`, and
 * otherwise sets the background service or calls `AddConsumer(type, lifetime)`
 * with the lifetime its name gives.
 */
module DiExtensions {
  import opened Types
  import opened Registry
  import opened Builder
  import opened DiBuilder

  const BackgroundServiceMessage: string :=
    "The event bus builder must be of type DependencyInjectionEventBusBuilder to define background service."
  const TransientMessage: string :=
    "The event bus builder must be of type DependencyInjectionEventBusBuilder to add a transient consumer."
  const ScopedMessage: string :=
    "The event bus builder must be of type DependencyInjectionEventBusBuilder to add a scoped consumer."
  const SingletonMessage: string :=
    "The event bus builder must be of type DependencyInjectionEventBusBuilder to add a singleton consumer."

  /**
   * `UseBackgroundService<TQueueBackgroundService>()`: on a dependency-injection
   * builder only `QueueBackgroundService` changes and the builder is returned.
   */
  method UseBackgroundService(b: BuilderRef, serviceType: TypeId) returns (r: Result<BuilderRef>)
    modifies if b.DependencyInjection? then {b.di} else {}
    ensures b.Base? ==> r == Err(InvalidOperationException(BackgroundServiceMessage))
    ensures b.DependencyInjection? ==> r == Ok(b) && b.di.queueBackgroundService == serviceType
  {
    match b
    case Base(_) =>
      return Err(InvalidOperationException(BackgroundServiceMessage));
    case DependencyInjection(di) =>
      di.queueBackgroundService := serviceType;
      return Ok(b);
  }

  /**
   * The body every lifetime extension shares: the guard with `message`,
   * then `AddConsumer(consumerType, lifetime)` on the dependency-injection builder.
   */
  method AddWithLifetime(b: BuilderRef, consumerType: Option<TypeId>, lifetime: ServiceLifetime, message: string)
    returns (r: Result<BuilderRef>)
    requires b.Valid()
    modifies if b.DependencyInjection? then {b.di.services, b.di.base.classConsumers} else {}
    ensures b.Valid()
    ensures b.Base? ==> r == Err(InvalidOperationException(message))
    ensures b.DependencyInjection? ==>
              var after := DescriptorsAfterAdd(old(b.di.services.descriptors), consumerType, lifetime);
              (after.Err? ==>
                 r == Err(after.error) && b.di.services.descriptors == old(b.di.services.descriptors)
                 && b.Core().classConsumers.View() == old(b.Core().classConsumers.View()))
              && (after.Ok? ==>
                 consumerType.Some? && r == Ok(b) && b.di.services.descriptors == after.value
                 && b.Core().classConsumers.View() == AfterAdd(b.Core().reflection.describe, old(b.Core().classConsumers.View()), consumerType.value))
  {
    match b
    case Base(_) =>
      return Err(InvalidOperationException(message));
    case DependencyInjection(di) =>
      r := di.AddConsumerWithLifetime(consumerType, lifetime);
  }

  /** `AddTransientConsumer(consumerType)`. */
  method AddTransientConsumer(b: BuilderRef, consumerType: Option<TypeId>) returns (r: Result<BuilderRef>)
    requires b.Valid()
    modifies if b.DependencyInjection? then {b.di.services, b.di.base.classConsumers} else {}
    ensures b.Valid()
    ensures b.Base? ==> r == Err(InvalidOperationException(TransientMessage))
    ensures b.DependencyInjection? ==>
              var after := DescriptorsAfterAdd(old(b.di.services.descriptors), consumerType, Transient);
              (after.Err? ==>
                 r == Err(after.error) && b.di.services.descriptors == old(b.di.services.descriptors)
                 && b.Core().classConsumers.View() == old(b.Core().classConsumers.View()))
              && (after.Ok? ==>
                 consumerType.Some? && r == Ok(b) && b.di.services.descriptors == after.value
                 && b.Core().classConsumers.View() == AfterAdd(b.Core().reflection.describe, old(b.Core().classConsumers.View()), consumerType.value))
  {
    r := AddWithLifetime(b, consumerType, Transient, TransientMessage);
  }

  /** `AddTransientConsumer<TConsumer>()`. */
  method AddTransientConsumerOf(b: BuilderRef, consumerType: TypeId) returns (r: Result<BuilderRef>)
    requires b.Valid()
    modifies if b.DependencyInjection? then {b.di.services, b.di.base.classConsumers} else {}
    ensures b.Valid()
    ensures b.Base? ==> r == Err(InvalidOperationException(TransientMessage))
    ensures b.DependencyInjection? ==>
              var after := DescriptorsAfterAdd(old(b.di.services.descriptors), Some(consumerType), Transient);
              (after.Err? ==>
                 r == Err(after.error) && b.di.services.descriptors == old(b.di.services.descriptors)
                 && b.Core().classConsumers.View() == old(b.Core().classConsumers.View()))
              && (after.Ok? ==>
                 r == Ok(b) && b.di.services.descriptors == after.value
                 && b.Core().classConsumers.View() == AfterAdd(b.Core().reflection.describe, old(b.Core().classConsumers.View()), consumerType))
  {
    r := AddWithLifetime(b, Some(consumerType), Transient, TransientMessage);
  }

  /** `AddScopedConsumer(consumerType)`. */
  method AddScopedConsumer(b: BuilderRef, consumerType: Option<TypeId>) returns (r: Result<BuilderRef>)
    requires b.Valid()
    modifies if b.DependencyInjection? then {b.di.services, b.di.base.classConsumers} else {}
    ensures b.Valid()
    ensures b.Base? ==> r == Err(InvalidOperationException(ScopedMessage))
    ensures b.DependencyInjection? ==>
              var after := DescriptorsAfterAdd(old(b.di.services.descriptors), consumerType, Scoped);
              (after.Err? ==>
                 r == Err(after.error) && b.di.services.descriptors == old(b.di.services.descriptors)
                 && b.Core().classConsumers.View() == old(b.Core().classConsumers.View()))
              && (after.Ok? ==>
                 consumerType.Some? && r == Ok(b) && b.di.services.descriptors == after.value
                 && b.Core().classConsumers.View() == AfterAdd(b.Core().reflection.describe, old(b.Core().classConsumers.View()), consumerType.value))
  {
    r := AddWithLifetime(b, consumerType, Scoped, ScopedMessage);
  }

  /** `AddScopedConsumer<TConsumer>()`. */
  method AddScopedConsumerOf(b: BuilderRef, consumerType: TypeId) returns (r: Result<BuilderRef>)
    requires b.Valid()
    modifies if b.DependencyInjection? then {b.di.services, b.di.base.classConsumers} else {}
    ensures b.Valid()
    ensures b.Base? ==> r == Err(InvalidOperationException(ScopedMessage))
    ensures b.DependencyInjection? ==>
              var after := DescriptorsAfterAdd(old(b.di.services.descriptors), Some(consumerType), Scoped);
              (after.Err? ==>
                 r == Err(after.error) && b.di.services.descriptors == old(b.di.services.descriptors)
                 && b.Core().classConsumers.View() == old(b.Core().classConsumers.View()))
              && (after.Ok? ==>
                 r == Ok(b) && b.di.services.descriptors == after.value
                 && b.Core().classConsumers.View() == AfterAdd(b.Core().reflection.describe, old(b.Core().classConsumers.View()), consumerType))
  {
    r := AddWithLifetime(b, Some(consumerType), Scoped, ScopedMessage);
  }

  /** `AddSingletonConsumer(consumerType)`. */
  method AddSingletonConsumer(b: BuilderRef, consumerType: Option<TypeId>) returns (r: Result<BuilderRef>)
    requires b.Valid()
    modifies if b.DependencyInjection? then {b.di.services, b.di.base.classConsumers} else {}
    ensures b.Valid()
    ensures b.Base? ==> r == Err(InvalidOperationException(SingletonMessage))
    ensures b.DependencyInjection? ==>
              var after := DescriptorsAfterAdd(old(b.di.services.descriptors), consumerType, Singleton);
              (after.Err? ==>
                 r == Err(after.error) && b.di.services.descriptors == old(b.di.services.descriptors)
                 && b.Core().classConsumers.View() == old(b.Core().classConsumers.View()))
              && (after.Ok? ==>
                 consumerType.Some? && r == Ok(b) && b.di.services.descriptors == after.value
                 && b.Core().classConsumers.View() == AfterAdd(b.Core().reflection.describe, old(b.Core().classConsumers.View()), consumerType.value))
  {
    r := AddWithLifetime(b, consumerType, Singleton, SingletonMessage);
  }

  /** `AddSingletonConsumer<TConsumer>()`. */
  method AddSingletonConsumerOf(b: BuilderRef, consumerType: TypeId) returns (r: Result<BuilderRef>)
    requires b.Valid()
    modifies if b.DependencyInjection? then {b.di.services, b.di.base.classConsumers} else {}
    ensures b.Valid()
    ensures b.Base? ==> r == Err(InvalidOperationException(SingletonMessage))
    ensures b.DependencyInjection? ==>
              var after := DescriptorsAfterAdd(old(b.di.services.descriptors), Some(consumerType), Singleton);
              (after.Err? ==>
                 r == Err(after.error) && b.di.services.descriptors == old(b.di.services.descriptors)
                 && b.Core().classConsumers.View() == old(b.Core().classConsumers.View()))
              && (after.Ok? ==>
                 r == Ok(b) && b.di.services.descriptors == after.value
                 && b.Core().classConsumers.View() == AfterAdd(b.Core().reflection.describe, old(b.Core().classConsumers.View()), consumerType))
  {
    r := AddWithLifetime(b, Some(consumerType), Singleton, SingletonMessage);
  }

  /** `AddConsumer<TConsumer>(lifetime)`: the caller's lifetime, with the transient guard message. */
  method AddConsumerWithLifetimeOf(b: BuilderRef, consumerType: TypeId, lifetime: ServiceLifetime) returns (r: Result<BuilderRef>)
    requires b.Valid()
    modifies if b.DependencyInjection? then {b.di.services, b.di.base.classConsumers} else {}
    ensures b.Valid()
    ensures b.Base? ==> r == Err(InvalidOperationException(TransientMessage))
    ensures b.DependencyInjection? ==>
              var after := DescriptorsAfterAdd(old(b.di.services.descriptors), Some(consumerType), lifetime);
              (after.Err? ==>
                 r == Err(after.error) && b.di.services.descriptors == old(b.di.services.descriptors)
                 && b.Core().classConsumers.View() == old(b.Core().classConsumers.View()))
              && (after.Ok? ==>
                 r == Ok(b) && b.di.services.descriptors == after.value
                 && b.Core().classConsumers.View() == AfterAdd(b.Core().reflection.describe, old(b.Core().classConsumers.View()), consumerType))
  {
    r := AddWithLifetime(b, Some(consumerType), lifetime, TransientMessage);
  }
}
