# ReflectionEventing dispatch core, modelled in Dafny

ReflectionEventing is an in-process event bus for .NET. Consumer classes
declare the events they handle by implementing `IConsumer<TEvent>`. When an
event is published, the matching consumers are found and their
`ConsumeAsync` is called.

This project models the dispatch core and proves properties of that model:

- **Registration.** `EventBusBuilder.AddConsumer` fills a dictionary that
  maps each consumer type to the set of event types it declares. The
  assembly scan of `AddAllConsumers` registers every concrete class that
  implements `IConsumer<>`. The dependency-injection builder adds
  service-collection checks and lifetime-specific registration.
- **Resolution.** `HashedConsumerTypesProvider` finds the consumer types
  whose set holds the event type itself (exact matching).
  `HashedPolymorphicConsumerTypesProvider` also accepts event types related
  by assignability, in either direction. It memoises the event type back
  into the consumer's set.
- **Immediate delivery.** `EventBus.PublishAsync` starts one `ConsumeAsync`
  call per resolved (consumer type, instance) pair, then awaits them all
  with `Task.WhenAll`. `DependencyInjectionEventBus.PublishAsync` first
  refuses to publish while the events queue is disabled.
- **The events queue.** A FIFO channel of events, plus an append-only error
  queue of failure records.
- **Two background queue processors.** Both drain the queue and dispatch
  each event by its runtime type. They differ in how failures are handled:
  - The current processor (`Services/DependencyInjectionQueueProcessor.cs`)
    runs each consumer inside its own try/catch. It records a failure in the
    error queue only when the options enable the error queue.
  - The earlier processor (`DependencyInjectionQueueProcessor.cs`) batches
    all of an event's consumers. It catches once per event and always
    records the failure.

## Modelling choices

- **Types and reflection.** A runtime type is a `TypeId`. What reflection
  reports is carried by a `Reflection` object of three functions:
  - `GetInterfaces` (with the abstract and class flags);
  - `IsAssignableFrom`;
  - what `GetMethod("ConsumeAsync", [event type, CancellationToken])` does
    (`Types.MethodLookup`): it finds the one applicable method, finds none,
    or throws `AmbiguousMatchException` when several apply.
- **Consumer code.** What a consumer's own code does is an `Invoker`: it
  completes, returns a faulted task, or throws synchronously.
- **The instance resolver.** `IConsumerProvider` is a function from a
  consumer type to the instances the container hands out. A `None` entry is
  a null instance.
- **The consumer dictionary.** `Registry.ConsumerRegistry` is a class, so
  the builder and every provider built from it share one object, as in the
  source.
  - Its key order is part of the value: a .NET `Dictionary` enumerates keys
    in insertion order when nothing is removed.
  - So "the order in which consumers are visited" is a proved property, not
    an assumption.
- **Enumerators.** `GetConsumerTypes` is a C# iterator. Each resolver's
  enumerator is a class holding the state of the compiled state machine (the
  outer position, a suspension inside the inner loop, `Current`). The loops
  of the bus and the processors pull keys from it one `MoveNext` at a time.
  So the dictionary after an event whose loops stopped early is proved to be
  the one with only the write-backs of the keys actually reached.
- **Loops as folds.** A nested `foreach` that may leave early is modelled as
  a fold over the (consumer type, instance) pairs (`Loops.Run`) that stops
  at the first `return` or `throw`. Every loop method is proved equal to
  its fold, and the properties are proved about the folds.
- **Inheritance.**
  - The dependency-injection builder holds its `EventBusBuilder` base
    object.
  - A call through a reference of static type `EventBusBuilder` goes
    through `DiBuilder.BuilderRef`, whose two cases select the base or the
    overriding `AddConsumer`.

Where the code and the design intent differ, the model follows the code:

- **The polymorphic resolver can yield a consumer twice.** After it has
  memoised `E` into a consumer's set, the next lookup of `E` yields that
  consumer once for the exact hit and once more for the related type
  (`PolymorphicProvider.RepeatLookupYieldsTwice`).
- **The bus has no sequential or parallel execution mode.**
  `EventBus.PublishAsync` starts every consumer and then awaits all of them.
  A consumer that throws synchronously leaves the loops, so the later
  consumers are never called.
- **Only the current processor isolates failures per consumer and honours
  `UseErrorQueue`.** The earlier processor catches once per event: a
  synchronous throw ends the batch, and the failure is always recorded,
  without the consumer type or a timestamp.
- **The current processor abandons an event's remaining consumers on a null
  instance.** It `return`s from the event, and that event is not counted as
  processed.
- **An ambiguous `ConsumeAsync` lookup throws.** `MySampleConsumer` of the
  unit tests has a `ConsumeAsync` for `ITestEvent` and one for `IBaseEvent`,
  and `TestEvent` implements both, so `GetMethod` for `TestEvent` throws
  `AmbiguousMatchException`.
  - In the current processor the lookup runs before the per-consumer
    try/catch. In sequential mode the exception escapes the event and the
    pass, which then waits the error tick rate. The event has already been
    read from the queue, so it leaves no record and is not counted
    (`Scenarios.AmbiguousEscapesScenario`). In parallel mode the catch of
    the consumer's task logs it, and the event goes on
    (`Scenarios.AmbiguousParallelScenario`).
  - In the earlier processor the lookup runs inside the per-event try. The
    exception ends the batch and is recorded
    (`Scenarios.AmbiguousRecordedScenario`).
- **An undefined `QueueMode` throws out of the current processor.** The
  `InvalidOperationException` escapes the pass, which then waits the error
  tick rate.

## Model

| member | source | states |
|---|---|---|
| `Types.FirstFault` | src/ReflectionEventing/EventBus.cs:40 | awaiting `Task.WhenAll` rethrows nothing exactly when no task faulted; otherwise it rethrows the exception of the first faulted task, and no earlier task faulted |
| `Registry.ConsumerRegistry.constructor` | src/ReflectionEventing/EventBusBuilder.cs:16-17 | a new dictionary has no keys and is well formed |
| `Registry.ConsumerRegistry.CreateEntry` | src/ReflectionEventing/EventBusBuilder.cs:70-73 | a missing key gets an empty set and becomes the last key in enumeration order; the dictionary stays well formed |
| `Registry.ConsumerRegistry.AddToSet` | src/ReflectionEventing/EventBusBuilder.cs:75 | the key's set gains the event type; no other entry changes and the key order is unchanged |
| `Builder.ConsumedEventsMembership` | src/ReflectionEventing/EventBusBuilder.cs:62-64 | an event type is consumed exactly when the type implements `IConsumer<>` closed over it |
| `Builder.RegisteredShape` | src/ReflectionEventing/EventBusBuilder.cs:66-76 | registering nothing changes nothing; otherwise the consumer's set becomes its old set united with all consumed types, a new key goes last, and every other key keeps its set |
| `Builder.RegisteredHoldsConsumed` | src/ReflectionEventing/EventBusBuilder.cs:66-76 | after registration the consumer's set holds exactly its previous types plus every consumed type |
| `Builder.RegisteredOthersUnchanged` | src/ReflectionEventing/EventBusBuilder.cs:66-76 | registration adds no other key and changes no other key's set |
| `Builder.RegisteredIdempotent` | src/ReflectionEventing/EventBusBuilder.cs:66-76 | registering the same consumer twice gives the dictionary that registering it once gives |
| `Builder.RegisteredPreserves` | src/ReflectionEventing/EventBusBuilder.cs:66-76 | registration keeps every key listed once in enumeration order and every set non-empty |
| `Builder.RegisteredMonotone` | src/ReflectionEventing/EventBusBuilder.cs:66-76 | registration loses no key and shrinks no set |
| `Builder.AbsorbsPreserved` | src/ReflectionEventing/EventBusBuilder.cs:66-76 | a consumer already registered stays registered after any other consumer is registered |
| `Builder.EventBusBuilder.constructor` | src/ReflectionEventing/EventBusBuilder.cs:16-25 | a new builder owns a fresh empty dictionary and has the default options |
| `Builder.EventBusBuilder.AddConsumer` | src/ReflectionEventing/EventBusBuilder.cs:50-79 | a null type throws `ArgumentNullException("consumerType")` and changes nothing; otherwise the dictionary is the old one with the type registered for each `IConsumer<E>`, and the builder itself is returned |
| `Builder.EventBusBuilder.AddConsumedType` | src/ReflectionEventing/EventBusBuilder.cs:68-75 | one pass of the loop: the consumer's set is created, as the last key, when missing, and then gains the event type; the dictionary stays well formed |
| `Builder.EventBusBuilder.BuildTypesProvider` | src/ReflectionEventing/EventBusBuilder.cs:34-39 | the polymorphic resolver exactly when `UseEventPolymorphism` is set, always over the builder's own dictionary object |
| `Builder.DefaultBuildsExact` | src/ReflectionEventing/EventBusBuilderOptions.cs:20 | polymorphism is off by default, so a new builder hands out the exact resolver, over its own dictionary, which is still empty |
| `ExactProvider.ExactMatchesMembership` | src/ReflectionEventing/HashedConsumerTypesProvider.cs:18-33 | a consumer type is yielded exactly when it is a key whose set holds the event type |
| `ExactProvider.ExactMatchesDistinct` | src/ReflectionEventing/HashedConsumerTypesProvider.cs:18-33 | each consumer type is yielded at most once |
| `ExactProvider.ExactMatchesAppend` | src/ReflectionEventing/HashedConsumerTypesProvider.cs:18-33 | results follow key enumeration order |
| `ExactProvider.HashedConsumerTypesProvider.GetConsumerTypes` | src/ReflectionEventing/HashedConsumerTypesProvider.cs:18-33 | an enumerator over the shared dictionary object, before its first key, with nothing yielded |
| `ExactProvider.ExactLookup.MoveNext` | src/ReflectionEventing/HashedConsumerTypesProvider.cs:21-32 | each call runs the loops to the next key whose set holds the event type, in key order, and returns false after the last one; the dictionary is never written |
| `ExactProvider.ExactLookup.Observed` | src/ReflectionEventing/HashedConsumerTypesProvider.cs:18-33 | whenever the caller looks, the keys yielded so far are the first keys of the complete enumeration |
| `ExactProvider.ExactStep` | src/ReflectionEventing/HashedConsumerTypesProvider.cs:21-32 | one outer iteration yields its key exactly when the key's set holds the event type |
| `PolymorphicProvider.RelatedSymmetric` | src/ReflectionEventing/HashedPolymorphicConsumerTypesProvider.cs:57-60 | `AreTypesRelated` does not depend on argument order |
| `PolymorphicProvider.PolyMatchesMembership` | src/ReflectionEventing/HashedPolymorphicConsumerTypesProvider.cs:18-55 | a consumer type is yielded exactly when its set holds the event type or another type related to it |
| `PolymorphicProvider.ExactIncludedInPolymorphic` | src/ReflectionEventing/HashedPolymorphicConsumerTypesProvider.cs:18-55 | every consumer the exact resolver finds, the polymorphic one finds too |
| `PolymorphicProvider.PolyMatchesCount` | src/ReflectionEventing/HashedPolymorphicConsumerTypesProvider.cs:24-53 | a consumer type is yielded once per reason (exact hit, related other type), so at most twice |
| `PolymorphicProvider.MemoisedGrows` | src/ReflectionEventing/HashedPolymorphicConsumerTypesProvider.cs:44-51 | memoisation keeps the keys and only ever adds the looked-up type to a set |
| `PolymorphicProvider.UnrelatedUntouched` | src/ReflectionEventing/HashedPolymorphicConsumerTypesProvider.cs:18-55 | a consumer with neither an exact hit nor a related type is not yielded, and its set is unchanged |
| `PolymorphicProvider.MemoisedIdempotent` | src/ReflectionEventing/HashedPolymorphicConsumerTypesProvider.cs:44-51 | a second lookup of the same type memoises nothing more |
| `PolymorphicProvider.MemoisedExactHit` | src/ReflectionEventing/HashedPolymorphicConsumerTypesProvider.cs:44-51 | after a lookup, every consumer it yielded is an exact hit for that type |
| `PolymorphicProvider.RepeatLookupYieldsTwice` | src/ReflectionEventing/HashedPolymorphicConsumerTypesProvider.cs:18-55 | once memoised through a related type, a consumer is yielded exactly twice by the next lookup of the same type |
| `PolymorphicProvider.MemoisedPreserves` | src/ReflectionEventing/HashedPolymorphicConsumerTypesProvider.cs:44-51 | memoisation keeps the dictionary well formed and every set non-empty |
| `PolymorphicProvider.ScanConsumedTypes` | src/ReflectionEventing/HashedPolymorphicConsumerTypesProvider.cs:22-37 | the inner loop sees an exact hit exactly when the set holds the type, and raises its flag exactly when another related type is present |
| `PolymorphicProvider.KeyStep` | src/ReflectionEventing/HashedPolymorphicConsumerTypesProvider.cs:20-53 | one outer iteration writes the event type into its own key's set exactly when the flag is raised, and into no other set |
| `PolymorphicProvider.VisitStep` | src/ReflectionEventing/HashedPolymorphicConsumerTypesProvider.cs:20-53 | visiting a key: an exact hit suspends at the first `yield return` with the flag of the key's other types; otherwise a raised flag writes the type back and yields the key, and a lowered one passes the key over |
| `PolymorphicProvider.ResumeStep` | src/ReflectionEventing/HashedPolymorphicConsumerTypesProvider.cs:24-53 | resuming after the exact-hit yield: a raised flag writes the type back and yields the key a second time; a lowered one moves on with nothing written |
| `PolymorphicProvider.SuspendedZero` | src/ReflectionEventing/HashedPolymorphicConsumerTypesProvider.cs:18-55 | before the first yield nothing has been written |
| `PolymorphicProvider.SuspendedAll` | src/ReflectionEventing/HashedPolymorphicConsumerTypesProvider.cs:18-55 | once every yield has been delivered, the sets are those of the complete lookup |
| `PolymorphicProvider.SuspendedKey` | src/ReflectionEventing/HashedPolymorphicConsumerTypesProvider.cs:39-53 | while the enumeration is suspended, a key's set has gained the event type exactly when its flag is raised and all of that key's yields have been delivered; otherwise it is unchanged |
| `PolymorphicProvider.SuspendedGrows` | src/ReflectionEventing/HashedPolymorphicConsumerTypesProvider.cs:44-51 | a suspended lookup keeps every key and only ever adds the looked-up type to a set |
| `PolymorphicProvider.PolymorphicLookup.Visit` | src/ReflectionEventing/HashedPolymorphicConsumerTypesProvider.cs:20-53 | one key of the outer loop up to its first `yield return`: the exact hit suspends inside the inner loop, otherwise one yield with the write-back or none |
| `PolymorphicProvider.PolymorphicLookup.Resume` | src/ReflectionEventing/HashedPolymorphicConsumerTypesProvider.cs:24-53 | the rest of a suspended key: the write-back and the second yield when the flag was raised |
| `PolymorphicProvider.PolymorphicLookup.Seek` | src/ReflectionEventing/HashedPolymorphicConsumerTypesProvider.cs:20-54 | the outer loop up to the next `yield return`, or to the end of the keys, where everything has been yielded |
| `PolymorphicProvider.PolymorphicLookup.MoveNext` | src/ReflectionEventing/HashedPolymorphicConsumerTypesProvider.cs:18-55 | each call delivers one more key of the enumeration, and false only once all of it has been yielded |
| `PolymorphicProvider.PolymorphicLookup.Observed` | src/ReflectionEventing/HashedPolymorphicConsumerTypesProvider.cs:18-55 | whenever the caller looks, the keys yielded so far are the first keys of the complete enumeration, and the sets are `Suspended` after that many yields |
| `PolymorphicProvider.HashedPolymorphicConsumerTypesProvider.GetConsumerTypes` | src/ReflectionEventing/HashedPolymorphicConsumerTypesProvider.cs:18-55 | an enumerator over the shared dictionary object, before its first key: nothing is read or written until it is moved |
| `TypesProviders.ResolvedAreKeys` | src/ReflectionEventing/IConsumerTypesProvider.cs:20 | either resolver yields only registered consumer types |
| `TypesProviders.AfterLookupPreserves` | src/ReflectionEventing/IConsumerTypesProvider.cs:20 | a lookup through either resolver keeps the dictionary well formed with non-empty sets |
| `TypesProviders.GetConsumerTypes` | src/ReflectionEventing/IConsumerTypesProvider.cs:20 | an enumerator of the resolver actually built, started over the current dictionary, with nothing yielded |
| `TypesProviders.MoveNext` | src/ReflectionEventing/IConsumerTypesProvider.cs:20 | each move yields one more key of that resolver's enumeration, and false only once all of it has been yielded |
| `TypesProviders.Observe` | src/ReflectionEventing/IConsumerTypesProvider.cs:20 | the keys yielded so far are the first keys of the resolver's complete enumeration, and the dictionary is the value after that many yields |
| `TypesProviders.AfterNoYield` | src/ReflectionEventing/IConsumerTypesProvider.cs:20 | a lookup that has yielded nothing has written nothing |
| `TypesProviders.AfterYieldsAll` | src/ReflectionEventing/IConsumerTypesProvider.cs:20 | a lookup that has yielded everything leaves the dictionary a complete lookup leaves |
| `TypesProviders.AfterYieldsPreserves` | src/ReflectionEventing/IConsumerTypesProvider.cs:20 | however early a lookup is abandoned, the dictionary stays well formed with non-empty sets |
| `TypesProviders.AfterDispatchComplete` | src/ReflectionEventing/EventBus.cs:32-38 | dispatch loops that run to the end leave the dictionary of a complete lookup |
| `TypesProviders.AfterDispatchStopped` | src/ReflectionEventing/EventBus.cs:32-38 | dispatch loops that stop within the pairs of the `i`-th type abandon the lookup after `i + 1` yields, and the later types change nothing |
| `TypesProviders.NextKey` | src/ReflectionEventing/EventBus.cs:32-34 | after each key pulled from the lookup, the pairs walked so far grow by that key's instances |
| `TypesProviders.Abandoned` | src/ReflectionEventing/EventBus.cs:32-38 | loops stopped within the last key's pairs: the dictionary is the one `AfterDispatch` gives and the loops' result is final |
| `TypesProviders.Exhausted` | src/ReflectionEventing/EventBus.cs:32-38 | an enumerator exhausted without a stop: the pairs walked are all the resolved pairs and the dictionary is that of a complete lookup |
| `ConsumerProviders.PairsMembership` | src/ReflectionEventing/EventBus.cs:32-38 | the nested loops visit a (type, instance) pair exactly when the type is resolved and the instance is one the container hands out for it |
| `ConsumerProviders.PairsCount` | src/ReflectionEventing/EventBus.cs:32-38 | a consumer type occurs in as many pairs as it has instances, times the number of times it was resolved |
| `ConsumerProviders.Taken` | src/ReflectionEventing/EventBus.cs:32-38 | the outer loop pulls at most every consumer type from the lookup |
| `ConsumerProviders.TakenStop` | src/ReflectionEventing/EventBus.cs:32-38 | loops that stop within the pairs of the `i`-th type have pulled exactly `i + 1` types |
| `ConsumerProviders.TakenAll` | src/ReflectionEventing/EventBus.cs:32-38 | loops that never stop pull every type |
| `Bus.FanOutCalls` | src/ReflectionEventing/EventBus.cs:32-38 | calls are made in pair order with the publication's event, token and handler type; the loops run to the end exactly when no instance is null and no call throws, and then every pair is called and started |
| `Bus.FanOutCallsTo` | src/ReflectionEventing/EventBus.cs:32-38 | without a stop, each consumer type receives one call per pair of that type |
| `Bus.DeliveredPerInstance` | src/ReflectionEventing/EventBus.cs:28-38 | over distinct resolved types with no stop, a consumer type receives one call per instance if resolved, none otherwise |
| `Bus.NothingToDeliver` | src/ReflectionEventing/EventBus.cs:28-40 | with no pairs, nothing is called and the publication completes |
| `Bus.EventBus.constructor` | src/ReflectionEventing/EventBus.cs:14-17 | the bus keeps the instance resolver and the types resolver it was given |
| `Bus.EventBus.PublishAsync` | src/ReflectionEventing/EventBus.cs:20-41 | a null event fails with `ArgumentNullException("eventItem")` and calls nothing; otherwise the calls are the fan-out over the resolved pairs, the outcome is the exception that left the loops or else the first faulted task, and the dictionary is the lookup's at the point the loops left it |
| `Bus.StartAll` | src/ReflectionEventing/EventBus.cs:30-38 | the nested loops over the lookup start exactly the fan-out's calls and tasks, up to the first synchronous throw, and leave the dictionary `AfterDispatch` gives |
| `Bus.StartConsumers` | src/ReflectionEventing/EventBus.cs:34-37 | the inner loop over one type's instances is exactly the fan-out's next steps |
| `Queue.EventsQueue.constructor` | src/ReflectionEventing/Queues/EventsQueue.cs:10-12 | a new queue has no events and no failure records |
| `Queue.EventsQueue.EnqueueAsync` | src/ReflectionEventing/Queues/EventsQueue.cs:15-22 | the event joins the tail of the channel; the error queue is untouched |
| `Queue.EventsQueue.ReaderCount` | src/ReflectionEventing/Queues/EventsQueue.cs:25-28 | the count is zero exactly when no event is waiting |
| `Queue.EventsQueue.TryRead` | src/ReflectionEventing/Queues/EventsQueue.cs:25-28 | the oldest waiting event is removed and returned; nothing when the channel is empty |
| `Queue.EventsQueue.EnqueueError` | src/ReflectionEventing/Queues/EventsQueue.cs:31-34 | one record with the event and exception, no consumer type and no timestamp, goes at the end; the channel is untouched |
| `Queue.EventsQueue.EnqueueFailure` | src/ReflectionEventing/Queues/IEventsQueue.cs:26 | the given record goes at the end of the error queue; the channel is untouched |
| `Queue.EventsQueue.GetErrorQueue` | src/ReflectionEventing/Queues/EventsQueue.cs:37-40 | every record ever enqueued, oldest first |
| `Queue.WriteThenDrain` | src/ReflectionEventing/Queues/EventsQueue.cs:15-28 | events written to an empty channel are read back in the order written (FIFO) |
| `DiBuilder.ServiceCollection.Add` | src/ReflectionEventing.DependencyInjection/DependencyInjectionEventBusBuilder.cs:49-51 | the descriptor is appended to the collection |
| `DiBuilder.FirstOrDefault` | src/ReflectionEventing.DependencyInjection/DependencyInjectionEventBusBuilder.cs:35 | the first descriptor whose service type is the consumer type; none exactly when no descriptor has it (always none for a null type) |
| `DiBuilder.DescriptorCountZero` | src/ReflectionEventing.DependencyInjection/DependencyInjectionEventBusBuilder.cs:35 | `FirstOrDefault` finds nothing exactly when no descriptor has the type |
| `DiBuilder.DescriptorsAfterAddTwice` | src/ReflectionEventing.DependencyInjection/DependencyInjectionEventBusBuilder.cs:27-52 | after a successful lifetime registration the type has a descriptor of that lifetime; repeating the call changes nothing; a type that had none has exactly one |
| `DiBuilder.DependencyInjectionEventBusBuilder.constructor` | src/ReflectionEventing.DependencyInjection/DependencyInjectionEventBusBuilder.cs:16 | a new builder has an empty dictionary, default options, and the queue processor as background service |
| `DiBuilder.DependencyInjectionEventBusBuilder.AddConsumerWithLifetime` | src/ReflectionEventing.DependencyInjection/DependencyInjectionEventBusBuilder.cs:27-52 | a descriptor of another lifetime throws `InvalidOperationException` and changes nothing; a missing one is appended as (type, type, lifetime); then the base builder registers the type |
| `DiBuilder.DependencyInjectionEventBusBuilder.AddConsumer` | src/ReflectionEventing.DependencyInjection/DependencyInjectionEventBusBuilder.cs:55-72 | a type without a descriptor is refused with "must be registered" and changes nothing; otherwise the base builder registers it; descriptors are never changed |
| `DiBuilder.RejectionCases` | src/ReflectionEventing.DependencyInjection/DependencyInjectionEventBusBuilder.cs:55-72 | null is always refused; the plain builder refuses nothing else; the dependency-injection builder refuses exactly the types without a descriptor |
| `DiBuilder.AddConsumer` | src/ReflectionEventing.DependencyInjection/DependencyInjectionEventBusBuilder.cs:55-72 | the virtual call refuses as `Rejection` says, changing nothing, and otherwise registers the type and returns the same builder |
| `DiExtensions.UseBackgroundService` | src/ReflectionEventing.DependencyInjection/EventBusBuilderExtensions.cs:15-30 | a plain builder is refused; a dependency-injection builder gets the service type and is returned |
| `DiExtensions.AddTransientConsumer` | src/ReflectionEventing.DependencyInjection/EventBusBuilderExtensions.cs:38-57 | a plain builder is refused with the transient message; otherwise the descriptors and dictionary change as a transient lifetime registration does, errors changing nothing |
| `DiExtensions.AddTransientConsumerOf` | src/ReflectionEventing.DependencyInjection/EventBusBuilderExtensions.cs:65-83 | as `AddTransientConsumer`, for a non-null type |
| `DiExtensions.AddScopedConsumer` | src/ReflectionEventing.DependencyInjection/EventBusBuilderExtensions.cs:91-107 | as `AddTransientConsumer`, with the scoped lifetime and message |
| `DiExtensions.AddScopedConsumerOf` | src/ReflectionEventing.DependencyInjection/EventBusBuilderExtensions.cs:115-133 | as `AddScopedConsumer`, for a non-null type |
| `DiExtensions.AddSingletonConsumer` | src/ReflectionEventing.DependencyInjection/EventBusBuilderExtensions.cs:141-160 | as `AddTransientConsumer`, with the singleton lifetime and message |
| `DiExtensions.AddSingletonConsumerOf` | src/ReflectionEventing.DependencyInjection/EventBusBuilderExtensions.cs:168-186 | as `AddSingletonConsumer`, for a non-null type |
| `DiExtensions.AddConsumerWithLifetimeOf` | src/ReflectionEventing.DependencyInjection/EventBusBuilderExtensions.cs:195-210 | the caller's lifetime, refused on a plain builder with the transient message |
| `DiEventBus.DependencyInjectionEventBus.PublishAsync` | src/ReflectionEventing.DependencyInjection/DependencyInjectionEventBus.cs:19-30 | with the events queue disabled, `QueueException` for every event before any lookup or call; otherwise exactly the base `PublishAsync` |
| `DiEventBus.DefaultBusPublishes` | src/ReflectionEventing/EventBusBuilderOptions.cs:28 | the events queue is enabled by default, so a bus with the default options publishes exactly as its base bus: the null guard, then the fan-out, never `QueueException` |
| `BuilderExtensions.AddConsumerOf` | src/ReflectionEventing/EventBusBuilderExtensions.cs:19-29 | `AddConsumer<T>` refuses or registers exactly as the virtual `AddConsumer(typeof(T))` |
| `BuilderExtensions.ExtractCount` | src/ReflectionEventing/EventBusBuilderExtensions.cs:54-80 | a type is extracted once per `IConsumer<>` interface for each time it is listed, and never when abstract or not a class |
| `BuilderExtensions.ExtractMembership` | src/ReflectionEventing/EventBusBuilderExtensions.cs:54-80 | a type is extracted exactly when listed, a concrete class, and implementing some `IConsumer<E>` |
| `BuilderExtensions.RegisterAllStopped` | src/ReflectionEventing/EventBusBuilderExtensions.cs:82-88 | after a refusal, the remaining types are never registered |
| `BuilderExtensions.RegisterAllBaseSucceeds` | src/ReflectionEventing/EventBusBuilderExtensions.cs:82-88 | through the plain builder, registering any list never fails |
| `BuilderExtensions.RegisterAllAbsorbs` | src/ReflectionEventing/EventBusBuilderExtensions.cs:82-88 | after a successful run, registering any listed type again changes nothing |
| `BuilderExtensions.RegisterAllDedup` | src/ReflectionEventing/EventBusBuilderExtensions.cs:82-88 | for any builder, registering the extracted list with its repetitions gives the same dictionary and outcome as registering each distinct type once |
| `BuilderExtensions.RegisterAllAccepted` | src/ReflectionEventing/EventBusBuilderExtensions.cs:82-88 | after a successful run, no listed type is refused when it is listed again |
| `BuilderExtensions.RegisterAllConsumers` | src/ReflectionEventing/EventBusBuilderExtensions.cs:82-88 | the dictionary and exception are those of calling the virtual `AddConsumer` on each type in order, stopping at the first refusal |
| `BuilderExtensions.AddAllConsumers` | src/ReflectionEventing/EventBusBuilderExtensions.cs:38-51 | the same for every assembly's extraction in argument order; success returns the builder |
| `QueueProcessor.Execute` | src/ReflectionEventing.DependencyInjection/Services/DependencyInjectionQueueProcessor.cs:172-242 | an ambiguous lookup escapes with `AmbiguousMatchException` and no call; a consumer type without `ConsumeAsync` is skipped; otherwise it is called once, and a failure record exists exactly when the call does not complete, naming the event, the consumer type and the time, and holding the faulted task's exception or the synchronous throw wrapped in `TargetInvocationException` |
| `QueueProcessor.DependencyInjectionQueueProcessor.constructor` | src/ReflectionEventing.DependencyInjection/Services/DependencyInjectionQueueProcessor.cs:30-32 | the processor keeps its queue and options; both counters start at zero |
| `QueueProcessor.DependencyInjectionQueueProcessor.ExecuteConsumerAsync` | src/ReflectionEventing.DependencyInjection/Services/DependencyInjectionQueueProcessor.cs:172-242 | the call made and the exception that escapes are those of `Execute`; its failure reaches the error queue only when `UseErrorQueue` is set, and always counts as failed |
| `QueueProcessor.DependencyInjectionQueueProcessor.ProcessConsumers` | src/ReflectionEventing.DependencyInjection/Services/DependencyInjectionQueueProcessor.cs:112-166 | the inner loop over one type's instances is exactly the event run's next steps, with the error queue and counter kept in step |
| `QueueProcessor.DependencyInjectionQueueProcessor.ProcessEventAsync` | src/ReflectionEventing.DependencyInjection/Services/DependencyInjectionQueueProcessor.cs:98-170 | the calls, recorded failures and escaping exception (the invalid-mode one or an ambiguous lookup's) are those of the event run over pairs resolved by the runtime type; the event counts as processed exactly when the loops ran to the end; the dictionary is the lookup's at the point where the loops left it |
| `QueueProcessor.DependencyInjectionQueueProcessor.ProcessTypes` | src/ReflectionEventing.DependencyInjection/Services/DependencyInjectionQueueProcessor.cs:108-167 | the outer loop over the lookup is exactly the event run, and leaves the dictionary `AfterDispatch` gives |
| `QueueProcessor.DependencyInjectionQueueProcessor.ProcessType` | src/ReflectionEventing.DependencyInjection/Services/DependencyInjectionQueueProcessor.cs:110-166 | one outer iteration pulls one more type from the lookup and extends the event run by its instances; a halt abandons the lookup there |
| `QueueProcessor.RecordedAppend` | src/ReflectionEventing.DependencyInjection/Services/DependencyInjectionQueueProcessor.cs:214-225 | recording the failures of two stretches one after the other is recording them together |
| `QueueProcessor.DependencyInjectionQueueProcessor.ProcessQueueAsync` | src/ReflectionEventing.DependencyInjection/Services/DependencyInjectionQueueProcessor.cs:60-96 | the waiting events are processed oldest first until the queue is empty or an exception escapes; unread events stay queued |
| `QueueProcessor.DependencyInjectionQueueProcessor.ProcessNextEvent` | src/ReflectionEventing.DependencyInjection/Services/DependencyInjectionQueueProcessor.cs:86-95 | one read-loop iteration removes the oldest event and is one step of the pass |
| `QueueProcessor.DependencyInjectionQueueProcessor.BackgroundProcessing` | src/ReflectionEventing.DependencyInjection/Services/DependencyInjectionQueueProcessor.cs:41-58 | the passes are those of `Background`: each drains what the one before left unread, from the dictionary it left; the outcomes, calls, remaining queue, dictionary, error queue and counters are the accumulated ones; each pass is followed by the success tick rate if it completed and the error tick rate if it threw; when the last pass completed, the queue is empty |
| `QueueProcessor.Background` | src/ReflectionEventing.DependencyInjection/Services/DependencyInjectionQueueProcessor.cs:41-58 | `n` passes of the background loop have one outcome each |
| `QueueProcessor.NextPass` | src/ReflectionEventing.DependencyInjection/Services/DependencyInjectionQueueProcessor.cs:45-47 | one more pass of the background loop adds one outcome |
| `QueueProcessor.DependencyInjectionQueueProcessor.RunPass` | src/ReflectionEventing.DependencyInjection/Services/DependencyInjectionQueueProcessor.cs:43-56 | one iteration of the background loop is the next pass: its outcome and calls are appended, and the queue, dictionary, error queue and counters become that pass's |
| `QueueProcessor.BackgroundDone` | src/ReflectionEventing.DependencyInjection/Services/DependencyInjectionQueueProcessor.cs:41-58 | a pass that completes leaves the queue empty |
| `QueueProcessor.NextPassProgress` | src/ReflectionEventing.DependencyInjection/Services/DependencyInjectionQueueProcessor.cs:60-96 | one pass leaves a suffix of the queue it found, and a pass that throws has read at least one event |
| `QueueProcessor.BackgroundProgress` | src/ReflectionEventing.DependencyInjection/Services/DependencyInjectionQueueProcessor.cs:41-96 | the passes only read from the front of the queue, and every pass that throws has read at least one event, so the waiting events plus the failed passes never exceed the events there were |
| `QueueProcessor.DrainStep` | src/ReflectionEventing.DependencyInjection/Services/DependencyInjectionQueueProcessor.cs:86-95 | reading the next event is one step of the pass, and an escaping exception ends the pass there |
| `QueueProcessor.DrainDoneReadsAll` | src/ReflectionEventing.DependencyInjection/Services/DependencyInjectionQueueProcessor.cs:86-95 | a completed pass has read every event; a failed one has read at least one |
| `QueueProcessor.EventPassHalt` | src/ReflectionEventing.DependencyInjection/Services/DependencyInjectionQueueProcessor.cs:110-166 | an event's loops run to the end exactly when no instance is null, the mode is defined (or there is nobody to call), and in sequential mode no lookup is ambiguous; under an undefined mode they throw the invalid-mode exception exactly when the first instance is non-null |
| `QueueProcessor.EventPassEscapes` | src/ReflectionEventing.DependencyInjection/Services/DependencyInjectionQueueProcessor.cs:110-184 | under a defined mode an event's loops throw exactly when the mode is sequential and they reach a pair whose lookup is ambiguous with every instance up to it non-null, and what escapes is `AmbiguousMatchException` |
| `QueueProcessor.AmbiguousReached` | src/ReflectionEventing.DependencyInjection/Services/DependencyInjectionQueueProcessor.cs:110-184 | when no instance is null, the loops reach an ambiguous lookup exactly when some pair's lookup is ambiguous |
| `QueueProcessor.EventPassIsolates` | src/ReflectionEventing.DependencyInjection/Services/DependencyInjectionQueueProcessor.cs:110-231 | failures are isolated: when the loops run to the end, every consumer with `ConsumeAsync` is called whatever earlier ones did, and each failing one leaves exactly one record |
| `QueueProcessor.EventPassRecords` | src/ReflectionEventing.DependencyInjection/Services/DependencyInjectionQueueProcessor.cs:214-225 | every record names the event, a consumer type and the time, and there are no more records than calls |
| `LegacyQueueProcessor.Caught` | src/ReflectionEventing.DependencyInjection/DependencyInjectionQueueProcessor.cs:136-143 | the per-event catch receives nothing exactly when no call threw and no started task faulted |
| `LegacyQueueProcessor.DependencyInjectionQueueProcessor.constructor` | src/ReflectionEventing.DependencyInjection/DependencyInjectionQueueProcessor.cs:30-32 | the processor keeps its queue and tick rates; both counters start at zero |
| `LegacyQueueProcessor.DependencyInjectionQueueProcessor.BatchConsumers` | src/ReflectionEventing.DependencyInjection/DependencyInjectionQueueProcessor.cs:111-133 | the inner batch loop over one type's instances, with its method lookups, is exactly the batch's next steps |
| `LegacyQueueProcessor.DependencyInjectionQueueProcessor.StartBatch` | src/ReflectionEventing.DependencyInjection/DependencyInjectionQueueProcessor.cs:103-134 | the batch loops over the lookup make exactly the batch's calls and tasks, up to the first exception, and leave the dictionary `AfterDispatch` gives |
| `LegacyQueueProcessor.DependencyInjectionQueueProcessor.ProcessEventAsync` | src/ReflectionEventing.DependencyInjection/DependencyInjectionQueueProcessor.cs:93-159 | the calls are the batch's; the event leaves one error record exactly when something was caught, and otherwise counts as processed; the dictionary is the lookup's at the point where the batch loops left it |
| `LegacyQueueProcessor.DependencyInjectionQueueProcessor.Conclude` | src/ReflectionEventing.DependencyInjection/DependencyInjectionQueueProcessor.cs:136-158 | the caught exception, if any, becomes one error record and one failure; otherwise the event counts as processed |
| `LegacyQueueProcessor.DependencyInjectionQueueProcessor.ProcessQueueAsync` | src/ReflectionEventing.DependencyInjection/DependencyInjectionQueueProcessor.cs:58-91 | with no event waiting nothing happens, not even a scope; otherwise every waiting event is processed oldest first and the queue ends empty |
| `LegacyQueueProcessor.DependencyInjectionQueueProcessor.ReadAll` | src/ReflectionEventing.DependencyInjection/DependencyInjectionQueueProcessor.cs:81-90 | the read loop processes every waiting event, oldest first, as the pass over them says, and empties the queue |
| `LegacyQueueProcessor.DependencyInjectionQueueProcessor.ProcessNextEvent` | src/ReflectionEventing.DependencyInjection/DependencyInjectionQueueProcessor.cs:81-90 | one read-loop iteration removes the oldest event and is one step of the pass |
| `LegacyQueueProcessor.DependencyInjectionQueueProcessor.BackgroundProcessing` | src/ReflectionEventing.DependencyInjection/DependencyInjectionQueueProcessor.cs:39-56 | nothing escapes a pass, so every pass is followed by the success tick rate; with no pass nothing changes; otherwise the first pass is the one over every waiting event, so the calls, dictionary, error queue and counters are that pass's, the later passes find the queue empty and do nothing, and the queue ends empty |
| `LegacyQueueProcessor.DrainStep` | src/ReflectionEventing.DependencyInjection/DependencyInjectionQueueProcessor.cs:81-90 | reading the next event is one step of the pass |
| `LegacyQueueProcessor.DrainAccounts` | src/ReflectionEventing.DependencyInjection/DependencyInjectionQueueProcessor.cs:93-159 | every drained event is either counted as processed or leaves exactly one record, which has no consumer type and no timestamp |
| `LegacyQueueProcessor.MissingMethodSkipped` | src/ReflectionEventing.DependencyInjection/DependencyInjectionQueueProcessor.cs:118-132 | a consumer type without `ConsumeAsync` leaves the batch unchanged |
| `LegacyQueueProcessor.ThrowEndsBatch` | src/ReflectionEventing.DependencyInjection/DependencyInjectionQueueProcessor.cs:107-134 | a synchronous throw is the last call of the batch, and the catch receives it wrapped in `TargetInvocationException` |
| `LegacyQueueProcessor.AmbiguousEndsBatch` | src/ReflectionEventing.DependencyInjection/DependencyInjectionQueueProcessor.cs:113-116 | an ambiguous lookup leaves the batch loops with no further call, and the per-event catch receives `AmbiguousMatchException` |
| `LegacyQueueProcessor.NullTargetEndsBatch` | src/ReflectionEventing.DependencyInjection/DependencyInjectionQueueProcessor.cs:118-122 | a null instance of a type with `ConsumeAsync` ends the batch with `TargetException` and no call |
| `Scenarios.SampleRegistration` | tests/ReflectionEventing.UnitTests/EventBusBuilderTests.cs:13-23 | registering the sample consumer gives it the set {ITestEvent, IBaseEvent} as the only key |
| `Scenarios.SecondaryRegistration` | tests/ReflectionEventing.UnitTests/EventBusBuilderTests.cs:63-66 | registering the secondary consumer next adds it with {IBaseEvent}, second in key order |
| `Scenarios.ExactSampleScenario` | tests/ReflectionEventing.UnitTests/EventBusBuilderTests.cs:13-38 | the exact resolver finds the sample consumer for both its interfaces and nothing for the concrete `TestEvent` |
| `Scenarios.PolymorphicSampleScenario` | tests/ReflectionEventing.UnitTests/EventBusBuilderTests.cs:41-55 | the polymorphic resolver finds the sample consumer once for `TestEvent`, memoises it, and then finds it twice |
| `Scenarios.AbandonedLookupScenario` | src/ReflectionEventing/HashedPolymorphicConsumerTypesProvider.cs:18-55 | a polymorphic lookup abandoned after its first yield has written nothing, so the next lookup yields the same keys; a complete one has written back into the later consumer's set, which the next lookup then yields twice |
| `Scenarios.TwoBaseConsumersScenario` | tests/ReflectionEventing.UnitTests/EventBusBuilderTests.cs:58-74 | both consumers of `IBaseEvent` are returned, in registration order |
| `Scenarios.TwoExactConsumersScenario` | tests/ReflectionEventing.UnitTests/HashedConsumerTypesProviderTests.cs:11-26 | two consumers declaring the event are both returned by the exact resolver |
| `Scenarios.SingleDeliveryScenario` | tests/ReflectionEventing.UnitTests/EventBusTests.cs:21-34 | a single consumer instance receives the published event exactly once and the publication completes |
| `Scenarios.IsolatedFailureScenario` | src/ReflectionEventing.DependencyInjection/Services/DependencyInjectionQueueProcessor.cs:186-231 | under the current processor a throwing consumer does not stop the next one: both are called, and one record names the failing consumer |
| `Scenarios.AmbiguousEscapesScenario` | tests/ReflectionEventing.UnitTests/EventBusBuilderTests.cs:79-95 | under the current processor the sample consumer's ambiguous lookup for `TestEvent` escapes the event before any call, and no record is made (the `GetMethod` of src/ReflectionEventing.DependencyInjection/Services/DependencyInjectionQueueProcessor.cs:181-184) |
| `Scenarios.AmbiguousParallelScenario` | src/ReflectionEventing.DependencyInjection/Services/DependencyInjectionQueueProcessor.cs:130-150 | in parallel mode the same exception is caught and logged by the consumer's task: the healthy consumer is still called, no record is made and the loops run to the end |
| `Scenarios.AmbiguousRecordedScenario` | tests/ReflectionEventing.UnitTests/EventBusBuilderTests.cs:79-95 | under the earlier processor the same lookup ends the batch before any call, and the event leaves one record of `AmbiguousMatchException` (the `GetMethod` of src/ReflectionEventing.DependencyInjection/DependencyInjectionQueueProcessor.cs:113-116) |
| `Scenarios.BatchedFailureScenario` | src/ReflectionEventing.DependencyInjection/DependencyInjectionQueueProcessor.cs:107-158 | under the earlier processor the same throw leaves the batch: the healthy consumer is never called and one record without a consumer type is left |

## Left out

- Parallel queue mode: the current processor's `Parallel` branch (`SemaphoreSlim`, `Task.Run`) is modelled as the serial schedule of the sequential branch, with the catch inside each task swallowing what escapes `ExecuteConsumerAsync` (an ambiguous lookup). Interleavings and the concurrency limit are not modelled.
- Concurrency and thread safety in general: the races between memoisation and concurrent lookups, and concurrent writers to the channel, are out of scope; each operation is modelled as atomic.
- Timing, cancellation and hosting: `Task.Delay` is modelled by the delay it would wait, cancellation by the number of passes before it is requested, and `BackgroundService.ExecuteAsync` is not modelled.
- `ReadAllAsync` / `ReadEventsAsync` block until the channel completes, and this channel never completes; a pass is modelled as reading what is waiting until the channel is empty.
- Re-entrant use of a suspended enumeration: the enumerators of `GetConsumerTypes` are modelled as the state machines they compile to, and a caller that stops pulling abandons the lookup with only the write-backs of the keys it passed (`TypesProviders.AfterDispatch`). A second lookup, a registration or a publication started while an enumerator is suspended, and so changing the dictionary under it, is not modelled; every caller here drives one enumerator from start to abandonment.
- The inner loop of the polymorphic resolver is run in full (`ScanConsumedTypes`) when its key is visited, so the flag is known at the exact-hit `yield return`; the loop reads only the set, which nothing changes while the enumeration is suspended, so the order of the scan is not observable.
- `DiEventBus.DependencyInjectionEventBus.PublishAsync`: its base is bound to the two-argument `EventBus` of this version, whose `PublishAsync` is the immediate fan-out. `DependencyInjectionEventBus.cs:16` passes four arguments (options, providers and the events queue) to a base constructor that this version of `EventBus.cs` does not have, so the queued publication of that other version is not modelled.
- `ValueTask` results and the `(Task)` cast of the earlier processor: a consumer's outcome is one of completed, faulted or thrown; a result that is not a task is not modelled.
- The `(IConsumer<TEvent>)` cast of `EventBus.PublishAsync`: every instance is taken to implement the interface.
- `Task.WhenAll` is modelled by its rethrown exception, that of the first faulted task in start order; the aggregate exception is not modelled.
- Null events reaching the queue processors, and null consumer types passed to the bus, are not modelled.
- Dictionary values that are not `HashSet<Type>` (the `ICollection<Type>` branch of memoisation) are not modelled, since the builder only ever stores hash sets.
- The clock: the timestamp of a failure record is a parameter `now` for the whole pass, so timestamps are not shown to be increasing.
- Metrics, tracing and logging: the `bus.processed` and `bus.failed` counters are ghost counters; activities and log messages are left out.
- Container adapters, service scopes and keyed services: the instance resolver and the types resolver are parameters of each pass.
- `EventBusExtensions` and `ConsumerTypesProviderExtensions` (generic convenience overloads) are not part of this model.
- The queue interface used by the current processor (`ReadEventsAsync`, `EnqueueError(FailedEvent)`) is newer than the `EventsQueue` class shown; it is modelled by `TryRead` and `EnqueueFailure`.
- `Options.Value` of the current processor is modelled by `QueueProcessor.ProcessorOptions`; the earlier processor's `QueueProcessorOptionsProvider` by `LegacyQueueProcessor.TickRates`.
- The `ServiceDescriptor` constructor's null check is modelled by its `ArgumentNullException("serviceType")`.
- `typeof(DependencyInjectionQueueProcessor)` is an arbitrary fixed `TypeId`.
