/**
 * `DependencyInjectionEventBus`: the event bus of the dependency-injection
 * package, which refuses to publish while the events queue is disabled and
 * otherwise publishes as the base bus does.
 */
module DiEventBus {
  import opened Types
  import opened Registry
  import opened TypesProviders
  import opened Bus

  const QueueDisabledMessage: string := "The background queue processor is disabled."

  class DependencyInjectionEventBus {
    const options: EventBusBuilderOptions
    /** The base-class part of the object. */
    const base: EventBus

    constructor (options: EventBusBuilderOptions, base: EventBus)
      ensures this.options == options && this.base == base
    {
      this.options := options;
      this.base := base;
    }

    /**
     * `PublishAsync<TEvent>(eventItem, cancellationToken)`: with the events
     * queue disabled, `QueueException` before anything is looked up or
     * called, whatever the event; otherwise the base `PublishAsync`.
     */
    method PublishAsync(eventType: TypeId, eventItem: Option<Event>, token: CancellationToken, invoke: Invoker)
      returns (calls: seq<Call>, r: Outcome)
      requires base.consumerTypesProvider.Consumers().Valid()
      modifies base.consumerTypesProvider.Consumers()
      ensures base.consumerTypesProvider.Consumers().Valid()
      ensures !options.useEventsQueue ==>
                r == Failed(QueueException(QueueDisabledMessage)) && calls == []
                && base.consumerTypesProvider.Consumers().View() == old(base.consumerTypesProvider.Consumers().View())
      ensures options.useEventsQueue && eventItem.None? ==>
                r == Failed(ArgumentNullException("eventItem")) && calls == []
                && base.consumerTypesProvider.Consumers().View() == old(base.consumerTypesProvider.Consumers().View())
      ensures options.useEventsQueue && eventItem.Some? ==>
                var pub := Publication(eventType, eventItem.value, token, invoke);
                var d := FanOut(ResolvedPairs(base.consumerTypesProvider, old(base.consumerTypesProvider.Consumers().View()),
                                              eventType, base.consumerProviders), pub);
                calls == d.calls && r == Settle(d)
                && base.consumerTypesProvider.Consumers().View()
                   == AfterDispatch(base.consumerTypesProvider, old(base.consumerTypesProvider.Consumers().View()), eventType,
                                    base.consumerProviders, NotStarted, Stepper(pub), Aborted)
    {
      if !options.useEventsQueue {
        return [], Failed(QueueException(QueueDisabledMessage));
      }
      calls, r := base.PublishAsync(eventType, eventItem, token, invoke);
    }
  }

  /**
   * A bus built with the default options, which enable the events queue,
   * publishes exactly as its base bus does: the null guard, then the
   * fan-out, never `QueueException` up front.
   */
  method DefaultBusPublishes(base: EventBus, eventType: TypeId, eventItem: Option<Event>, token: CancellationToken,
                             invoke: Invoker)
    returns (calls: seq<Call>, r: Outcome)
    requires base.consumerTypesProvider.Consumers().Valid()
    modifies base.consumerTypesProvider.Consumers()
    ensures eventItem.None? ==> r == Failed(ArgumentNullException("eventItem")) && calls == []
    ensures eventItem.Some? ==>
              var d := FanOut(ResolvedPairs(base.consumerTypesProvider, old(base.consumerTypesProvider.Consumers().View()),
                                            eventType, base.consumerProviders),
                              Publication(eventType, eventItem.value, token, invoke));
              calls == d.calls && r == Settle(d)
  {
    var bus := new DependencyInjectionEventBus(DefaultOptions, base);
    calls, r := bus.PublishAsync(eventType, eventItem, token, invoke);
  }
}
