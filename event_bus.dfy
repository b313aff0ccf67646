/**
 * `EventBus.PublishAsync`: the null guard, then one `ConsumeAsync` call per
 * (consumer type, instance) pair, every task started before `Task.WhenAll`
 * awaits them.
 */
module Bus {
  import opened Types
  import opened Seqs
  import opened Registry
  import opened TypesProviders
  import opened ConsumerProviders
  import opened Loops

  /** What one publication hands every consumer: the handler's event type, the event, the token. */
  datatype Publication = Publication(
    handlerType: TypeId,
    event: Event,
    token: CancellationToken,
    invoke: Invoker)

  /**
   * The state of the fan-out loops: the calls made, every task collected so far, and
   * the exception that left the loops, if one did.
   */
  datatype Dispatch = Dispatch(calls: seq<Call>, started: seq<Invocation>, abort: Option<Exception>)

  const NotStarted: Dispatch := Dispatch([], [], None)

  /** The call a target receives. */
  function CallOf(t: Target, pub: Publication): Call
    requires t.instance.Some?
  {
    Call(t.consumerType, t.instance.value, pub.handlerType, pub.event, pub.token)
  }

  /**
   * One iteration: `((IConsumer<TEvent>)consumer).ConsumeAsync(eventItem, token)`.
   * A null instance throws `NullReferenceException` before any call; a call
   * that throws leaves the loops; otherwise its task joins the list.
   */
  function Step(d: Dispatch, t: Target, pub: Publication): Dispatch
  {
    match t.instance
    case None => Dispatch(d.calls, d.started, Some(NullReferenceException))
    case Some(instance) =>
      match pub.invoke(instance, pub.handlerType, pub.event)
      case Threw(e) => Dispatch(d.calls + [CallOf(t, pub)], d.started, Some(e))
      case started => Dispatch(d.calls + [CallOf(t, pub)], d.started + [started], None)
  }

  function Stepper(pub: Publication): (Dispatch, Target) -> Dispatch
  {
    (d, t) => Step(d, t, pub)
  }

  /** An exception has left the loops. */
  predicate Aborted(d: Dispatch)
  {
    d.abort.Some?
  }

  /** The fan-out of a publication over `pairs`. */
  function FanOut(pairs: seq<Target>, pub: Publication): Dispatch
  {
    Run(NotStarted, pairs, Stepper(pub), Aborted)
  }

  /** `await Task.WhenAll(tasks)` after the loops: the exception that left them, else the first fault. */
  function Settle(d: Dispatch): Outcome
  {
    if d.abort.Some? then Failed(d.abort.value)
    else
      match FirstFault(d.started)
      case None => Done
      case Some(e) => Failed(e)
  }

  /** No pair stops the loops: every instance is non-null and no call throws. */
  ghost predicate Clean(pairs: seq<Target>, pub: Publication)
  {
    forall k :: 0 <= k < |pairs| ==>
      pairs[k].instance.Some? && !pub.invoke(pairs[k].instance.value, pub.handlerType, pub.event).Threw?
  }

  /** The number of calls made on consumer type `c`. */
  function CallsTo(calls: seq<Call>, c: TypeId): nat
  {
    if calls == [] then 0
    else CallsTo(DropLast(calls), c) + (if Last(calls).consumerType == c then 1 else 0)
  }

  /**
   * The calls are made in pair order, each with the publication's event,
   * token and handler type, and they stop short of the pairs only when an
   * exception left the loops; the loops run to the end exactly when no pair
   * stops them.
   */
  lemma {:induction false} FanOutCalls(pairs: seq<Target>, pub: Publication)
    ensures var d := FanOut(pairs, pub);
            |d.calls| <= |pairs|
            && (forall k :: 0 <= k < |d.calls| ==> pairs[k].instance.Some? && d.calls[k] == CallOf(pairs[k], pub))
            && (d.abort.None? <==> Clean(pairs, pub))
            && (d.abort.None? ==> |d.calls| == |pairs| && |d.started| == |pairs|)
  {
    if pairs != [] {
      var init, t := DropLast(pairs), Last(pairs);
      LastSplit(pairs);
      FanOutCalls(init, pub);
      var prev := FanOut(init, pub);
      if prev.abort.Some? {
        var k :| 0 <= k < |init| && !(init[k].instance.Some? && !pub.invoke(init[k].instance.value, pub.handlerType, pub.event).Threw?);
        assert pairs[k] == init[k];
      } else {
        assert forall k :: 0 <= k < |init| ==> pairs[k] == init[k];
      }
    }
  }

  /** Without a stop, consumer type `c` receives one call per pair of that type. */
  lemma {:induction false} FanOutCallsTo(pairs: seq<Target>, pub: Publication, c: TypeId)
    requires Clean(pairs, pub)
    ensures CallsTo(FanOut(pairs, pub).calls, c) == CountOf(pairs, c)
  {
    if pairs != [] {
      var init, t := DropLast(pairs), Last(pairs);
      LastSplit(pairs);
      assert forall k :: 0 <= k < |init| ==> pairs[k] == init[k];
      FanOutCallsTo(init, pub, c);
      FanOutCalls(init, pub);
      var calls := FanOut(pairs, pub).calls;
      assert calls == FanOut(init, pub).calls + [CallOf(t, pub)];
      DropLastAppend(FanOut(init, pub).calls, CallOf(t, pub));
    }
  }

  /**
   * Over distinct consumer types with no stop, a consumer type receives one
   * call per instance when it is resolved, and none otherwise.
   */
  lemma DeliveredPerInstance(types: seq<TypeId>, provider: ConsumerProvider, pub: Publication, c: TypeId)
    requires Distinct(types) && Clean(Pairs(types, provider), pub)
    ensures CallsTo(FanOut(Pairs(types, provider), pub).calls, c) == if c in types then |provider.getConsumers(c)| else 0
  {
    FanOutCallsTo(Pairs(types, provider), pub, c);
    PairsCount(types, provider, c);
    DistinctOccursOnce(types, c);
  }

  /** No pairs: no call, and the publication completes. */
  lemma NothingToDeliver(pub: Publication)
    ensures FanOut([], pub).calls == [] && Settle(FanOut([], pub)) == Done
  {
  }

  class EventBus {
    const consumerProviders: ConsumerProvider
    const consumerTypesProvider: TypesProvider

    constructor (consumerProviders: ConsumerProvider, consumerTypesProvider: TypesProvider)
      ensures this.consumerProviders == consumerProviders
      ensures this.consumerTypesProvider == consumerTypesProvider
    {
      this.consumerProviders := consumerProviders;
      this.consumerTypesProvider := consumerTypesProvider;
    }

    /**
     * `PublishAsync<TEvent>(eventItem, cancellationToken)` with `TEvent` =
     * `eventType`: the calls the consumers receive, how the returned task
     * ends, and the dictionary the lookup leaves behind (the lookup is
     * abandoned when an exception leaves the loops).
     */
    method PublishAsync(eventType: TypeId, eventItem: Option<Event>, token: CancellationToken, invoke: Invoker)
      returns (calls: seq<Call>, r: Outcome)
      requires consumerTypesProvider.Consumers().Valid()
      modifies consumerTypesProvider.Consumers()
      ensures consumerTypesProvider.Consumers().Valid()
      ensures eventItem.None? ==>
                r == Failed(ArgumentNullException("eventItem")) && calls == []
                && consumerTypesProvider.Consumers().View() == old(consumerTypesProvider.Consumers().View())
      ensures eventItem.Some? ==>
                var pub := Publication(eventType, eventItem.value, token, invoke);
                var d := FanOut(ResolvedPairs(consumerTypesProvider, old(consumerTypesProvider.Consumers().View()), eventType,
                                              consumerProviders), pub);
                calls == d.calls && r == Settle(d)
                && consumerTypesProvider.Consumers().View()
                   == AfterDispatch(consumerTypesProvider, old(consumerTypesProvider.Consumers().View()), eventType,
                                    consumerProviders, NotStarted, Stepper(pub), Aborted)
    {
      if eventItem.None? {
        return [], Failed(ArgumentNullException("eventItem"));
      }
      var pub := Publication(eventType, eventItem.value, token, invoke);
      var it := GetConsumerTypes(consumerTypesProvider, eventType);
      var tasks, stop;
      calls, tasks, stop := StartAll(it, consumerTypesProvider, consumerTypesProvider.Consumers().View(), consumerProviders, pub);
      if stop.Some? {
        return calls, Failed(stop.value);
      }
      match FirstFault(tasks)
      case None => r := Done;
      case Some(e) => r := Failed(e);
    }
  }

  /**
   * The loops of `PublishAsync` over the enumerator `it`, started for the
   * publication's handler type over the dictionary value `d`: the calls and
   * tasks, and the exception that left the loops, if one did.
   */
  method StartAll(it: Lookup, ghost p: TypesProvider, ghost d: Dictionary, provider: ConsumerProvider, pub: Publication)
    returns (calls: seq<Call>, tasks: seq<Invocation>, stop: Option<Exception>)
    requires it.Tracks(p, d, pub.handlerType) && it.Yielded() == []
    modifies it.Repr(), p.Consumers()
    ensures FanOut(ResolvedPairs(p, d, pub.handlerType, provider), pub) == Dispatch(calls, tasks, stop)
    ensures p.Consumers().Valid()
    ensures p.Consumers().View() == AfterDispatch(p, d, pub.handlerType, provider, NotStarted, Stepper(pub), Aborted)
  {
    ghost var e := pub.handlerType;
    ghost var types := Resolved(p, d, e);
    tasks, calls := [], [];
    while true
      invariant it.Tracks(p, d, e)
      invariant FanOut(Pairs(it.Yielded(), provider), pub) == Dispatch(calls, tasks, None)
      decreases |types| - |it.Yielded()|
    {
      ghost var before := it.Yielded();
      var more := MoveNext(it, p, d, e);
      if !more {
        break;
      }
      var consumerType := it.Current();
      calls, tasks, stop := StartConsumers(consumerType, provider.getConsumers(consumerType), pub,
                                           Pairs(before, provider), calls, tasks);
      NextKey(it, p, d, e, before, consumerType, provider);
      if stop.Some? {
        Abandoned(it, p, d, e, provider, NotStarted, Stepper(pub), Aborted, before, consumerType);
        return;
      }
    }
    Exhausted(it, p, d, e, provider, NotStarted, Stepper(pub), Aborted);
    stop := None;
  }

  /**
   * The inner loop of `PublishAsync` over the instances of one consumer type,
   * after the pairs `before`: the calls and tasks so far, and the exception
   * that left the loops, if one did.
   */
  method StartConsumers(consumerType: TypeId, consumers: seq<Option<Instance>>, pub: Publication,
                        ghost before: seq<Target>, calls0: seq<Call>, tasks0: seq<Invocation>)
    returns (calls: seq<Call>, tasks: seq<Invocation>, stop: Option<Exception>)
    requires FanOut(before, pub) == Dispatch(calls0, tasks0, None)
    ensures FanOut(before + Targets(consumerType, consumers), pub) == Dispatch(calls, tasks, stop)
  {
    calls, tasks := calls0, tasks0;
    assert before + Targets(consumerType, consumers[..0]) == before;
    var j := 0;
    while j < |consumers|
      invariant 0 <= j <= |consumers|
      invariant FanOut(before + Targets(consumerType, consumers[..j]), pub) == Dispatch(calls, tasks, None)
    {
      var target := Target(consumerType, consumers[j]);
      ghost var done := before + Targets(consumerType, consumers[..j]);
      InnerSplit(before, consumerType, consumers, j);
      StepOrStop(NotStarted, done, target, Targets(consumerType, consumers[j + 1..]), Stepper(pub), Aborted);
      if consumers[j].None? {
        return calls, tasks, Some(NullReferenceException);
      }
      var consumer := consumers[j].value;
      var invocation := pub.invoke(consumer, pub.handlerType, pub.event);
      calls := calls + [Call(consumerType, consumer, pub.handlerType, pub.event, pub.token)];
      if invocation.Threw? {
        return calls, tasks, Some(invocation.exception);
      }
      tasks := tasks + [invocation];
      j := j + 1;
    }
    assert consumers[..j] == consumers;
    stop := None;
  }
}
