/**
 * The earlier background queue processor of the dependency-injection
 * package: for each event it starts every consumer into one batch, awaits
 * the batch with `Task.WhenAll`, and catches whatever fails once per event,
 * recording it in the error queue unconditionally.
 */
module LegacyQueueProcessor {
  import opened Types
  import opened Seqs
  import opened Registry
  import opened TypesProviders
  import opened ConsumerProviders
  import opened Queue
  import opened Loops
  import opened Bus

  /** `QueueProcessorOptionsProvider(tickRate, errorTickRate)`. */
  datatype TickRates = TickRates(tickRate: nat, errorTickRate: nat)

  /**
   * What one pass works with: what the lookup of a consumer type's
   * `ConsumeAsync` for an event type does, the consumers' own code and the
   * pass's token.
   */
  datatype Handling = Handling(consumeMethod: (TypeId, TypeId) -> MethodLookup, invoke: Invoker, token: CancellationToken)

  /**
   * One pair of the batch loops: an ambiguous lookup of `ConsumeAsync`
   * throws out of the loops; a consumer type without the method is logged
   * and skipped; otherwise reflection's `Invoke` runs, which throws
   * `TargetException` for a null instance and wraps a synchronous throw of
   * the consumer in `TargetInvocationException`; a returned task joins the
   * batch.
   */
  function Enlist(b: Dispatch, t: Target, ev: Event, h: Handling): Dispatch
  {
    match h.consumeMethod(t.consumerType, ev.runtimeType)
    case Missing => b
    case Ambiguous => b.(abort := Some(AmbiguousMatchException))
    case Found =>
      match t.instance
      case None => b.(abort := Some(TargetException))
      case Some(consumer) =>
        var call := Call(t.consumerType, consumer, ev.runtimeType, ev, h.token);
        match h.invoke(consumer, ev.runtimeType, ev)
        case Threw(e) => Dispatch(b.calls + [call], b.started, Some(TargetInvocationException(e)))
        case started => Dispatch(b.calls + [call], b.started + [started], None)
  }

  function Enlister(ev: Event, h: Handling): (Dispatch, Target) -> Dispatch
  {
    (b, t) => Enlist(b, t, ev, h)
  }

  /** The batch of one event over `pairs`. */
  function BatchOf(pairs: seq<Target>, ev: Event, h: Handling): Dispatch
  {
    Run(NotStarted, pairs, Enlister(ev, h), Aborted)
  }

  /** What the per-event catch receives: the exception that left the loops, else the first fault of the batch. */
  function Caught(b: Dispatch): (r: Option<Exception>)
    ensures r.None? <==> b.abort.None? && forall k :: 0 <= k < |b.started| ==> !b.started[k].Faulted?
  {
    match Settle(b)
    case Done => None
    case Failed(e) => Some(e)
  }

  /** The error-queue record `EnqueueError(event, e)` makes, if anything was caught. */
  function Record(ev: Event, caught: Option<Exception>): seq<FailedEvent>
  {
    if caught.Some? then [FailedEvent(ev, caught.value, None, None)] else []
  }

  /** The state of a pass over the queue. */
  datatype Pass = Pass(registry: Dictionary, calls: seq<Call>, failures: seq<FailedEvent>, processed: nat)

  /**
   * `ProcessEventAsync` for one event read from the queue: the pairs of the
   * types resolved by the event's runtime type, and the dictionary the
   * lookup leaves when the batch loops end or throw.
   */
  ghost function Advance(p: TypesProvider, provider: ConsumerProvider, h: Handling, s: Pass, ev: Event): Pass
  {
    var b := BatchOf(ResolvedPairs(p, s.registry, ev.runtimeType, provider), ev, h);
    Pass(
      AfterDispatch(p, s.registry, ev.runtimeType, provider, NotStarted, Enlister(ev, h), Aborted),
      s.calls + b.calls,
      s.failures + Record(ev, Caught(b)),
      s.processed + (if Caught(b).None? then 1 else 0))
  }

  ghost function EventStep(p: TypesProvider, provider: ConsumerProvider, h: Handling): (Pass, Event) -> Pass
  {
    (s, ev) => Advance(p, provider, h, s, ev)
  }

  /** Nothing escapes an event, so the read loop never stops early. */
  predicate Never(s: Pass)
  {
    false
  }

  /** A pass over `events` starting from the dictionary value `d`. */
  ghost function Drain(events: seq<Event>, p: TypesProvider, d: Dictionary, provider: ConsumerProvider, h: Handling): Pass
  {
    Run(Pass(d, [], [], 0), events, EventStep(p, provider, h), Never)
  }

  class DependencyInjectionQueueProcessor {
    const queue: EventsQueue
    const reflection: Reflection
    const options: TickRates
    /** The `bus.processed` and `bus.failed` counters. */
    ghost var processed: nat
    ghost var failed: nat

    constructor (queue: EventsQueue, reflection: Reflection, options: TickRates)
      ensures this.queue == queue && this.reflection == reflection && this.options == options
      ensures processed == 0 && failed == 0
    {
      this.queue := queue;
      this.reflection := reflection;
      this.options := options;
      processed := 0;
      failed := 0;
    }

    function Env(invoke: Invoker, token: CancellationToken): Handling
    {
      Handling(reflection.consumeMethod, invoke, token)
    }

    /**
     * The inner batch loop over the instances of one consumer type, after the
     * pairs `before`: the calls and tasks so far, and the exception that left
     * the loops, if one did.
     */
    method BatchConsumers(ev: Event, consumerType: TypeId, consumers: seq<Option<Instance>>,
                          invoke: Invoker, token: CancellationToken,
                          ghost before: seq<Target>, calls0: seq<Call>, batch0: seq<Invocation>)
      returns (calls: seq<Call>, batch: seq<Invocation>, thrown: Option<Exception>)
      requires BatchOf(before, ev, Env(invoke, token)) == Dispatch(calls0, batch0, None)
      ensures BatchOf(before + Targets(consumerType, consumers), ev, Env(invoke, token)) == Dispatch(calls, batch, thrown)
    {
      var h := Env(invoke, token);
      calls, batch := calls0, batch0;
      assert before + Targets(consumerType, consumers[..0]) == before;
      var j := 0;
      while j < |consumers|
        invariant 0 <= j <= |consumers|
        invariant BatchOf(before + Targets(consumerType, consumers[..j]), ev, h) == Dispatch(calls, batch, None)
      {
        var target := Target(consumerType, consumers[j]);
        ghost var done := before + Targets(consumerType, consumers[..j]);
        InnerSplit(before, consumerType, consumers, j);
        StepOrStop(NotStarted, done, target, Targets(consumerType, consumers[j + 1..]), Enlister(ev, h), Aborted);
        var lookup := reflection.consumeMethod(consumerType, ev.runtimeType);
        if lookup.Ambiguous? {
          return calls, batch, Some(AmbiguousMatchException);
        }
        if lookup.Found? {
          if consumers[j].None? {
            return calls, batch, Some(TargetException);
          }
          var consumer := consumers[j].value;
          var result := invoke(consumer, ev.runtimeType, ev);
          calls := calls + [Call(consumerType, consumer, ev.runtimeType, ev, token)];
          if result.Threw? {
            return calls, batch, Some(TargetInvocationException(result.exception));
          }
          batch := batch + [result];
        }
        j := j + 1;
      }
      assert consumers[..j] == consumers;
      thrown := None;
    }

    /**
     * The batch loops of `ProcessEventAsync` over the enumerator `it`,
     * started for the event's runtime type over the dictionary value `d`, up
     * to the first exception that leaves them.
     */
    method StartBatch(ev: Event, it: Lookup, ghost p: TypesProvider, ghost d: Dictionary, consumerProvider: ConsumerProvider,
                      invoke: Invoker, token: CancellationToken)
      returns (calls: seq<Call>, batch: seq<Invocation>, thrown: Option<Exception>)
      requires it.Tracks(p, d, ev.runtimeType) && it.Yielded() == []
      requires it.Repr() !! {this, queue}
      modifies it.Repr(), p.Consumers()
      ensures BatchOf(ResolvedPairs(p, d, ev.runtimeType, consumerProvider), ev, Env(invoke, token)) == Dispatch(calls, batch, thrown)
      ensures p.Consumers().Valid()
      ensures p.Consumers().View() == AfterDispatch(p, d, ev.runtimeType, consumerProvider, NotStarted, Enlister(ev, Env(invoke, token)), Aborted)
    {
      var h := Env(invoke, token);
      ghost var e := ev.runtimeType;
      ghost var types := Resolved(p, d, e);
      batch, calls := [], [];
      while true
        invariant it.Tracks(p, d, e)
        invariant BatchOf(Pairs(it.Yielded(), consumerProvider), ev, h) == Dispatch(calls, batch, None)
        decreases |types| - |it.Yielded()|
      {
        ghost var before := it.Yielded();
        var more := MoveNext(it, p, d, e);
        if !more {
          break;
        }
        var consumerType := it.Current();
        calls, batch, thrown := BatchConsumers(ev, consumerType, consumerProvider.getConsumers(consumerType),
                                               invoke, token, Pairs(before, consumerProvider), calls, batch);
        NextKey(it, p, d, e, before, consumerType, consumerProvider);
        if thrown.Some? {
          Abandoned(it, p, d, e, consumerProvider, NotStarted, Enlister(ev, h), Aborted, before, consumerType);
          return;
        }
      }
      Exhausted(it, p, d, e, consumerProvider, NotStarted, Enlister(ev, h), Aborted);
      thrown := None;
    }

    /**
     * `ProcessEventAsync(event, ...)`: the batch, then `Task.WhenAll`; one
     * catch for the whole event.
     */
    method ProcessEventAsync(ev: Event, consumerProvider: ConsumerProvider, consumerTypesProvider: TypesProvider,
                             invoke: Invoker, token: CancellationToken)
      returns (calls: seq<Call>)
      requires consumerTypesProvider.Consumers().Valid()
      modifies this, queue, consumerTypesProvider.Consumers()
      ensures consumerTypesProvider.Consumers().Valid()
      ensures consumerTypesProvider.Consumers().View()
              == AfterDispatch(consumerTypesProvider, old(consumerTypesProvider.Consumers().View()), ev.runtimeType,
                               consumerProvider, NotStarted, Enlister(ev, Env(invoke, token)), Aborted)
      ensures var b := BatchOf(ResolvedPairs(consumerTypesProvider, old(consumerTypesProvider.Consumers().View()),
                                             ev.runtimeType, consumerProvider), ev, Env(invoke, token));
              calls == b.calls
              && queue.errorQueue == old(queue.errorQueue) + Record(ev, Caught(b))
              && failed == old(failed) + |Record(ev, Caught(b))|
              && processed == old(processed) + (if Caught(b).None? then 1 else 0)
      ensures queue.events == old(queue.events)
    {
      var it := GetConsumerTypes(consumerTypesProvider, ev.runtimeType);
      var batch, thrown;
      calls, batch, thrown := StartBatch(ev, it, consumerTypesProvider, consumerTypesProvider.Consumers().View(),
                                         consumerProvider, invoke, token);
      var caught := thrown;
      if caught.None? {
        caught := FirstFault(batch);
      }
      assert caught == Caught(Dispatch(calls, batch, thrown));
      Conclude(ev, caught);
    }

    /** The end of `ProcessEventAsync`: the caught exception, if any, goes to the error queue. */
    method Conclude(ev: Event, caught: Option<Exception>)
      modifies this, queue
      ensures queue.errorQueue == old(queue.errorQueue) + Record(ev, caught)
      ensures failed == old(failed) + |Record(ev, caught)|
      ensures processed == old(processed) + (if caught.None? then 1 else 0)
      ensures queue.events == old(queue.events)
    {
      if caught.Some? {
        queue.EnqueueError(ev, caught.value);
        failed := failed + 1;
      } else {
        processed := processed + 1;
      }
    }

    /**
     * `ProcessQueueAsync(queue.GetReader(), ...)`: nothing at all, not even
     * a scope, when no event is waiting; otherwise every waiting event,
     * oldest first. `scoped` says whether a scope was created.
     */
    method ProcessQueueAsync(consumerProvider: ConsumerProvider, consumerTypesProvider: TypesProvider,
                             invoke: Invoker, token: CancellationToken)
      returns (calls: seq<Call>, scoped: bool)
      requires consumerTypesProvider.Consumers().Valid()
      modifies this, queue, consumerTypesProvider.Consumers()
      ensures consumerTypesProvider.Consumers().Valid()
      ensures scoped <==> old(queue.events) != []
      ensures queue.events == []
      ensures var pass := Drain(old(queue.events), consumerTypesProvider, old(consumerTypesProvider.Consumers().View()),
                                consumerProvider, Env(invoke, token));
              calls == pass.calls
              && consumerTypesProvider.Consumers().View() == pass.registry
              && queue.errorQueue == old(queue.errorQueue) + pass.failures
              && failed == old(failed) + |pass.failures| && processed == old(processed) + pass.processed
    {
      if queue.ReaderCount() < 1 {
        return [], false;
      }
      scoped := true;
      calls := ReadAll(consumerProvider, consumerTypesProvider, invoke, token);
    }

    /** The read loop of `ProcessQueueAsync`: every waiting event, oldest first. */
    method ReadAll(consumerProvider: ConsumerProvider, consumerTypesProvider: TypesProvider,
                   invoke: Invoker, token: CancellationToken)
      returns (calls: seq<Call>)
      requires consumerTypesProvider.Consumers().Valid()
      modifies this, queue, consumerTypesProvider.Consumers()
      ensures consumerTypesProvider.Consumers().Valid()
      ensures queue.events == []
      ensures var pass := Drain(old(queue.events), consumerTypesProvider, old(consumerTypesProvider.Consumers().View()),
                                consumerProvider, Env(invoke, token));
              calls == pass.calls
              && consumerTypesProvider.Consumers().View() == pass.registry
              && queue.errorQueue == old(queue.errorQueue) + pass.failures
              && failed == old(failed) + |pass.failures| && processed == old(processed) + pass.processed
    {
      ghost var h := Env(invoke, token);
      ghost var events := queue.events;
      ghost var d0 := consumerTypesProvider.Consumers().View();
      ghost var errors0, failed0, processed0 := queue.errorQueue, failed, processed;
      ghost var state := Pass(d0, [], [], 0);
      ghost var k := 0;
      calls := [];
      while queue.ReaderCount() > 0
        invariant k <= |events| && queue.events == events[k..]
        invariant state == Drain(events[..k], consumerTypesProvider, d0, consumerProvider, h)
        invariant consumerTypesProvider.Consumers().Valid() && consumerTypesProvider.Consumers().View() == state.registry
        invariant calls == state.calls && queue.errorQueue == errors0 + state.failures
        invariant failed == failed0 + |state.failures| && processed == processed0 + state.processed
        decreases |queue.events|
      {
        DrainStep(events, k, consumerTypesProvider, d0, consumerProvider, h);
        var evCalls;
        evCalls, state := ProcessNextEvent(consumerProvider, consumerTypesProvider, invoke, token,
                                           state, errors0, failed0, processed0);
        calls := calls + evCalls;
        k := k + 1;
      }
      assert events[..k] == events;
    }

    /** One iteration of the read loop of `ProcessQueueAsync`: one step of the pass from `state`. */
    method ProcessNextEvent(consumerProvider: ConsumerProvider, consumerTypesProvider: TypesProvider,
                            invoke: Invoker, token: CancellationToken,
                            ghost state: Pass, ghost errors0: seq<FailedEvent>, ghost failed0: nat, ghost processed0: nat)
      returns (evCalls: seq<Call>, ghost next: Pass)
      requires queue.events != []
      requires consumerTypesProvider.Consumers().Valid() && consumerTypesProvider.Consumers().View() == state.registry
      requires queue.errorQueue == errors0 + state.failures
      requires failed == failed0 + |state.failures| && processed == processed0 + state.processed
      modifies this, queue, consumerTypesProvider.Consumers()
      ensures next == Advance(consumerTypesProvider, consumerProvider, Env(invoke, token), state, old(queue.events)[0])
      ensures queue.events == old(queue.events)[1..]
      ensures consumerTypesProvider.Consumers().Valid() && consumerTypesProvider.Consumers().View() == next.registry
      ensures next.calls == state.calls + evCalls && queue.errorQueue == errors0 + next.failures
      ensures failed == failed0 + |next.failures| && processed == processed0 + next.processed
    {
      var item := queue.TryRead();
      var ev := item.value;
      evCalls := ProcessEventAsync(ev, consumerProvider, consumerTypesProvider, invoke, token);
      next := Advance(consumerTypesProvider, consumerProvider, Env(invoke, token), state, ev);
    }

    /**
     * `BackgroundProcessing` for `passes` iterations before cancellation is
     * requested: nothing escapes a pass, so every pass is followed by the
     * success delay; the first pass drains every waiting event and the later
     * ones find the queue empty and do nothing.
     */
    method BackgroundProcessing(passes: nat, consumerProvider: ConsumerProvider, consumerTypesProvider: TypesProvider,
                                invoke: Invoker, token: CancellationToken)
      returns (delays: seq<nat>, calls: seq<Call>)
      requires consumerTypesProvider.Consumers().Valid()
      modifies this, queue, consumerTypesProvider.Consumers()
      ensures consumerTypesProvider.Consumers().Valid()
      ensures delays == seq(passes, _ => options.tickRate)
      ensures passes == 0 ==>
                calls == [] && queue.events == old(queue.events)
                && consumerTypesProvider.Consumers().View() == old(consumerTypesProvider.Consumers().View())
                && queue.errorQueue == old(queue.errorQueue) && failed == old(failed) && processed == old(processed)
      ensures var pass := Drain(old(queue.events), consumerTypesProvider, old(consumerTypesProvider.Consumers().View()),
                                consumerProvider, Env(invoke, token));
              passes > 0 ==>
                calls == pass.calls && queue.events == []
                && consumerTypesProvider.Consumers().View() == pass.registry
                && queue.errorQueue == old(queue.errorQueue) + pass.failures
                && failed == old(failed) + |pass.failures| && processed == old(processed) + pass.processed
    {
      ghost var events, d := queue.events, consumerTypesProvider.Consumers().View();
      ghost var errors0, failed0, processed0 := queue.errorQueue, failed, processed;
      ghost var pass := Drain(events, consumerTypesProvider, d, consumerProvider, Env(invoke, token));
      delays, calls := [], [];
      while |delays| < passes
        invariant consumerTypesProvider.Consumers().Valid()
        invariant |delays| <= passes && delays == seq(|delays|, _ => options.tickRate)
        invariant |delays| == 0 ==>
                    calls == [] && queue.events == events && consumerTypesProvider.Consumers().View() == d
                    && queue.errorQueue == errors0 && failed == failed0 && processed == processed0
        invariant |delays| > 0 ==>
                    calls == pass.calls && queue.events == [] && consumerTypesProvider.Consumers().View() == pass.registry
                    && queue.errorQueue == errors0 + pass.failures
                    && failed == failed0 + |pass.failures| && processed == processed0 + pass.processed
      {
        var passCalls, _ := ProcessQueueAsync(consumerProvider, consumerTypesProvider, invoke, token);
        calls := calls + passCalls;
        delays := delays + [options.tickRate];
      }
    }
  }

  /** Reading the `k`-th event is one more step of the pass. */
  lemma DrainStep(events: seq<Event>, k: nat, p: TypesProvider, d: Dictionary, provider: ConsumerProvider, h: Handling)
    requires k < |events|
    ensures Drain(events[..k + 1], p, d, provider, h) == Advance(p, provider, h, Drain(events[..k], p, d, provider, h), events[k])
  {
    assert events[..k + 1] == events[..k] + [events[k]];
    StepOrStop(Pass(d, [], [], 0), events[..k], events[k], [], EventStep(p, provider, h), Never);
  }

  /**
   * Every event of a pass is accounted for exactly once: it is counted as
   * processed or leaves one error record, never both and never more.
   */
  lemma {:induction false} DrainAccounts(events: seq<Event>, p: TypesProvider, d: Dictionary, provider: ConsumerProvider, h: Handling)
    ensures var pass := Drain(events, p, d, provider, h);
            pass.processed + |pass.failures| == |events|
            && forall k :: 0 <= k < |pass.failures| ==> pass.failures[k].failedConsumer.None? && pass.failures[k].timestamp.None?
  {
    if events != [] {
      DrainAccounts(DropLast(events), p, d, provider, h);
    }
  }

  /** A consumer type without a `ConsumeAsync` leaves the batch as it was. */
  lemma MissingMethodSkipped(done: seq<Target>, t: Target, ev: Event, h: Handling)
    requires !BatchOf(done, ev, h).abort.Some?
    requires h.consumeMethod(t.consumerType, ev.runtimeType).Missing?
    ensures BatchOf(done + [t], ev, h) == BatchOf(done, ev, h)
  {
    StepOrStop(NotStarted, done, t, [], Enlister(ev, h), Aborted);
  }

  /**
   * A consumer that throws synchronously is the last one started: the
   * consumers after it are never called, and the event's catch receives the
   * wrapped exception.
   */
  lemma ThrowEndsBatch(done: seq<Target>, t: Target, rest: seq<Target>, ev: Event, h: Handling)
    requires !BatchOf(done, ev, h).abort.Some?
    requires h.consumeMethod(t.consumerType, ev.runtimeType).Found? && t.instance.Some?
    requires h.invoke(t.instance.value, ev.runtimeType, ev).Threw?
    ensures BatchOf(done + [t] + rest, ev, h).calls
            == BatchOf(done, ev, h).calls + [Call(t.consumerType, t.instance.value, ev.runtimeType, ev, h.token)]
    ensures Caught(BatchOf(done + [t] + rest, ev, h))
            == Some(TargetInvocationException(h.invoke(t.instance.value, ev.runtimeType, ev).exception))
  {
    StepOrStop(NotStarted, done, t, rest, Enlister(ev, h), Aborted);
  }

  /** A null instance whose type has a `ConsumeAsync` ends the batch with `TargetException` and no call. */
  lemma NullTargetEndsBatch(done: seq<Target>, t: Target, rest: seq<Target>, ev: Event, h: Handling)
    requires !BatchOf(done, ev, h).abort.Some?
    requires h.consumeMethod(t.consumerType, ev.runtimeType).Found? && t.instance.None?
    ensures BatchOf(done + [t] + rest, ev, h).calls == BatchOf(done, ev, h).calls
    ensures Caught(BatchOf(done + [t] + rest, ev, h)) == Some(TargetException)
  {
    StepOrStop(NotStarted, done, t, rest, Enlister(ev, h), Aborted);
  }

  /**
   * An ambiguous lookup of `ConsumeAsync` leaves the batch loops: no call is
   * made on that consumer or any after it, and the event's catch receives
   * the `AmbiguousMatchException`.
   */
  lemma AmbiguousEndsBatch(done: seq<Target>, t: Target, rest: seq<Target>, ev: Event, h: Handling)
    requires !BatchOf(done, ev, h).abort.Some?
    requires h.consumeMethod(t.consumerType, ev.runtimeType).Ambiguous?
    ensures BatchOf(done + [t] + rest, ev, h).calls == BatchOf(done, ev, h).calls
    ensures Caught(BatchOf(done + [t] + rest, ev, h)) == Some(AmbiguousMatchException)
  {
    StepOrStop(NotStarted, done, t, rest, Enlister(ev, h), Aborted);
  }
}
