/**
 * The background queue processor of the dependency-injection package (the
 * version under `Services/`): it drains the events queue, resolves the
 * consumers of each event by the event's runtime type, and runs each
 * consumer inside its own try/catch, recording failures in the error queue
 * when that is enabled.
 */
module QueueProcessor {
  import opened Types
  import opened Seqs
  import opened Registry
  import opened TypesProviders
  import opened ConsumerProviders
  import opened Queue
  import opened Loops

  const InvalidModeMessage: string := "Invalid queue processing mode. Must be either Sequential or Parallel."

  /** The options the processor reads from its options provider. */
  datatype ProcessorOptions = ProcessorOptions(
    queueMode: ProcessingMode,
    useErrorQueue: bool,
    queueTickRate: nat,
    errorTickRate: nat)

  /**
   * What one pass works with: the options, what the lookup of a consumer
   * type's `ConsumeAsync` for an event type does, the consumers' own code,
   * the pass's cancellation token and the clock reading stamped on failure
   * records.
   */
  datatype Handling = Handling(
    options: ProcessorOptions,
    consumeMethod: (TypeId, TypeId) -> MethodLookup,
    invoke: Invoker,
    token: CancellationToken,
    now: int)

  function ToSeq<T>(o: Option<T>): (s: seq<T>)
    ensures (o.Some? ==> s == [o.value]) && (o.None? ==> s == [])
  {
    if o.Some? then [o.value] else []
  }

  /** The records that reach the error queue: all of them when it is enabled, none otherwise. */
  function Recorded(options: ProcessorOptions, failures: seq<FailedEvent>): seq<FailedEvent>
  {
    if options.useErrorQueue then failures else []
  }

  /** Recording in two goes is recording once. */
  lemma RecordedAppend(options: ProcessorOptions, errors: seq<FailedEvent>, xs: seq<FailedEvent>, ys: seq<FailedEvent>)
    ensures errors + Recorded(options, xs) + Recorded(options, ys) == errors + Recorded(options, xs + ys)
  {
    if options.useErrorQueue {
      assert errors + xs + ys == errors + (xs + ys);
    } else {
      assert errors + [] + [] == errors;
    }
  }

  /**
   * `ExecuteConsumerAsync`: the call made on the consumer, the failure it
   * caused, and the exception that escapes it, if one does.
   */
  datatype Execution = Execution(call: Option<Call>, failure: Option<FailedEvent>, escaped: Option<Exception>)

  /**
   * One consumer: the lookup of `ConsumeAsync` for the event's runtime type
   * runs before the try/catch, so an ambiguous match escapes the consumer;
   * without a method the consumer is skipped; otherwise it is invoked and
   * awaited, and an exception, whether thrown by reflection's `Invoke`
   * (wrapped) or by awaiting the returned task, becomes a failure record
   * stamped with the consumer type and the time.
   */
  function Execute(ev: Event, consumerType: TypeId, consumer: Instance, h: Handling): (x: Execution)
    ensures x.escaped.Some? <==> h.consumeMethod(consumerType, ev.runtimeType).Ambiguous?
    ensures x.escaped.Some? ==> x.escaped.value == AmbiguousMatchException
    ensures x.call.Some? <==> h.consumeMethod(consumerType, ev.runtimeType).Found?
    ensures x.call.Some? ==> x.call.value == Call(consumerType, consumer, ev.runtimeType, ev, h.token)
    ensures x.failure.Some? <==> x.call.Some? && !h.invoke(consumer, ev.runtimeType, ev).Completed?
    ensures x.failure.Some? ==>
              x.failure.value.data == ev && x.failure.value.failedConsumer == Some(consumerType)
              && x.failure.value.timestamp == Some(h.now)
    ensures x.failure.Some? && h.invoke(consumer, ev.runtimeType, ev).Faulted? ==>
              x.failure.value.exception == h.invoke(consumer, ev.runtimeType, ev).exception
    ensures x.failure.Some? && h.invoke(consumer, ev.runtimeType, ev).Threw? ==>
              x.failure.value.exception == TargetInvocationException(h.invoke(consumer, ev.runtimeType, ev).exception)
  {
    match h.consumeMethod(consumerType, ev.runtimeType)
    case Missing => Execution(None, None, None)
    case Ambiguous => Execution(None, None, Some(AmbiguousMatchException))
    case Found =>
      var call := Call(consumerType, consumer, ev.runtimeType, ev, h.token);
      match h.invoke(consumer, ev.runtimeType, ev)
      case Completed => Execution(Some(call), None, None)
      case Faulted(e) => Execution(Some(call), Some(FailedEvent(ev, e, Some(consumerType), Some(h.now))), None)
      case Threw(e) =>
        Execution(Some(call), Some(FailedEvent(ev, TargetInvocationException(e), Some(consumerType), Some(h.now))), None)
  }

  /** How the consumer loops of one event end: run to the end, `return` on a null consumer, or a throw. */
  datatype Halt = Running | Skipped | Escaped(exception: Exception)

  /** The state of the consumer loops of one event. */
  datatype EventRun = EventRun(calls: seq<Call>, failures: seq<FailedEvent>, halt: Halt)

  const EventStart: EventRun := EventRun([], [], Running)

  /**
   * One pair: the null check, then the mode check, then the consumer itself.
   * What escapes the consumer leaves the loops in sequential mode; in
   * parallel mode the catch of the consumer's task logs it and the loops go on.
   */
  function Visit(r: EventRun, t: Target, ev: Event, h: Handling): EventRun
  {
    match t.instance
    case None => r.(halt := Skipped)
    case Some(consumer) =>
      if h.options.queueMode.Undefined? then r.(halt := Escaped(InvalidOperationException(InvalidModeMessage)))
      else
        var x := Execute(ev, t.consumerType, consumer, h);
        if x.escaped.Some? && h.options.queueMode.Sequential? then r.(halt := Escaped(x.escaped.value))
        else EventRun(r.calls + ToSeq(x.call), r.failures + ToSeq(x.failure), Running)
  }

  function Visitor(ev: Event, h: Handling): (EventRun, Target) -> EventRun
  {
    (r, t) => Visit(r, t, ev, h)
  }

  predicate Halted(r: EventRun)
  {
    !r.halt.Running?
  }

  /** The consumer loops of one event over `pairs`. */
  function EventPass(pairs: seq<Target>, ev: Event, h: Handling): EventRun
  {
    Run(EventStart, pairs, Visitor(ev, h), Halted)
  }

  /** The state of a pass over the queue. */
  datatype Pass = Pass(
    registry: Dictionary,
    calls: seq<Call>,
    failures: seq<FailedEvent>,
    processed: nat,
    read: nat,
    outcome: Outcome)

  /**
   * `ProcessEventAsync` for one event read from the queue: the pairs of the
   * types resolved by the event's runtime type, and the dictionary the
   * lookup leaves when the loops end or `return`.
   */
  ghost function Advance(p: TypesProvider, provider: ConsumerProvider, h: Handling, s: Pass, ev: Event): Pass
  {
    var run := EventPass(ResolvedPairs(p, s.registry, ev.runtimeType, provider), ev, h);
    Pass(
      AfterDispatch(p, s.registry, ev.runtimeType, provider, EventStart, Visitor(ev, h), Halted),
      s.calls + run.calls,
      s.failures + run.failures,
      s.processed + (if run.halt.Running? then 1 else 0),
      s.read + 1,
      if run.halt.Escaped? then Failed(run.halt.exception) else Done)
  }

  ghost function EventStep(p: TypesProvider, provider: ConsumerProvider, h: Handling): (Pass, Event) -> Pass
  {
    (s, ev) => Advance(p, provider, h, s, ev)
  }

  predicate PassFailed(s: Pass)
  {
    s.outcome.Failed?
  }

  /** A pass over `events` starting from the dictionary value `d`. */
  ghost function Drain(events: seq<Event>, p: TypesProvider, d: Dictionary, provider: ConsumerProvider, h: Handling): Pass
  {
    Run(Pass(d, [], [], 0, 0, Done), events, EventStep(p, provider, h), PassFailed)
  }

  /** The state of the background loop after some passes over the queue. */
  datatype Worker = Worker(
    events: seq<Event>,
    registry: Dictionary,
    outcomes: seq<Outcome>,
    calls: seq<Call>,
    failures: seq<FailedEvent>,
    processed: nat)

  /**
   * `n` passes of the background loop over the waiting `events` and the
   * dictionary value `d`: each pass drains what the pass before it left
   * unread, from the dictionary that pass left.
   */
  ghost function Background(events: seq<Event>, p: TypesProvider, d: Dictionary, provider: ConsumerProvider,
                            h: Handling, n: nat): (w: Worker)
    ensures |w.outcomes| == n
  {
    if n == 0 then Worker(events, d, [], [], [], 0)
    else NextPass(Background(events, p, d, provider, h, n - 1), p, provider, h)
  }

  /** One more pass: a drain of the unread events from the dictionary the last pass left. */
  ghost function NextPass(w: Worker, p: TypesProvider, provider: ConsumerProvider, h: Handling): (w': Worker)
    ensures |w'.outcomes| == |w.outcomes| + 1
  {
    var pass := Drain(w.events, p, w.registry, provider, h);
    DrainDoneReadsAll(w.events, p, w.registry, provider, h);
    Worker(w.events[pass.read..], pass.registry, w.outcomes + [pass.outcome],
           w.calls + pass.calls, w.failures + pass.failures, w.processed + pass.processed)
  }

  /** The number of passes that throw. */
  function FailedPasses(outcomes: seq<Outcome>): nat
  {
    if outcomes == [] then 0
    else FailedPasses(DropLast(outcomes)) + (if Last(outcomes).Failed? then 1 else 0)
  }

  /** The delay the background loop waits after a pass. */
  function TickAfter(options: ProcessorOptions, outcome: Outcome): nat
  {
    if outcome.Done? then options.queueTickRate else options.errorTickRate
  }

  class DependencyInjectionQueueProcessor {
    const queue: EventsQueue
    const reflection: Reflection
    const options: ProcessorOptions
    /** The `bus.processed` and `bus.failed` counters. */
    ghost var processed: nat
    ghost var failed: nat

    constructor (queue: EventsQueue, reflection: Reflection, options: ProcessorOptions)
      ensures this.queue == queue && this.reflection == reflection && this.options == options
      ensures processed == 0 && failed == 0
    {
      this.queue := queue;
      this.reflection := reflection;
      this.options := options;
      processed := 0;
      failed := 0;
    }

    function Env(invoke: Invoker, token: CancellationToken, now: int): Handling
    {
      Handling(options, reflection.consumeMethod, invoke, token, now)
    }

    /** `ExecuteConsumerAsync`: the method lookup, then one consumer inside its own try/catch. */
    method ExecuteConsumerAsync(ev: Event, consumerType: TypeId, consumer: Instance,
                                invoke: Invoker, token: CancellationToken, now: int)
      returns (call: Option<Call>, escaped: Option<Exception>)
      modifies this, queue
      ensures var x := Execute(ev, consumerType, consumer, Env(invoke, token, now));
              call == x.call && escaped == x.escaped
              && queue.errorQueue == old(queue.errorQueue) + Recorded(options, ToSeq(x.failure))
              && failed == old(failed) + |ToSeq(x.failure)|
      ensures queue.events == old(queue.events) && processed == old(processed)
    {
      var lookup := reflection.consumeMethod(consumerType, ev.runtimeType);
      if lookup.Ambiguous? {
        return None, Some(AmbiguousMatchException);
      }
      escaped := None;
      if lookup.Missing? {
        return None, None;
      }
      var result := invoke(consumer, ev.runtimeType, ev);
      call := Some(Call(consumerType, consumer, ev.runtimeType, ev, token));
      var caught: Option<Exception> :=
        match result
        case Completed => None
        case Faulted(e) => Some(e)
        case Threw(e) => Some(TargetInvocationException(e));
      if caught.Some? {
        if options.useErrorQueue {
          queue.EnqueueFailure(FailedEvent(ev, caught.value, Some(consumerType), Some(now)));
        }
        failed := failed + 1;
      }
    }

    /**
     * The inner loop of `ProcessEventAsync` over the instances of one
     * consumer type, after the pairs `before`; `failures0`, `errors0` and
     * `failed0` are the records, the error queue and the counter when the
     * event started.
     */
    method ProcessConsumers(ev: Event, consumerType: TypeId, consumers: seq<Option<Instance>>,
                            invoke: Invoker, token: CancellationToken, now: int,
                            ghost before: seq<Target>, calls0: seq<Call>, ghost failures0: seq<FailedEvent>,
                            ghost errors0: seq<FailedEvent>, ghost failed0: nat)
      returns (calls: seq<Call>, halt: Halt, ghost failures: seq<FailedEvent>)
      requires EventPass(before, ev, Env(invoke, token, now)) == EventRun(calls0, failures0, Running)
      requires queue.errorQueue == errors0 + Recorded(options, failures0) && failed == failed0 + |failures0|
      modifies this, queue
      ensures EventPass(before + Targets(consumerType, consumers), ev, Env(invoke, token, now)) == EventRun(calls, failures, halt)
      ensures queue.errorQueue == errors0 + Recorded(options, failures) && failed == failed0 + |failures|
      ensures queue.events == old(queue.events) && processed == old(processed)
    {
      var h := Env(invoke, token, now);
      calls, failures := calls0, failures0;
      assert before + Targets(consumerType, consumers[..0]) == before;
      var j := 0;
      while j < |consumers|
        invariant 0 <= j <= |consumers|
        invariant EventPass(before + Targets(consumerType, consumers[..j]), ev, h) == EventRun(calls, failures, Running)
        invariant queue.errorQueue == errors0 + Recorded(options, failures) && failed == failed0 + |failures|
        invariant queue.events == old(queue.events) && processed == old(processed)
      {
        var target := Target(consumerType, consumers[j]);
        ghost var done := before + Targets(consumerType, consumers[..j]);
        InnerSplit(before, consumerType, consumers, j);
        StepOrStop(EventStart, done, target, Targets(consumerType, consumers[j + 1..]), Visitor(ev, h), Halted);
        if consumers[j].None? {
          return calls, Skipped, failures;
        }
        if options.queueMode.Undefined? {
          return calls, Escaped(InvalidOperationException(InvalidModeMessage)), failures;
        }
        ghost var x := Execute(ev, consumerType, consumers[j].value, h);
        var call, escaped := ExecuteConsumerAsync(ev, consumerType, consumers[j].value, invoke, token, now);
        if escaped.Some? && options.queueMode.Sequential? {
          return calls, Escaped(escaped.value), failures;
        }
        calls := calls + ToSeq(call);
        failures := failures + ToSeq(x.failure);
        j := j + 1;
      }
      assert consumers[..j] == consumers;
      halt := Running;
    }

    /**
     * `ProcessEventAsync(event, ...)`: the calls made on the consumers, the
     * exception that escapes, if one does, and the dictionary the lookup
     * leaves behind (the lookup is abandoned at a `return` or a throw).
     */
    method ProcessEventAsync(ev: Event, consumerProvider: ConsumerProvider, consumerTypesProvider: TypesProvider,
                             invoke: Invoker, token: CancellationToken, now: int)
      returns (calls: seq<Call>, escaped: Option<Exception>)
      requires consumerTypesProvider.Consumers().Valid()
      modifies this, queue, consumerTypesProvider.Consumers()
      ensures consumerTypesProvider.Consumers().Valid()
      ensures consumerTypesProvider.Consumers().View()
              == AfterDispatch(consumerTypesProvider, old(consumerTypesProvider.Consumers().View()), ev.runtimeType,
                               consumerProvider, EventStart, Visitor(ev, Env(invoke, token, now)), Halted)
      ensures var run := EventPass(ResolvedPairs(consumerTypesProvider, old(consumerTypesProvider.Consumers().View()),
                                                 ev.runtimeType, consumerProvider), ev, Env(invoke, token, now));
              calls == run.calls
              && (escaped.Some? <==> run.halt.Escaped?) && (escaped.Some? ==> escaped.value == run.halt.exception)
              && queue.errorQueue == old(queue.errorQueue) + Recorded(options, run.failures)
              && failed == old(failed) + |run.failures|
              && processed == old(processed) + (if run.halt.Running? then 1 else 0)
      ensures queue.events == old(queue.events)
    {
      var it := GetConsumerTypes(consumerTypesProvider, ev.runtimeType);
      var halt;
      ghost var failures;
      calls, halt, failures := ProcessTypes(ev, it, consumerTypesProvider, consumerTypesProvider.Consumers().View(),
                                            consumerProvider, invoke, token, now);
      if halt.Running? {
        processed := processed + 1;
      }
      escaped := if halt.Escaped? then Some(halt.exception) else None;
    }

    /**
     * The loops of `ProcessEventAsync` over the enumerator `it`, started for
     * the event's runtime type over the dictionary value `d`: each consumer
     * type's instances in turn, until the loops end or `return`.
     */
    method ProcessTypes(ev: Event, it: Lookup, ghost p: TypesProvider, ghost d: Dictionary, consumerProvider: ConsumerProvider,
                        invoke: Invoker, token: CancellationToken, now: int)
      returns (calls: seq<Call>, halt: Halt, ghost failures: seq<FailedEvent>)
      requires it.Tracks(p, d, ev.runtimeType) && it.Yielded() == [] && it.Repr() !! {this, queue}
      modifies this, queue, it.Repr(), p.Consumers()
      ensures EventPass(ResolvedPairs(p, d, ev.runtimeType, consumerProvider), ev, Env(invoke, token, now))
              == EventRun(calls, failures, halt)
      ensures p.Consumers().Valid()
      ensures p.Consumers().View() == AfterDispatch(p, d, ev.runtimeType, consumerProvider, EventStart, Visitor(ev, Env(invoke, token, now)), Halted)
      ensures queue.errorQueue == old(queue.errorQueue) + Recorded(options, failures) && failed == old(failed) + |failures|
      ensures queue.events == old(queue.events) && processed == old(processed)
    {
      ghost var types := Resolved(p, d, ev.runtimeType);
      ghost var errors0, failed0 := queue.errorQueue, failed;
      calls, failures, halt := [], [], Running;
      while true
        invariant it.Tracks(p, d, ev.runtimeType)
        invariant EventPass(Pairs(it.Yielded(), consumerProvider), ev, Env(invoke, token, now)) == EventRun(calls, failures, Running)
        invariant queue.errorQueue == errors0 + Recorded(options, failures) && failed == failed0 + |failures|
        invariant queue.events == old(queue.events) && processed == old(processed)
        decreases |types| - |it.Yielded()|
      {
        var more;
        more, calls, halt, failures := ProcessType(ev, it, p, d, consumerProvider, invoke, token, now,
                                                   calls, failures, errors0, failed0);
        if !more || !halt.Running? {
          return;
        }
      }
    }

    /**
     * One iteration of the outer loop: the next consumer type from the
     * enumerator (`more` false at its end, where the event is finished) and
     * its instances, after the pairs of the types before it; a halt ends the
     * whole event and abandons the enumerator.
     */
    method ProcessType(ev: Event, it: Lookup, ghost p: TypesProvider, ghost d: Dictionary, consumerProvider: ConsumerProvider,
                       invoke: Invoker, token: CancellationToken, now: int,
                       calls0: seq<Call>, ghost failures0: seq<FailedEvent>, ghost errors0: seq<FailedEvent>, ghost failed0: nat)
      returns (more: bool, calls: seq<Call>, halt: Halt, ghost failures: seq<FailedEvent>)
      requires it.Tracks(p, d, ev.runtimeType) && it.Repr() !! {this, queue}
      requires EventPass(Pairs(it.Yielded(), consumerProvider), ev, Env(invoke, token, now)) == EventRun(calls0, failures0, Running)
      requires queue.errorQueue == errors0 + Recorded(options, failures0) && failed == failed0 + |failures0|
      modifies this, queue, it.Repr(), p.Consumers()
      ensures it.Tracks(p, d, ev.runtimeType)
      ensures queue.errorQueue == errors0 + Recorded(options, failures) && failed == failed0 + |failures|
      ensures queue.events == old(queue.events) && processed == old(processed)
      ensures more ==> old(|it.Yielded()|) < |it.Yielded()| <= |Resolved(p, d, ev.runtimeType)|
      ensures more && halt.Running? ==>
                EventPass(Pairs(it.Yielded(), consumerProvider), ev, Env(invoke, token, now)) == EventRun(calls, failures, Running)
      ensures !more || !halt.Running? ==>
                && EventPass(ResolvedPairs(p, d, ev.runtimeType, consumerProvider), ev, Env(invoke, token, now))
                   == EventRun(calls, failures, halt)
                && p.Consumers().Valid()
                && p.Consumers().View()
                   == AfterDispatch(p, d, ev.runtimeType, consumerProvider, EventStart, Visitor(ev, Env(invoke, token, now)), Halted)
    {
      var h := Env(invoke, token, now);
      ghost var e := ev.runtimeType;
      ghost var before := it.Yielded();
      calls, failures, halt := calls0, failures0, Running;
      more := MoveNext(it, p, d, e);
      if !more {
        Exhausted(it, p, d, e, consumerProvider, EventStart, Visitor(ev, h), Halted);
        return;
      }
      var consumerType := it.Current();
      calls, halt, failures := ProcessConsumers(ev, consumerType, consumerProvider.getConsumers(consumerType),
                                                invoke, token, now, Pairs(before, consumerProvider),
                                                calls, failures, errors0, failed0);
      NextKey(it, p, d, e, before, consumerType, consumerProvider);
      if !halt.Running? {
        Abandoned(it, p, d, e, consumerProvider, EventStart, Visitor(ev, h), Halted, before, consumerType);
      }
    }

    /**
     * `ProcessQueueAsync`: every waiting event, oldest first, until the
     * queue is empty or an exception escapes an event.
     */
    method ProcessQueueAsync(consumerProvider: ConsumerProvider, consumerTypesProvider: TypesProvider,
                             invoke: Invoker, token: CancellationToken, now: int)
      returns (calls: seq<Call>, r: Outcome)
      requires consumerTypesProvider.Consumers().Valid()
      modifies this, queue, consumerTypesProvider.Consumers()
      ensures consumerTypesProvider.Consumers().Valid()
      ensures var pass := Drain(old(queue.events), consumerTypesProvider, old(consumerTypesProvider.Consumers().View()),
                                consumerProvider, Env(invoke, token, now));
              calls == pass.calls && r == pass.outcome
              && pass.read <= |old(queue.events)| && queue.events == old(queue.events)[pass.read..]
              && consumerTypesProvider.Consumers().View() == pass.registry
              && queue.errorQueue == old(queue.errorQueue) + Recorded(options, pass.failures)
              && failed == old(failed) + |pass.failures| && processed == old(processed) + pass.processed
    {
      ghost var h := Env(invoke, token, now);
      ghost var events := queue.events;
      ghost var d0 := consumerTypesProvider.Consumers().View();
      ghost var errors0, failed0, processed0 := queue.errorQueue, failed, processed;
      ghost var state := Pass(d0, [], [], 0, 0, Done);
      calls := [];
      while queue.ReaderCount() > 0
        invariant state.read <= |events| && queue.events == events[state.read..]
        invariant state == Drain(events[..state.read], consumerTypesProvider, d0, consumerProvider, h) && state.outcome == Done
        invariant consumerTypesProvider.Consumers().Valid() && consumerTypesProvider.Consumers().View() == state.registry
        invariant calls == state.calls && queue.errorQueue == errors0 + Recorded(options, state.failures)
        invariant failed == failed0 + |state.failures| && processed == processed0 + state.processed
        decreases |queue.events|
      {
        DrainStep(events, state.read, consumerTypesProvider, d0, consumerProvider, h);
        var evCalls, escaped;
        evCalls, escaped, state := ProcessNextEvent(consumerProvider, consumerTypesProvider, invoke, token, now,
                                                    state, errors0, failed0, processed0);
        calls := calls + evCalls;
        if escaped.Some? {
          return calls, Failed(escaped.value);
        }
      }
      assert events[..state.read] == events;
      r := Done;
    }

    /**
     * One iteration of the read loop of `ProcessQueueAsync`: the oldest
     * waiting event is read and processed, which is one step of the pass
     * from `state`.
     */
    method ProcessNextEvent(consumerProvider: ConsumerProvider, consumerTypesProvider: TypesProvider,
                            invoke: Invoker, token: CancellationToken, now: int,
                            ghost state: Pass, ghost errors0: seq<FailedEvent>, ghost failed0: nat, ghost processed0: nat)
      returns (evCalls: seq<Call>, escaped: Option<Exception>, ghost next: Pass)
      requires queue.events != []
      requires consumerTypesProvider.Consumers().Valid() && consumerTypesProvider.Consumers().View() == state.registry
      requires queue.errorQueue == errors0 + Recorded(options, state.failures)
      requires failed == failed0 + |state.failures| && processed == processed0 + state.processed
      modifies this, queue, consumerTypesProvider.Consumers()
      ensures next == Advance(consumerTypesProvider, consumerProvider, Env(invoke, token, now), state, old(queue.events)[0])
      ensures queue.events == old(queue.events)[1..]
      ensures consumerTypesProvider.Consumers().Valid() && consumerTypesProvider.Consumers().View() == next.registry
      ensures next.calls == state.calls + evCalls && queue.errorQueue == errors0 + Recorded(options, next.failures)
      ensures failed == failed0 + |next.failures| && processed == processed0 + next.processed
      ensures next.read == state.read + 1 && (escaped.Some? <==> next.outcome.Failed?)
      ensures escaped.Some? ==> next.outcome == Failed(escaped.value)
    {
      var item := queue.TryRead();
      var ev := item.value;
      ghost var run := EventPass(ResolvedPairs(consumerTypesProvider, state.registry, ev.runtimeType, consumerProvider),
                                 ev, Env(invoke, token, now));
      evCalls, escaped := ProcessEventAsync(ev, consumerProvider, consumerTypesProvider, invoke, token, now);
      next := Advance(consumerTypesProvider, consumerProvider, Env(invoke, token, now), state, ev);
      RecordedAppend(options, errors0, state.failures, run.failures);
    }

    /**
     * `BackgroundProcessing` for `passes` iterations before cancellation is
     * requested: each pass over the queue, then the success delay after a
     * pass that completes and the error delay after one that throws.
     */
    method BackgroundProcessing(passes: nat, consumerProvider: ConsumerProvider, consumerTypesProvider: TypesProvider,
                                invoke: Invoker, token: CancellationToken, now: int)
      returns (outcomes: seq<Outcome>, delays: seq<nat>, calls: seq<Call>)
      requires consumerTypesProvider.Consumers().Valid()
      modifies this, queue, consumerTypesProvider.Consumers()
      ensures consumerTypesProvider.Consumers().Valid()
      ensures var w := Background(old(queue.events), consumerTypesProvider, old(consumerTypesProvider.Consumers().View()),
                                  consumerProvider, Env(invoke, token, now), passes);
              outcomes == w.outcomes && calls == w.calls
              && queue.events == w.events && consumerTypesProvider.Consumers().View() == w.registry
              && queue.errorQueue == old(queue.errorQueue) + Recorded(options, w.failures)
              && failed == old(failed) + |w.failures| && processed == old(processed) + w.processed
      ensures |delays| == passes && forall k :: 0 <= k < passes ==> delays[k] == TickAfter(options, outcomes[k])
      ensures passes > 0 && outcomes[passes - 1].Done? ==> queue.events == []
    {
      ghost var h := Env(invoke, token, now);
      ghost var events, d := queue.events, consumerTypesProvider.Consumers().View();
      ghost var errors0, failed0, processed0 := queue.errorQueue, failed, processed;
      ghost var w := Worker(events, d, [], [], [], 0);
      outcomes, delays, calls := [], [], [];
      while |outcomes| < passes
        invariant consumerTypesProvider.Consumers().Valid()
        invariant |outcomes| <= passes && |delays| == |outcomes|
        invariant forall k :: 0 <= k < |outcomes| ==> delays[k] == TickAfter(options, outcomes[k])
        invariant w == Background(events, consumerTypesProvider, d, consumerProvider, h, |outcomes|)
        invariant outcomes == w.outcomes && calls == w.calls
        invariant queue.events == w.events && consumerTypesProvider.Consumers().View() == w.registry
        invariant queue.errorQueue == errors0 + Recorded(options, w.failures)
        invariant failed == failed0 + |w.failures| && processed == processed0 + w.processed
      {
        var passCalls, r;
        passCalls, r, w := RunPass(consumerProvider, consumerTypesProvider, invoke, token, now, w, errors0, failed0, processed0);
        outcomes, calls := outcomes + [r], calls + passCalls;
        delays := delays + [TickAfter(options, r)];
      }
      if passes > 0 {
        BackgroundDone(events, consumerTypesProvider, d, consumerProvider, h, passes);
      }
    }

    /** One iteration of the background loop: a pass over the queue, as the next pass after `w`. */
    method RunPass(consumerProvider: ConsumerProvider, consumerTypesProvider: TypesProvider,
                   invoke: Invoker, token: CancellationToken, now: int,
                   ghost w: Worker, ghost errors0: seq<FailedEvent>, ghost failed0: nat, ghost processed0: nat)
      returns (passCalls: seq<Call>, r: Outcome, ghost next: Worker)
      requires consumerTypesProvider.Consumers().Valid()
      requires queue.events == w.events && consumerTypesProvider.Consumers().View() == w.registry
      requires queue.errorQueue == errors0 + Recorded(options, w.failures)
      requires failed == failed0 + |w.failures| && processed == processed0 + w.processed
      modifies this, queue, consumerTypesProvider.Consumers()
      ensures next == NextPass(w, consumerTypesProvider, consumerProvider, Env(invoke, token, now))
      ensures consumerTypesProvider.Consumers().Valid()
      ensures next.outcomes == w.outcomes + [r] && next.calls == w.calls + passCalls
      ensures queue.events == next.events && consumerTypesProvider.Consumers().View() == next.registry
      ensures queue.errorQueue == errors0 + Recorded(options, next.failures)
      ensures failed == failed0 + |next.failures| && processed == processed0 + next.processed
    {
      ghost var h := Env(invoke, token, now);
      next := NextPass(w, consumerTypesProvider, consumerProvider, h);
      ghost var pass := Drain(w.events, consumerTypesProvider, w.registry, consumerProvider, h);
      passCalls, r := ProcessQueueAsync(consumerProvider, consumerTypesProvider, invoke, token, now);
      RecordedAppend(options, errors0, w.failures, pass.failures);
    }
  }

  /**
   * Reading the `k`-th event: the pass takes one more step, and if that step
   * throws, the pass ends there.
   */
  lemma DrainStep(events: seq<Event>, k: nat, p: TypesProvider, d: Dictionary, provider: ConsumerProvider, h: Handling)
    requires k < |events| && !PassFailed(Drain(events[..k], p, d, provider, h))
    ensures Drain(events[..k + 1], p, d, provider, h) == Advance(p, provider, h, Drain(events[..k], p, d, provider, h), events[k])
    ensures PassFailed(Drain(events[..k + 1], p, d, provider, h)) ==>
              Drain(events, p, d, provider, h) == Drain(events[..k + 1], p, d, provider, h)
  {
    assert events[..k + 1] == events[..k] + [events[k]];
    assert events == events[..k] + [events[k]] + events[k + 1..];
    StepOrStop(Pass(d, [], [], 0, 0, Done), events[..k], events[k], events[k + 1..], EventStep(p, provider, h), PassFailed);
  }

  /** A pass that completes has read every event it started with; one that fails has read at least one. */
  lemma {:induction false} DrainDoneReadsAll(events: seq<Event>, p: TypesProvider, d: Dictionary,
                                             provider: ConsumerProvider, h: Handling)
    ensures var pass := Drain(events, p, d, provider, h);
            (pass.outcome.Done? ==> pass.read == |events|) && (pass.outcome.Failed? ==> 0 < pass.read <= |events|)
  {
    if events != [] {
      DrainDoneReadsAll(DropLast(events), p, d, provider, h);
    }
  }

  /** A pass that completes leaves the queue empty. */
  lemma BackgroundDone(events: seq<Event>, p: TypesProvider, d: Dictionary, provider: ConsumerProvider, h: Handling, n: nat)
    requires n > 0
    ensures var w := Background(events, p, d, provider, h, n);
            w.outcomes[n - 1].Done? ==> w.events == []
  {
    var w := Background(events, p, d, provider, h, n - 1);
    DrainDoneReadsAll(w.events, p, w.registry, provider, h);
    assert Background(events, p, d, provider, h, n) == NextPass(w, p, provider, h);
  }

  /** One pass reads from the front of the queue, and reads at least one event when it throws. */
  lemma NextPassProgress(w: Worker, p: TypesProvider, provider: ConsumerProvider, h: Handling)
    ensures var w' := NextPass(w, p, provider, h);
            |w'.events| <= |w.events| && w'.events == w.events[|w.events| - |w'.events|..]
            && DropLast(w'.outcomes) == w.outcomes
            && (Last(w'.outcomes).Failed? ==> |w'.events| < |w.events|)
  {
    var pass := Drain(w.events, p, w.registry, provider, h);
    DrainDoneReadsAll(w.events, p, w.registry, provider, h);
    var w' := NextPass(w, p, provider, h);
    assert w'.outcomes == w.outcomes + [pass.outcome];
  }

  /**
   * The background loop only ever reads from the front of the queue, and
   * each pass that throws has read at least the event that threw; so a
   * queue of `m` events survives at most `m` failing passes.
   */
  lemma {:induction false} BackgroundProgress(events: seq<Event>, p: TypesProvider, d: Dictionary,
                                              provider: ConsumerProvider, h: Handling, n: nat)
    ensures var w := Background(events, p, d, provider, h, n);
            |w.events| + FailedPasses(w.outcomes) <= |events| && w.events == events[|events| - |w.events|..]
  {
    if n > 0 {
      BackgroundProgress(events, p, d, provider, h, n - 1);
      var w := Background(events, p, d, provider, h, n - 1);
      var w' := NextPass(w, p, provider, h);
      NextPassProgress(w, p, provider, h);
      SuffixOfSuffix(events, w.events, w'.events);
      assert FailedPasses(w'.outcomes) == FailedPasses(w.outcomes) + (if Last(w'.outcomes).Failed? then 1 else 0);
    }
  }

  /** Every instance of the pairs is non-null. */
  ghost predicate NoNullConsumer(pairs: seq<Target>)
  {
    forall k :: 0 <= k < |pairs| ==> pairs[k].instance.Some?
  }

  /** Whether the lookup of the pair's `ConsumeAsync` throws `AmbiguousMatchException`. */
  ghost predicate AmbiguousAt(t: Target, ev: Event, h: Handling)
  {
    h.consumeMethod(t.consumerType, ev.runtimeType).Ambiguous?
  }

  /** No pair's lookup is ambiguous. */
  ghost predicate NoAmbiguous(pairs: seq<Target>, ev: Event, h: Handling)
  {
    forall k :: 0 <= k < |pairs| ==> !AmbiguousAt(pairs[k], ev, h)
  }

  /**
   * How the consumer loops of an event end: they run to the end exactly when
   * no instance is null, the mode is defined (or there is nobody to call),
   * and in sequential mode no lookup is ambiguous; under an undefined mode
   * they throw exactly when the first instance is non-null.
   */
  lemma {:induction false} EventPassHalt(pairs: seq<Target>, ev: Event, h: Handling)
    ensures EventPass(pairs, ev, h).halt.Running? <==>
            NoNullConsumer(pairs) && (pairs == [] || !h.options.queueMode.Undefined?)
            && (h.options.queueMode.Sequential? ==> NoAmbiguous(pairs, ev, h))
    ensures h.options.queueMode.Undefined? ==>
              (EventPass(pairs, ev, h).halt.Escaped? <==> pairs != [] && pairs[0].instance.Some?)
    ensures h.options.queueMode.Undefined? && EventPass(pairs, ev, h).halt.Escaped? ==>
              EventPass(pairs, ev, h).halt.exception == InvalidOperationException(InvalidModeMessage)
  {
    if pairs != [] {
      var init, t := DropLast(pairs), Last(pairs);
      var prev := EventPass(init, ev, h);
      EventPassHalt(init, ev, h);
      assert (NoNullConsumer(pairs) <==> NoNullConsumer(init) && t.instance.Some?)
             && (NoAmbiguous(pairs, ev, h) <==> NoAmbiguous(init, ev, h) && !AmbiguousAt(t, ev, h)) by {
        LastSplit(pairs);
        assert forall k :: 0 <= k < |init| ==> pairs[k] == init[k];
      }
      if init != [] {
        assert pairs[0] == init[0];
      }
      if prev.halt.Running? {
        assert EventPass(pairs, ev, h) == Visit(prev, t, ev, h);
      } else {
        assert EventPass(pairs, ev, h) == prev;
      }
    }
  }

  /** The loops reach the pair at `k`, with every instance up to it non-null, and its lookup is ambiguous. */
  ghost predicate EscapesAt(pairs: seq<Target>, k: nat, ev: Event, h: Handling)
    requires k < |pairs|
  {
    AmbiguousAt(pairs[k], ev, h) && NoNullConsumer(pairs[..k + 1])
  }

  ghost predicate ReachesAmbiguous(pairs: seq<Target>, ev: Event, h: Handling)
  {
    exists k :: 0 <= k < |pairs| && EscapesAt(pairs, k, ev, h)
  }

  /** With one more pair, an ambiguous lookup is reached earlier or at the new pair. */
  lemma ReachesAmbiguousSplit(pairs: seq<Target>, ev: Event, h: Handling)
    requires pairs != []
    ensures ReachesAmbiguous(pairs, ev, h) <==>
            ReachesAmbiguous(DropLast(pairs), ev, h) || (AmbiguousAt(Last(pairs), ev, h) && NoNullConsumer(pairs))
  {
    var init := DropLast(pairs);
    LastSplit(pairs);
    assert pairs[..|init| + 1] == pairs;
    forall k | 0 <= k < |init|
      ensures EscapesAt(pairs, k, ev, h) <==> EscapesAt(init, k, ev, h)
    {
      assert pairs[k] == init[k] && pairs[..k + 1] == init[..k + 1];
    }
    if ReachesAmbiguous(pairs, ev, h) {
      var k :| 0 <= k < |pairs| && EscapesAt(pairs, k, ev, h);
      if k < |init| {
        assert EscapesAt(init, k, ev, h);
      }
    }
    if ReachesAmbiguous(init, ev, h) {
      var k :| 0 <= k < |init| && EscapesAt(init, k, ev, h);
      assert EscapesAt(pairs, k, ev, h);
    }
    if AmbiguousAt(Last(pairs), ev, h) && NoNullConsumer(pairs) {
      assert EscapesAt(pairs, |init|, ev, h);
    }
  }

  /** When no instance is null, an ambiguous lookup is reached exactly when there is one. */
  lemma AmbiguousReached(pairs: seq<Target>, ev: Event, h: Handling)
    requires NoNullConsumer(pairs)
    ensures ReachesAmbiguous(pairs, ev, h) <==> !NoAmbiguous(pairs, ev, h)
  {
    if !NoAmbiguous(pairs, ev, h) {
      var k :| 0 <= k < |pairs| && AmbiguousAt(pairs[k], ev, h);
      assert NoNullConsumer(pairs[..k + 1]) by {
        assert forall j :: 0 <= j < k + 1 ==> pairs[..k + 1][j] == pairs[j];
      }
      assert EscapesAt(pairs, k, ev, h);
    }
  }

  /**
   * Under a defined mode the loops throw exactly when the mode is sequential
   * and they reach a pair whose lookup is ambiguous, every instance up to it
   * being non-null; what escapes is the `AmbiguousMatchException`.
   */
  lemma {:induction false} EventPassEscapes(pairs: seq<Target>, ev: Event, h: Handling)
    requires !h.options.queueMode.Undefined?
    ensures EventPass(pairs, ev, h).halt.Escaped? <==> h.options.queueMode.Sequential? && ReachesAmbiguous(pairs, ev, h)
    ensures EventPass(pairs, ev, h).halt.Escaped? ==>
              EventPass(pairs, ev, h).halt.exception == AmbiguousMatchException
  {
    if pairs != [] {
      var init, t := DropLast(pairs), Last(pairs);
      var prev := EventPass(init, ev, h);
      EventPassEscapes(init, ev, h);
      EventPassHalt(init, ev, h);
      ReachesAmbiguousSplit(pairs, ev, h);
      assert NoNullConsumer(pairs) ==> NoNullConsumer(init) && t.instance.Some? by {
        LastSplit(pairs);
        assert forall k :: 0 <= k < |init| ==> pairs[k] == init[k];
      }
      if prev.halt.Running? {
        assert EventPass(pairs, ev, h) == Visit(prev, t, ev, h);
        AmbiguousReached(init, ev, h);
        assert t.instance.Some? ==> NoNullConsumer(pairs) by {
          LastSplit(pairs);
          assert forall k :: 0 <= k < |init| ==> pairs[k] == init[k];
        }
      } else {
        assert EventPass(pairs, ev, h) == prev;
        if NoNullConsumer(pairs) {
          AmbiguousReached(init, ev, h);
        }
      }
    }
  }

  /** The calls a run to the end makes: one per pair whose consumer type has a `ConsumeAsync`, in pair order. */
  function Handled(pairs: seq<Target>, ev: Event, h: Handling): seq<Call>
  {
    if pairs == [] then []
    else
      var t := Last(pairs);
      Handled(DropLast(pairs), ev, h)
      + (if t.instance.Some? && h.consumeMethod(t.consumerType, ev.runtimeType).Found?
         then [Call(t.consumerType, t.instance.value, ev.runtimeType, ev, h.token)] else [])
  }

  /** The number of pairs whose consumer is called and does not complete. */
  function Failing(pairs: seq<Target>, ev: Event, h: Handling): nat
  {
    if pairs == [] then 0
    else
      var t := Last(pairs);
      Failing(DropLast(pairs), ev, h)
      + (if t.instance.Some? && h.consumeMethod(t.consumerType, ev.runtimeType).Found?
            && !h.invoke(t.instance.value, ev.runtimeType, ev).Completed? then 1 else 0)
  }

  /**
   * Failures are isolated: when the loops run to the end, every consumer
   * with a `ConsumeAsync` is called, whatever the earlier ones did, and each
   * one that does not complete leaves exactly one record of this event,
   * naming its consumer type and stamped with the time.
   */
  lemma {:induction false} EventPassIsolates(pairs: seq<Target>, ev: Event, h: Handling)
    requires EventPass(pairs, ev, h).halt.Running?
    ensures EventPass(pairs, ev, h).calls == Handled(pairs, ev, h)
    ensures |EventPass(pairs, ev, h).failures| == Failing(pairs, ev, h)
  {
    if pairs != [] {
      var init := DropLast(pairs);
      EventPassIsolates(init, ev, h);
    }
  }

  /** Every failure record names the event, the failed consumer type and the time. */
  lemma {:induction false} EventPassRecords(pairs: seq<Target>, ev: Event, h: Handling)
    ensures var run := EventPass(pairs, ev, h);
            |run.failures| <= |run.calls|
            && forall k :: 0 <= k < |run.failures| ==>
                 run.failures[k].data == ev && run.failures[k].failedConsumer.Some?
                 && run.failures[k].timestamp == Some(h.now)
  {
    if pairs != [] {
      EventPassRecords(DropLast(pairs), ev, h);
    }
  }
}
