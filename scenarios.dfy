/**
 * Concrete configurations from the repository's unit tests, worked through
 * the model: the sample consumer of `ITestEvent` and `IBaseEvent` under both
 * resolvers, two consumers of one event, a single delivery through the bus,
 * and, under each queue processor, one failing consumer followed by a
 * healthy one and the sample consumer's ambiguous `ConsumeAsync` lookup.
 */
module Scenarios {
  import opened Types
  import opened Seqs
  import opened Registry
  import opened ExactProvider
  import opened PolymorphicProvider
  import opened Builder
  import opened ConsumerProviders
  import opened Bus
  import opened Loops
  import QueueProcessor
  import LegacyQueueProcessor

  const IBaseEvent: TypeId := TypeId(1)
  const ITestEvent: TypeId := TypeId(2)
  /** `record TestEvent : ITestEvent, IBaseEvent`. */
  const TestEvent: TypeId := TypeId(3)
  /** `MySampleConsumer : IConsumer<ITestEvent>, IConsumer<IBaseEvent>`. */
  const SampleConsumer: TypeId := TypeId(10)
  /** `MySecondarySampleConsumer : IConsumer<IBaseEvent>`. */
  const SecondaryConsumer: TypeId := TypeId(11)

  function Describe(t: TypeId): TypeDesc
  {
    if t == SampleConsumer then
      TypeDesc(true, false, [Generic(IConsumerDefinition, ITestEvent), Generic(IConsumerDefinition, IBaseEvent)])
    else if t == SecondaryConsumer then
      TypeDesc(true, false, [Generic(IConsumerDefinition, IBaseEvent)])
    else TypeDesc(true, false, [])
  }

  /** Assignability among the sample types: each type to itself, and `TestEvent` to both of its interfaces. */
  predicate Assignable(a: TypeId, b: TypeId)
  {
    a == b || (b == TestEvent && (a == ITestEvent || a == IBaseEvent))
  }

  /** The two unfoldings of a two-element sequence. */
  lemma Unfold<T>(a: T, b: T)
    ensures Last([a, b]) == b && DropLast([a, b]) == [a]
    ensures Last([a]) == a && DropLast([a]) == []
  {
  }

  /** `MySampleConsumer` declares `ITestEvent`, then `IBaseEvent`. */
  lemma SampleConsumes()
    ensures ConsumedEvents(Describe(SampleConsumer).interfaces) == [ITestEvent, IBaseEvent]
  {
    var g1, g2 := Generic(IConsumerDefinition, ITestEvent), Generic(IConsumerDefinition, IBaseEvent);
    Unfold(g1, g2);
    assert ConsumedEvents([g1]) == [ITestEvent];
  }

  /** `MySecondarySampleConsumer` declares `IBaseEvent` only. */
  lemma SecondaryConsumes()
    ensures ConsumedEvents(Describe(SecondaryConsumer).interfaces) == [IBaseEvent]
  {
    var g := Generic(IConsumerDefinition, IBaseEvent);
    Unfold(g, g);
  }

  /** The dictionary after `AddConsumer(typeof(MySampleConsumer))` on a new builder. */
  lemma SampleRegistration()
    ensures AfterAdd(Describe, Empty, SampleConsumer)
            == Dictionary(map[SampleConsumer := {ITestEvent, IBaseEvent}], [SampleConsumer])
  {
    SampleConsumes();
    Unfold(ITestEvent, IBaseEvent);
    assert Registered(Empty, SampleConsumer, []) == Empty;
    var d1 := AddEvent(Empty, SampleConsumer, ITestEvent);
    assert Registered(Empty, SampleConsumer, [ITestEvent]) == d1;
    assert Declared(Empty.entries, SampleConsumer) == {};
    assert {} + {ITestEvent} == {ITestEvent};
    assert d1 == Dictionary(map[SampleConsumer := {ITestEvent}], [SampleConsumer]);
    assert {ITestEvent} + {IBaseEvent} == {ITestEvent, IBaseEvent};
    assert Registered(Empty, SampleConsumer, [ITestEvent, IBaseEvent]) == AddEvent(d1, SampleConsumer, IBaseEvent);
    assert AddEvent(d1, SampleConsumer, IBaseEvent).entries == map[SampleConsumer := {ITestEvent, IBaseEvent}];
  }

  /** The dictionary after `AddConsumer(typeof(MySecondarySampleConsumer))` follows. */
  lemma SecondaryRegistration()
    ensures AfterAdd(Describe, AfterAdd(Describe, Empty, SampleConsumer), SecondaryConsumer)
            == Dictionary(map[SampleConsumer := {ITestEvent, IBaseEvent}, SecondaryConsumer := {IBaseEvent}],
                          [SampleConsumer, SecondaryConsumer])
  {
    SampleRegistration();
    SecondaryConsumes();
    var d1 := Dictionary(map[SampleConsumer := {ITestEvent, IBaseEvent}], [SampleConsumer]);
    Unfold(IBaseEvent, IBaseEvent);
    assert Registered(d1, SecondaryConsumer, []) == d1;
    assert Declared(d1.entries, SecondaryConsumer) == {};
    assert {} + {IBaseEvent} == {IBaseEvent};
    assert Registered(d1, SecondaryConsumer, [IBaseEvent]) == AddEvent(d1, SecondaryConsumer, IBaseEvent);
    assert AddEvent(d1, SecondaryConsumer, IBaseEvent).entries
           == map[SampleConsumer := {ITestEvent, IBaseEvent}, SecondaryConsumer := {IBaseEvent}];
  }

  /**
   * The exact resolver finds the sample consumer for each interface it
   * declares, and nothing for the concrete `TestEvent`.
   */
  lemma ExactSampleScenario()
    ensures var d := AfterAdd(Describe, Empty, SampleConsumer);
            ExactMatches(d.entries, d.order, ITestEvent) == [SampleConsumer]
            && ExactMatches(d.entries, d.order, IBaseEvent) == [SampleConsumer]
            && ExactMatches(d.entries, d.order, TestEvent) == []
  {
    SampleRegistration();
    Unfold(SampleConsumer, SampleConsumer);
  }

  /**
   * The polymorphic resolver finds the sample consumer for `TestEvent` once,
   * and memoises `TestEvent` into its set; the next lookup then yields it twice.
   */
  lemma PolymorphicSampleScenario()
    ensures var d := AfterAdd(Describe, Empty, SampleConsumer);
            PolyMatches(d.entries, d.order, TestEvent, Assignable) == [SampleConsumer]
            && Memoised(d.entries, TestEvent, Assignable) == map[SampleConsumer := {ITestEvent, IBaseEvent, TestEvent}]
            && PolyMatches(Memoised(d.entries, TestEvent, Assignable), d.order, TestEvent, Assignable)
               == [SampleConsumer, SampleConsumer]
  {
    SampleRegistration();
    Unfold(SampleConsumer, SampleConsumer);
    var m := map[SampleConsumer := {ITestEvent, IBaseEvent}];
    var s := {ITestEvent, IBaseEvent};
    assert ITestEvent in s && ITestEvent != TestEvent && AreTypesRelated(ITestEvent, TestEvent, Assignable);
    assert HasRelatedOther(s, TestEvent, Assignable);
    assert Yields(s, SampleConsumer, TestEvent, Assignable) == [SampleConsumer];
    var m1 := Memoised(m, TestEvent, Assignable);
    assert m1.Keys == {SampleConsumer} && m1[SampleConsumer] == s + {TestEvent};
    assert s + {TestEvent} == {ITestEvent, IBaseEvent, TestEvent};
    assert m1 == map[SampleConsumer := {ITestEvent, IBaseEvent, TestEvent}];
    assert ITestEvent in s + {TestEvent};
    assert HasRelatedOther(s + {TestEvent}, TestEvent, Assignable);
    assert Yields(s + {TestEvent}, SampleConsumer, TestEvent, Assignable) == [SampleConsumer, SampleConsumer];
  }

  /**
   * A lookup abandoned early writes back only what it reached. Over a
   * consumer of `TestEvent` itself, then the secondary consumer of
   * `IBaseEvent`, the lookup of `TestEvent` yields each key once. Loops that
   * stop within the first key's instances abandon it after one yield, with
   * nothing written, so the next lookup yields the same two keys; a complete
   * lookup has written `TestEvent` into the second set, and the next lookup
   * then yields that key twice.
   */
  lemma AbandonedLookupScenario()
    ensures var m := map[SampleConsumer := {TestEvent}, SecondaryConsumer := {IBaseEvent}];
            var keys := [SampleConsumer, SecondaryConsumer];
            && PolyMatches(m, keys, TestEvent, Assignable) == keys
            && Suspended(m, keys, TestEvent, Assignable, 1) == m
            && PolyMatches(Suspended(m, keys, TestEvent, Assignable, |keys|), keys, TestEvent, Assignable)
               == [SampleConsumer, SecondaryConsumer, SecondaryConsumer]
  {
    var m := map[SampleConsumer := {TestEvent}, SecondaryConsumer := {IBaseEvent}];
    var keys := [SampleConsumer, SecondaryConsumer];
    Unfold(SampleConsumer, SecondaryConsumer);
    assert !HasRelatedOther({TestEvent}, TestEvent, Assignable);
    assert IBaseEvent in {IBaseEvent} && AreTypesRelated(IBaseEvent, TestEvent, Assignable);
    assert Yields(m[SampleConsumer], SampleConsumer, TestEvent, Assignable) == [SampleConsumer];
    assert Yields(m[SecondaryConsumer], SecondaryConsumer, TestEvent, Assignable) == [SecondaryConsumer];
    assert Declared(m, SampleConsumer) == {TestEvent} && Declared(m, SecondaryConsumer) == {IBaseEvent};
    assert PolyMatches(m, [SampleConsumer], TestEvent, Assignable) == [SampleConsumer];
    assert Suspended(m, [SampleConsumer], TestEvent, Assignable, 1) == MemoisedOn(m, [SampleConsumer], TestEvent, Assignable);
    assert MemoisedOn(m, [SampleConsumer], TestEvent, Assignable) == m;
    SuspendedAll(m, keys, TestEvent, Assignable, |keys|);
    MemoisedOnAll(m, keys, TestEvent, Assignable);
    var w := Memoised(m, TestEvent, Assignable);
    assert HasRelatedOther(m[SecondaryConsumer], TestEvent, Assignable);
    assert w.Keys == {SampleConsumer, SecondaryConsumer};
    assert {IBaseEvent} + {TestEvent} == {IBaseEvent, TestEvent};
    assert w[SampleConsumer] == {TestEvent} && w[SecondaryConsumer] == {IBaseEvent, TestEvent};
    assert IBaseEvent in {IBaseEvent, TestEvent};
    assert Yields(w[SecondaryConsumer], SecondaryConsumer, TestEvent, Assignable) == [SecondaryConsumer, SecondaryConsumer];
    assert Declared(w, SampleConsumer) == {TestEvent} && Declared(w, SecondaryConsumer) == {IBaseEvent, TestEvent};
    assert PolyMatches(w, [SampleConsumer], TestEvent, Assignable) == [SampleConsumer];
  }

  /** Neither sample set holds a type related to `IBaseEvent` other than itself, so each yields its key once. */
  lemma BaseYields()
    ensures Yields({ITestEvent, IBaseEvent}, SampleConsumer, IBaseEvent, Assignable) == [SampleConsumer]
    ensures Yields({IBaseEvent}, SecondaryConsumer, IBaseEvent, Assignable) == [SecondaryConsumer]
  {
    assert !AreTypesRelated(ITestEvent, IBaseEvent, Assignable);
    assert !HasRelatedOther({ITestEvent, IBaseEvent}, IBaseEvent, Assignable);
    assert !HasRelatedOther({IBaseEvent}, IBaseEvent, Assignable);
  }

  /** The polymorphic lookup of `IBaseEvent` over the two-consumer dictionary. */
  lemma BaseMatches()
    ensures PolyMatches(map[SampleConsumer := {ITestEvent, IBaseEvent}, SecondaryConsumer := {IBaseEvent}],
                        [SampleConsumer, SecondaryConsumer], IBaseEvent, Assignable)
            == [SampleConsumer, SecondaryConsumer]
  {
    var m := map[SampleConsumer := {ITestEvent, IBaseEvent}, SecondaryConsumer := {IBaseEvent}];
    BaseYields();
    Unfold(SampleConsumer, SecondaryConsumer);
    assert Declared(m, SampleConsumer) == {ITestEvent, IBaseEvent};
    assert Declared(m, SecondaryConsumer) == {IBaseEvent};
    assert PolyMatches(m, [SampleConsumer], IBaseEvent, Assignable) == [SampleConsumer];
  }

  /** Two consumers of `IBaseEvent` are both returned by the polymorphic resolver, in registration order. */
  lemma TwoBaseConsumersScenario()
    ensures var d := AfterAdd(Describe, AfterAdd(Describe, Empty, SampleConsumer), SecondaryConsumer);
            PolyMatches(d.entries, d.order, IBaseEvent, Assignable) == [SampleConsumer, SecondaryConsumer]
  {
    SecondaryRegistration();
    BaseMatches();
  }

  /** Two consumers that both declare the event are both returned by the exact resolver. */
  lemma TwoExactConsumersScenario()
    ensures ExactMatches(map[SampleConsumer := {TestEvent}, SecondaryConsumer := {TestEvent}],
                         [SampleConsumer, SecondaryConsumer], TestEvent)
            == [SampleConsumer, SecondaryConsumer]
  {
    var m := map[SampleConsumer := {TestEvent}, SecondaryConsumer := {TestEvent}];
    Unfold(SampleConsumer, SecondaryConsumer);
    assert ExactMatches(m, [SampleConsumer], TestEvent) == [SampleConsumer];
  }

  /** A registered consumer with one instance receives the published event exactly once, and the publication completes. */
  lemma SingleDeliveryScenario(ev: Event, token: CancellationToken)
    ensures var provider := ConsumerProvider(_ => [Some(Instance(1))]);
            var pub := Publication(TestEvent, ev, token, (_, _, _) => Completed);
            var d := FanOut(Pairs([SampleConsumer], provider), pub);
            d.calls == [Call(SampleConsumer, Instance(1), TestEvent, ev, token)] && Settle(d) == Done
  {
    var provider := ConsumerProvider(_ => [Some(Instance(1))]);
    var pub := Publication(TestEvent, ev, token, (_, _, _) => Completed);
    var t := Target(SampleConsumer, Some(Instance(1)));
    Unfold(SampleConsumer, SampleConsumer);
    assert Targets(SampleConsumer, [Some(Instance(1))]) == [t];
    assert Pairs([SampleConsumer], provider) == [t];
    var d := Dispatch([Call(SampleConsumer, Instance(1), TestEvent, ev, token)], [Completed], None);
    assert Step(NotStarted, t, pub) == d;
    assert Run(NotStarted, [t], Stepper(pub), Aborted) == Stepper(pub)(NotStarted, t);
    assert FanOut([t], pub) == d;
    assert FirstFault(d.started) == None;
  }

  /** The first consumer throws synchronously; the second completes. */
  function Throwing(e: Exception): Invoker
  {
    (i: Instance, _, _) => if i == Instance(1) then Threw(e) else Completed
  }

  const FailingThenHealthy: seq<Target> :=
    [Target(SampleConsumer, Some(Instance(1))), Target(SecondaryConsumer, Some(Instance(2)))]

  /**
   * Under the newer processor the failing consumer is isolated: both
   * consumers are called, and one record names the failing consumer.
   */
  lemma IsolatedFailureScenario(e: Exception, token: CancellationToken, now: int)
    ensures var ev := Event(7, TestEvent);
            var h := QueueProcessor.Handling(QueueProcessor.ProcessorOptions(Sequential, true, 1, 2),
                                             (_, _) => Found, Throwing(e), token, now);
            var r := QueueProcessor.EventPass(FailingThenHealthy, ev, h);
            r.halt == QueueProcessor.Running
            && r.calls == [Call(SampleConsumer, Instance(1), TestEvent, ev, token),
                           Call(SecondaryConsumer, Instance(2), TestEvent, ev, token)]
            && r.failures == [FailedEvent(ev, TargetInvocationException(e), Some(SampleConsumer), Some(now))]
  {
    var ev := Event(7, TestEvent);
    var h := QueueProcessor.Handling(QueueProcessor.ProcessorOptions(Sequential, true, 1, 2),
                                     (_, _) => Found, Throwing(e), token, now);
    var t0, t1 := FailingThenHealthy[0], FailingThenHealthy[1];
    var call0 := Call(SampleConsumer, Instance(1), TestEvent, ev, token);
    var call1 := Call(SecondaryConsumer, Instance(2), TestEvent, ev, token);
    var fail := FailedEvent(ev, TargetInvocationException(e), Some(SampleConsumer), Some(now));
    var step := QueueProcessor.Visitor(ev, h);
    StepOrStop(QueueProcessor.EventStart, [], t0, [], step, QueueProcessor.Halted);
    assert [] + [t0] == [t0];
    var r0 := QueueProcessor.EventRun([call0], [fail], QueueProcessor.Running);
    assert QueueProcessor.Execute(ev, SampleConsumer, Instance(1), h) == QueueProcessor.Execution(Some(call0), Some(fail), None);
    assert QueueProcessor.EventPass([t0], ev, h) == r0;
    StepOrStop(QueueProcessor.EventStart, [t0], t1, [], step, QueueProcessor.Halted);
    assert [t0] + [t1] == FailingThenHealthy;
    assert QueueProcessor.Execute(ev, SecondaryConsumer, Instance(2), h) == QueueProcessor.Execution(Some(call1), None, None);
  }

  /**
   * Under the earlier processor the same throw leaves the batch loops: the
   * healthy consumer is never called and the event leaves one record.
   */
  lemma BatchedFailureScenario(e: Exception, token: CancellationToken)
    ensures var ev := Event(7, TestEvent);
            var h := LegacyQueueProcessor.Handling((_, _) => Found, Throwing(e), token);
            var b := LegacyQueueProcessor.BatchOf(FailingThenHealthy, ev, h);
            b.calls == [Call(SampleConsumer, Instance(1), TestEvent, ev, token)]
            && LegacyQueueProcessor.Record(ev, LegacyQueueProcessor.Caught(b))
               == [FailedEvent(ev, TargetInvocationException(e), None, None)]
  {
    var ev := Event(7, TestEvent);
    var h := LegacyQueueProcessor.Handling((_, _) => Found, Throwing(e), token);
    var t0, t1 := FailingThenHealthy[0], FailingThenHealthy[1];
    assert [] + [t0] + [t1] == FailingThenHealthy;
    assert h.invoke(Instance(1), TestEvent, ev) == Threw(e);
    LegacyQueueProcessor.ThrowEndsBatch([], t0, [t1], ev, h);
  }

  /**
   * `MySampleConsumer` declares a `ConsumeAsync` for `ITestEvent` and one for
   * `IBaseEvent`; both apply to a `TestEvent`, so looking its method up for
   * `TestEvent` is ambiguous. Every other lookup of the samples finds one.
   */
  function SampleLookup(consumerType: TypeId, eventType: TypeId): MethodLookup
  {
    if consumerType == SampleConsumer && eventType == TestEvent then Ambiguous else Found
  }

  /** Every consumer completes. */
  function Healthy(): Invoker
  {
    (_, _, _) => Completed
  }

  /**
   * Under the newer processor the ambiguous lookup escapes the event before
   * any consumer is called: the healthy consumer after it is never called
   * and no record is made.
   */
  lemma AmbiguousEscapesScenario(token: CancellationToken, now: int)
    ensures var ev := Event(7, TestEvent);
            var h := QueueProcessor.Handling(QueueProcessor.ProcessorOptions(Sequential, true, 1, 2),
                                             SampleLookup, Healthy(), token, now);
            QueueProcessor.EventPass(FailingThenHealthy, ev, h)
            == QueueProcessor.EventRun([], [], QueueProcessor.Escaped(AmbiguousMatchException))
  {
    var ev := Event(7, TestEvent);
    var h := QueueProcessor.Handling(QueueProcessor.ProcessorOptions(Sequential, true, 1, 2),
                                     SampleLookup, Healthy(), token, now);
    var t0, t1 := FailingThenHealthy[0], FailingThenHealthy[1];
    var step := QueueProcessor.Visitor(ev, h);
    assert [] + [t0] + [t1] == FailingThenHealthy;
    assert QueueProcessor.Execute(ev, SampleConsumer, Instance(1), h)
           == QueueProcessor.Execution(None, None, Some(AmbiguousMatchException));
    StepOrStop(QueueProcessor.EventStart, [], t0, [t1], step, QueueProcessor.Halted);
  }

  /**
   * Under the earlier processor the same lookup throws inside the event's
   * try: no consumer is called and the event leaves one record of the
   * `AmbiguousMatchException`.
   */
  lemma AmbiguousRecordedScenario(token: CancellationToken)
    ensures var ev := Event(7, TestEvent);
            var h := LegacyQueueProcessor.Handling(SampleLookup, Healthy(), token);
            var b := LegacyQueueProcessor.BatchOf(FailingThenHealthy, ev, h);
            b.calls == []
            && LegacyQueueProcessor.Record(ev, LegacyQueueProcessor.Caught(b))
               == [FailedEvent(ev, AmbiguousMatchException, None, None)]
  {
    var ev := Event(7, TestEvent);
    var h := LegacyQueueProcessor.Handling(SampleLookup, Healthy(), token);
    var t0, t1 := FailingThenHealthy[0], FailingThenHealthy[1];
    assert [] + [t0] + [t1] == FailingThenHealthy;
    LegacyQueueProcessor.AmbiguousEndsBatch([], t0, [t1], ev, h);
  }

  /**
   * In parallel mode the same exception is caught by the consumer's task and
   * logged: the loops go on, the healthy consumer is called and the event
   * counts as processed.
   */
  lemma AmbiguousParallelScenario(token: CancellationToken, now: int)
    ensures var ev := Event(7, TestEvent);
            var h := QueueProcessor.Handling(QueueProcessor.ProcessorOptions(Parallel, true, 1, 2),
                                             SampleLookup, Healthy(), token, now);
            QueueProcessor.EventPass(FailingThenHealthy, ev, h)
            == QueueProcessor.EventRun([Call(SecondaryConsumer, Instance(2), TestEvent, ev, token)], [], QueueProcessor.Running)
  {
    var ev := Event(7, TestEvent);
    var h := QueueProcessor.Handling(QueueProcessor.ProcessorOptions(Parallel, true, 1, 2),
                                     SampleLookup, Healthy(), token, now);
    var t0, t1 := FailingThenHealthy[0], FailingThenHealthy[1];
    var step := QueueProcessor.Visitor(ev, h);
    assert QueueProcessor.Execute(ev, SampleConsumer, Instance(1), h)
           == QueueProcessor.Execution(None, None, Some(AmbiguousMatchException));
    StepOrStop(QueueProcessor.EventStart, [], t0, [], step, QueueProcessor.Halted);
    assert [] + [t0] == [t0];
    assert QueueProcessor.EventPass([t0], ev, h) == QueueProcessor.EventStart;
    StepOrStop(QueueProcessor.EventStart, [t0], t1, [], step, QueueProcessor.Halted);
    assert [t0] + [t1] == FailingThenHealthy;
  }
}
