/**
 * `EventBusBuilder`: fills the consumer dictionary from the `IConsumer<E>`
 * interfaces a consumer type implements, and hands that same dictionary
 * object to the resolver chosen by the options.
 */
module Builder {
  import opened Types
  import opened Seqs
  import opened Registry
  import opened ExactProvider
  import opened PolymorphicProvider
  import opened TypesProviders

  /**
   * The event types of the `IConsumer<E>` interfaces among `interfaces`, in
   * `GetInterfaces` order: the generic ones whose definition is `IConsumer<>`,
   * each mapped to its first generic argument.
   */
  function ConsumedEvents(interfaces: seq<Interface>): seq<TypeId>
  {
    if interfaces == [] then []
    else ConsumedEvents(DropLast(interfaces))
         + (match Last(interfaces)
            case Generic(IConsumerDefinition, e) => [e]
            case _ => [])
  }

  lemma {:induction false} ConsumedEventsMembership(interfaces: seq<Interface>, e: TypeId)
    ensures e in ConsumedEvents(interfaces) <==> Generic(IConsumerDefinition, e) in interfaces
  {
    if interfaces != [] {
      LastSplit(interfaces);
      ConsumedEventsMembership(DropLast(interfaces), e);
    }
  }

  /** One iteration of the loop: create the set for a missing key, then add `e` to it. */
  function AddEvent(d: Dictionary, c: TypeId, e: TypeId): Dictionary
  {
    Dictionary(d.entries[c := Declared(d.entries, c) + {e}],
               if c in d.entries then d.order else d.order + [c])
  }

  /** The dictionary after the loop has run over the consumed event types `evs` of `c`. */
  function Registered(d: Dictionary, c: TypeId, evs: seq<TypeId>): Dictionary
  {
    if evs == [] then d else AddEvent(Registered(d, c, DropLast(evs)), c, Last(evs))
  }

  /**
   * What registering amounts to: nothing when `c` consumes nothing; otherwise
   * the set of `c` gains exactly the consumed types, a new key goes last, and
   * every other key keeps its set.
   */
  lemma {:induction false} RegisteredShape(d: Dictionary, c: TypeId, evs: seq<TypeId>)
    ensures evs == [] ==> Registered(d, c, evs) == d
    ensures evs != [] ==>
              Registered(d, c, evs) ==
              Dictionary(d.entries[c := Declared(d.entries, c) + set e | e in evs],
                         if c in d.entries then d.order else d.order + [c])
  {
    if evs != [] {
      LastSplit(evs);
      var init, x := DropLast(evs), Last(evs);
      RegisteredShape(d, c, init);
      var prev := Registered(d, c, init);
      var all := set e | e in evs;
      if init != [] {
        var before := set e | e in init;
        assert all == before + {x};
        assert c in prev.entries && prev.entries[c] == Declared(d.entries, c) + before;
        assert Registered(d, c, evs) == AddEvent(prev, c, x);
        assert Declared(prev.entries, c) + {x} == Declared(d.entries, c) + all;
        assert prev.entries == d.entries[c := Declared(d.entries, c) + before];
        assert AddEvent(prev, c, x).entries == d.entries[c := Declared(d.entries, c) + all];
      } else {
        assert all == {x};
      }
    }
  }

  /** The consumer type's set after registration holds every type it consumes. */
  lemma RegisteredHoldsConsumed(d: Dictionary, c: TypeId, evs: seq<TypeId>)
    requires evs != []
    ensures c in Registered(d, c, evs).entries
    ensures forall e :: e in Registered(d, c, evs).entries[c] <==> e in Declared(d.entries, c) || e in evs
  {
    RegisteredShape(d, c, evs);
  }

  /** Registration changes no other key's set and adds no other key. */
  lemma RegisteredOthersUnchanged(d: Dictionary, c: TypeId, evs: seq<TypeId>, k: TypeId)
    requires k != c
    ensures k in Registered(d, c, evs).entries <==> k in d.entries
    ensures Declared(Registered(d, c, evs).entries, k) == Declared(d.entries, k)
  {
    RegisteredShape(d, c, evs);
  }

  /** Registering the same consumer twice gives the dictionary that registering it once gives. */
  lemma RegisteredIdempotent(d: Dictionary, c: TypeId, evs: seq<TypeId>)
    ensures Registered(Registered(d, c, evs), c, evs) == Registered(d, c, evs)
  {
    RegisteredShape(d, c, evs);
    RegisteredShape(Registered(d, c, evs), c, evs);
  }

  /** Registration keeps the dictionary well formed and creates only non-empty entries. */
  lemma RegisteredPreserves(d: Dictionary, c: TypeId, evs: seq<TypeId>)
    requires WellFormed(d) && NonEmptyEntries(d.entries)
    ensures WellFormed(Registered(d, c, evs)) && NonEmptyEntries(Registered(d, c, evs).entries)
  {
    RegisteredShape(d, c, evs);
    if evs != [] {
      var d' := Registered(d, c, evs);
      assert Last(evs) in d'.entries[c];
      if c !in d.entries {
        forall i, j | 0 <= i < j < |d'.order| ensures d'.order[i] != d'.order[j] {
          if j == |d.order| {
            assert d'.order[i] == d.order[i];
          }
        }
      }
    }
  }

  /** Registration only adds: no key is lost and no set shrinks. */
  lemma RegisteredMonotone(d: Dictionary, c: TypeId, evs: seq<TypeId>)
    ensures d.entries.Keys <= Registered(d, c, evs).entries.Keys
    ensures forall k :: k in d.entries ==> d.entries[k] <= Registered(d, c, evs).entries[k]
  {
    RegisteredShape(d, c, evs);
  }

  /** `d` already holds everything registering `c` would add. */
  ghost predicate Absorbs(d: Dictionary, c: TypeId, evs: seq<TypeId>)
  {
    Registered(d, c, evs) == d
  }

  /** A registration of a consumer is not undone by registering any consumer afterwards. */
  lemma AbsorbsPreserved(d: Dictionary, c: TypeId, evs: seq<TypeId>, c': TypeId, evs': seq<TypeId>)
    requires Absorbs(d, c, evs)
    ensures Absorbs(Registered(d, c', evs'), c, evs)
  {
    RegisteredShape(d, c, evs);
    RegisteredShape(d, c', evs');
    var d' := Registered(d, c', evs');
    RegisteredShape(d', c, evs);
    if evs != [] {
      var all := set e | e in evs;
      assert c in d.entries && all <= d.entries[c] by {
        assert d.entries == d.entries[c := Declared(d.entries, c) + all];
      }
      RegisteredMonotone(d, c', evs');
      assert Declared(d'.entries, c) + all == d'.entries[c];
      assert d'.entries[c := d'.entries[c]] == d'.entries;
    }
  }

  /** The dictionary after `AddConsumer(c)` has run its interface loop. */
  function AfterAdd(describe: TypeId -> TypeDesc, d: Dictionary, c: TypeId): Dictionary
  {
    Registered(d, c, ConsumedEvents(describe(c).interfaces))
  }

  class EventBusBuilder {
    /** `classConsumers`: created once with the builder, never replaced. */
    const classConsumers: ConsumerRegistry
    /** The runtime's type metadata, for `GetInterfaces` and `IsAssignableFrom`. */
    const reflection: Reflection
    /** `Options`: the options object's current property values. */
    var options: EventBusBuilderOptions

    ghost predicate Valid()
      reads this, classConsumers
    {
      classConsumers.Valid() && NonEmptyEntries(classConsumers.entries)
    }

    constructor (reflection: Reflection)
      ensures Valid() && fresh(classConsumers)
      ensures classConsumers.View() == Empty && options == DefaultOptions
      ensures this.reflection == reflection
    {
      classConsumers := new ConsumerRegistry();
      this.reflection := reflection;
      options := DefaultOptions;
    }

    /**
     * `AddConsumer(consumerType)`: a null type throws `ArgumentNullException`
     * and changes nothing; otherwise the loop over the `IConsumer<E>`
     * interfaces creates the key's set when missing and adds each `E` to it,
     * and the builder itself is returned.
     */
    method AddConsumer(consumerType: Option<TypeId>) returns (r: Result<EventBusBuilder>)
      requires Valid()
      modifies classConsumers
      ensures Valid()
      ensures consumerType.None? ==>
                r == Err(ArgumentNullException("consumerType")) && classConsumers.View() == old(classConsumers.View())
      ensures consumerType.Some? ==>
                r == Ok(this) && classConsumers.View() == AfterAdd(reflection.describe, old(classConsumers.View()), consumerType.value)
    {
      if consumerType.None? {
        return Err(ArgumentNullException("consumerType"));
      }
      var c := consumerType.value;
      var consumed := ConsumedEvents(reflection.describe(c).interfaces);
      ghost var d0 := classConsumers.View();
      var i := 0;
      while i < |consumed|
        invariant 0 <= i <= |consumed|
        invariant classConsumers.Valid()
        invariant classConsumers.View() == Registered(d0, c, consumed[..i])
      {
        AddConsumedType(c, consumed[i]);
        PrefixStep(consumed, i);
        i := i + 1;
      }
      assert consumed[..i] == consumed;
      RegisteredPreserves(d0, c, consumed);
      return Ok(this);
    }

    /** One pass of the loop of `AddConsumer`: the set of `c` is created when missing, then gains `e`. */
    method AddConsumedType(c: TypeId, e: TypeId)
      requires classConsumers.Valid()
      modifies classConsumers
      ensures classConsumers.Valid()
      ensures classConsumers.View() == AddEvent(old(classConsumers.View()), c, e)
    {
      if !classConsumers.ContainsKey(c) {
        classConsumers.CreateEntry(c);
      }
      classConsumers.AddToSet(c, e);
    }

    /**
     * `BuildTypesProvider()`: the polymorphic resolver exactly when
     * `UseEventPolymorphism` is set, and either one over the builder's own
     * dictionary object rather than a copy.
     */
    method BuildTypesProvider() returns (p: TypesProvider)
      ensures p.Polymorphic? <==> options.useEventPolymorphism
      ensures p.Consumers() == classConsumers
      ensures p.Polymorphic? ==> p.polymorphic.reflection == reflection
    {
      if options.useEventPolymorphism {
        var q := new HashedPolymorphicConsumerTypesProvider(classConsumers, reflection);
        p := Polymorphic(q);
      } else {
        var q := new HashedConsumerTypesProvider(classConsumers);
        p := Exact(q);
      }
    }
  }

  /**
   * `new EventBusBuilder(...)` followed by `BuildTypesProvider()`: since
   * polymorphism is off by default, a new builder hands out the exact
   * resolver, over its own dictionary, which is still empty.
   */
  method DefaultBuildsExact(reflection: Reflection) returns (p: TypesProvider)
    ensures p.Exact? && p.Consumers().View() == Empty
  {
    var builder := new EventBusBuilder(reflection);
    p := builder.BuildTypesProvider();
  }
}
