/**
 * `IConsumerTypesProvider`: the two resolvers the builder can hand out, seen
 * through the interface the bus and the queue processors call.
 */
module TypesProviders {
  import opened Types
  import opened Seqs
  import opened Registry
  import opened ExactProvider
  import opened PolymorphicProvider
  import opened ConsumerProviders
  import opened Loops

  datatype TypesProvider =
    | Exact(exact: HashedConsumerTypesProvider)
    | Polymorphic(polymorphic: HashedPolymorphicConsumerTypesProvider)
  {
    /** The dictionary object the resolver wraps. */
    function Consumers(): ConsumerRegistry
    {
      match this
      case Exact(p) => p.consumers
      case Polymorphic(p) => p.consumers
    }
  }

  /** The keys a resolver yields for `e` over the dictionary value `d`. */
  ghost function Resolved(p: TypesProvider, d: Dictionary, e: TypeId): seq<TypeId>
  {
    match p
    case Exact(_) => ExactMatches(d.entries, d.order, e)
    case Polymorphic(q) => PolyMatches(d.entries, d.order, e, q.reflection.isAssignableFrom)
  }

  /** The dictionary value after a resolver has been enumerated for `e`. */
  ghost function AfterLookup(p: TypesProvider, d: Dictionary, e: TypeId): Dictionary
  {
    match p
    case Exact(_) => d
    case Polymorphic(q) => Dictionary(Memoised(d.entries, e, q.reflection.isAssignableFrom), d.order)
  }

  /** Every key yielded is a key of the dictionary, whichever resolver it is. */
  lemma ResolvedAreKeys(p: TypesProvider, d: Dictionary, e: TypeId, c: TypeId)
    requires WellFormed(d) && c in Resolved(p, d, e)
    ensures c in d.entries
  {
    match p
    case Exact(_) => ExactMatchesMembership(d.entries, d.order, e, c);
    case Polymorphic(q) => PolyMatchesMembership(d.entries, d.order, e, q.reflection.isAssignableFrom, c);
  }

  /** The (consumer type, instance) pairs the dispatch loops walk for `e` over the dictionary value `d`. */
  ghost function ResolvedPairs(p: TypesProvider, d: Dictionary, e: TypeId, provider: ConsumerProvider): seq<Target>
  {
    Pairs(Resolved(p, d, e), provider)
  }

  /**
   * The dictionary value after the first `n` yields of a lookup for `e`
   * started over `d`: the exact resolver never writes, the polymorphic one
   * has run the write-backs of the keys it has passed.
   */
  ghost function AfterYields(p: TypesProvider, d: Dictionary, e: TypeId, n: nat): Dictionary
  {
    match p
    case Exact(_) => d
    case Polymorphic(q) => Dictionary(Suspended(d.entries, d.order, e, q.reflection.isAssignableFrom, n), d.order)
  }

  /** Before the first yield nothing has been written. */
  lemma AfterNoYield(p: TypesProvider, d: Dictionary, e: TypeId)
    ensures AfterYields(p, d, e, 0) == d
  {
    if p.Polymorphic? {
      SuspendedZero(d.entries, d.order, e, p.polymorphic.reflection.isAssignableFrom);
    }
  }

  /** A lookup enumerated to the end (or past its last yield) leaves the dictionary `AfterLookup` leaves. */
  lemma AfterYieldsAll(p: TypesProvider, d: Dictionary, e: TypeId, n: nat)
    requires WellFormed(d) && |Resolved(p, d, e)| <= n
    ensures AfterYields(p, d, e, n) == AfterLookup(p, d, e)
  {
    if p.Polymorphic? {
      var rel := p.polymorphic.reflection.isAssignableFrom;
      SuspendedAll(d.entries, d.order, e, rel, n);
      MemoisedOnAll(d.entries, d.order, e, rel);
    }
  }

  /** However early a lookup is abandoned, the dictionary stays well formed and every entry non-empty. */
  lemma AfterYieldsPreserves(p: TypesProvider, d: Dictionary, e: TypeId, n: nat)
    requires WellFormed(d) && NonEmptyEntries(d.entries)
    ensures WellFormed(AfterYields(p, d, e, n)) && NonEmptyEntries(AfterYields(p, d, e, n).entries)
  {
    if p.Polymorphic? {
      var m := d.entries;
      var w := Suspended(m, d.order, e, p.polymorphic.reflection.isAssignableFrom, n);
      SuspendedGrows(m, d.order, e, p.polymorphic.reflection.isAssignableFrom, n);
      assert forall k :: k in w <==> k in m;
    }
  }

  /**
   * The dictionary value after dispatch loops from `s` over the pairs of a
   * lookup for `e` started over `d`: the loops pull types until a step
   * stops them, and the lookup is abandoned there.
   */
  ghost function AfterDispatch<S>(p: TypesProvider, d: Dictionary, e: TypeId, provider: ConsumerProvider,
                                  s: S, step: (S, Target) -> S, stopped: S -> bool): Dictionary
  {
    AfterYields(p, d, e, Taken(Resolved(p, d, e), provider, s, step, stopped))
  }

  /** Loops that run to the end enumerate the lookup to its end. */
  lemma AfterDispatchComplete<S>(p: TypesProvider, d: Dictionary, e: TypeId, provider: ConsumerProvider,
                                 s: S, step: (S, Target) -> S, stopped: S -> bool)
    requires WellFormed(d) && !stopped(Run(s, ResolvedPairs(p, d, e, provider), step, stopped))
    ensures AfterDispatch(p, d, e, provider, s, step, stopped) == AfterLookup(p, d, e)
  {
    TakenAll(Resolved(p, d, e), provider, s, step, stopped);
    AfterYieldsAll(p, d, e, |Resolved(p, d, e)|);
  }

  /** The loops stop within the pairs of the `i`-th type: the lookup was abandoned after `i + 1` yields. */
  lemma AfterDispatchStopped<S>(p: TypesProvider, d: Dictionary, e: TypeId, provider: ConsumerProvider,
                                s: S, step: (S, Target) -> S, stopped: S -> bool, i: nat)
    requires i < |Resolved(p, d, e)|
    requires !stopped(Run(s, Pairs(Resolved(p, d, e)[..i], provider), step, stopped))
    requires stopped(Run(s, Pairs(Resolved(p, d, e)[..i + 1], provider), step, stopped))
    ensures AfterDispatch(p, d, e, provider, s, step, stopped) == AfterYields(p, d, e, i + 1)
    ensures Run(s, ResolvedPairs(p, d, e, provider), step, stopped) == Run(s, Pairs(Resolved(p, d, e)[..i + 1], provider), step, stopped)
  {
    var types := Resolved(p, d, e);
    TakenStop(types, provider, s, step, stopped, i);
    assert types[..|types|] == types;
    StoppedWithin(types, provider, s, step, stopped, i + 1, |types|);
  }

  /** The enumerator a `GetConsumerTypes` call hands out. */
  datatype Lookup =
    | ExactLookupOf(exact: ExactLookup)
    | PolymorphicLookupOf(polymorphic: PolymorphicLookup)
  {
    function Repr(): set<object>
    {
      match this
      case ExactLookupOf(x) => {x}
      case PolymorphicLookupOf(y) => {y}
    }

    /** The keys yielded so far. */
    ghost function Yielded(): seq<TypeId>
      reads Repr()
    {
      match this
      case ExactLookupOf(x) => x.yielded
      case PolymorphicLookupOf(y) => y.yielded
    }

    /** `Current`. */
    function Current(): TypeId
      reads Repr()
    {
      match this
      case ExactLookupOf(x) => x.current
      case PolymorphicLookupOf(y) => y.current
    }

    /** The enumerator belongs to resolver `p`, was started for `e` over the dictionary value `d`, and is consistent. */
    ghost predicate Tracks(p: TypesProvider, d: Dictionary, e: TypeId)
      reads Repr(), p.Consumers()
    {
      match this
      case ExactLookupOf(x) =>
        && p.Exact? && x.consumers == p.Consumers() && x.eventType == e
        && x.start == d.entries && x.keys == d.order && x.Valid()
      case PolymorphicLookupOf(y) =>
        && p.Polymorphic? && y.consumers == p.Consumers() && y.eventType == e
        && y.isAssignableFrom == p.polymorphic.reflection.isAssignableFrom
        && y.start == d.entries && y.keys == d.order && y.Valid()
    }
  }

  /**
   * What a caller of an enumerator can rely on: the keys yielded so far are
   * the first keys the complete enumeration yields, and the dictionary is
   * the value after that many yields.
   */
  lemma Observe(it: Lookup, p: TypesProvider, d: Dictionary, e: TypeId)
    requires it.Tracks(p, d, e)
    ensures p.Consumers().Valid() && WellFormed(d)
    ensures |it.Yielded()| <= |Resolved(p, d, e)| && it.Yielded() == Resolved(p, d, e)[..|it.Yielded()|]
    ensures p.Consumers().View() == AfterYields(p, d, e, |it.Yielded()|)
  {
    match it
    case ExactLookupOf(x) =>
      x.Observed();
    case PolymorphicLookupOf(y) =>
      y.Observed();
  }

  /** `IConsumerTypesProvider.GetConsumerTypes(eventType)`: an enumerator that has not moved yet. */
  method GetConsumerTypes(p: TypesProvider, eventType: TypeId) returns (it: Lookup)
    requires p.Consumers().Valid()
    ensures fresh(it.Repr())
    ensures it.Tracks(p, p.Consumers().View(), eventType) && it.Yielded() == []
  {
    match p
    case Exact(q) =>
      var x := q.GetConsumerTypes(eventType);
      it := ExactLookupOf(x);
    case Polymorphic(q) =>
      var y := q.GetConsumerTypes(eventType);
      it := PolymorphicLookupOf(y);
  }

  /** `MoveNext()` on an enumerator of resolver `p`: one more key, or the end of the enumeration. */
  method MoveNext(it: Lookup, ghost p: TypesProvider, ghost d: Dictionary, ghost e: TypeId) returns (more: bool)
    requires it.Tracks(p, d, e)
    modifies it.Repr(), p.Consumers()
    ensures it.Tracks(p, d, e)
    ensures more ==> it.Yielded() == old(it.Yielded()) + [it.Current()]
    ensures !more ==> it.Yielded() == old(it.Yielded()) == Resolved(p, d, e)
  {
    match it
    case ExactLookupOf(x) =>
      more := x.MoveNext();
    case PolymorphicLookupOf(y) =>
      more := y.MoveNext();
  }

  /**
   * One more key from the enumerator: the keys yielded so far are still
   * within the complete enumeration, and their pairs extend by the pairs of
   * the new key.
   */
  lemma NextKey(it: Lookup, p: TypesProvider, d: Dictionary, e: TypeId, before: seq<TypeId>, t: TypeId,
                provider: ConsumerProvider)
    requires it.Tracks(p, d, e) && it.Yielded() == before + [t]
    ensures |it.Yielded()| <= |Resolved(p, d, e)|
    ensures Pairs(it.Yielded(), provider) == Pairs(before, provider) + Targets(t, provider.getConsumers(t))
  {
    Observe(it, p, d, e);
    LastSplit(before + [t]);
    DropLastAppend(before, t);
  }

  /**
   * The loops stopped within the pairs of the last key yielded: the
   * enumerator is abandoned there, so the dictionary is the one
   * `AfterDispatch` gives, and the later keys' pairs change nothing.
   */
  lemma Abandoned<S>(it: Lookup, p: TypesProvider, d: Dictionary, e: TypeId, provider: ConsumerProvider,
                     s: S, step: (S, Target) -> S, stopped: S -> bool, before: seq<TypeId>, t: TypeId)
    requires it.Tracks(p, d, e) && it.Yielded() == before + [t]
    requires !stopped(Run(s, Pairs(before, provider), step, stopped))
    requires stopped(Run(s, Pairs(before, provider) + Targets(t, provider.getConsumers(t)), step, stopped))
    ensures p.Consumers().Valid() && p.Consumers().View() == AfterDispatch(p, d, e, provider, s, step, stopped)
    ensures Run(s, ResolvedPairs(p, d, e, provider), step, stopped)
            == Run(s, Pairs(before, provider) + Targets(t, provider.getConsumers(t)), step, stopped)
  {
    Observe(it, p, d, e);
    NextKey(it, p, d, e, before, t, provider);
    var types, i := Resolved(p, d, e), |before|;
    assert types[..i + 1] == before + [t];
    assert types[..i] == before;
    AfterDispatchStopped(p, d, e, provider, s, step, stopped, i);
  }

  /**
   * The enumerator has reached its end without the loops stopping: the
   * dictionary is the one a complete lookup leaves, which is the one
   * `AfterDispatch` gives.
   */
  lemma Exhausted<S>(it: Lookup, p: TypesProvider, d: Dictionary, e: TypeId, provider: ConsumerProvider,
                     s: S, step: (S, Target) -> S, stopped: S -> bool)
    requires it.Tracks(p, d, e) && it.Yielded() == Resolved(p, d, e)
    requires !stopped(Run(s, Pairs(it.Yielded(), provider), step, stopped))
    ensures p.Consumers().Valid() && p.Consumers().View() == AfterDispatch(p, d, e, provider, s, step, stopped)
    ensures p.Consumers().View() == AfterLookup(p, d, e)
    ensures ResolvedPairs(p, d, e, provider) == Pairs(it.Yielded(), provider)
  {
    Observe(it, p, d, e);
    AfterDispatchComplete(p, d, e, provider, s, step, stopped);
    AfterYieldsAll(p, d, e, |Resolved(p, d, e)|);
  }

  /** A lookup keeps the dictionary well formed and every entry non-empty. */
  lemma AfterLookupPreserves(p: TypesProvider, d: Dictionary, e: TypeId)
    requires WellFormed(d) && NonEmptyEntries(d.entries)
    ensures WellFormed(AfterLookup(p, d, e)) && NonEmptyEntries(AfterLookup(p, d, e).entries)
  {
    if p.Polymorphic? {
      MemoisedPreserves(d, e, p.polymorphic.reflection.isAssignableFrom);
    }
  }
}
