/**
 * The builder's extension methods: `AddConsumer<T>`, and the assembly scan
 * that extracts every concrete class implementing an `IConsumer<E>` and
 * registers each extracted type through the virtual `AddConsumer`.
 */
module BuilderExtensions {
  import opened Types
  import opened Seqs
  import opened Registry
  import opened Builder
  import opened DiBuilder

  /** `AddConsumer<TConsumer>()`: `AddConsumer(typeof(TConsumer))`, then the builder itself. */
  method AddConsumerOf(b: BuilderRef, consumerType: TypeId) returns (r: Result<BuilderRef>)
    requires b.Valid()
    modifies b.Core().classConsumers
    ensures b.Valid()
    ensures Rejection(b, ServicesOf(b), Some(consumerType)).Some? ==>
              r == Err(Rejection(b, ServicesOf(b), Some(consumerType)).value)
              && b.Core().classConsumers.View() == old(b.Core().classConsumers.View())
    ensures Rejection(b, ServicesOf(b), Some(consumerType)).None? ==>
              r == Ok(b)
              && b.Core().classConsumers.View() == AfterAdd(b.Core().reflection.describe, old(b.Core().classConsumers.View()), consumerType)
  {
    var res := AddConsumer(b, Some(consumerType));
    if res.Err? {
      return Err(res.error);
    }
    return Ok(b);
  }

  /** Abstract types and non-class types are skipped before their interfaces are looked at. */
  predicate Eligible(desc: TypeDesc)
  {
    !desc.isAbstract && desc.isClass
  }

  /** The yields for one type: once per generic `IConsumer<>` interface it implements. */
  function ExtractType(t: TypeId, desc: TypeDesc): seq<TypeId>
  {
    if !Eligible(desc) then [] else seq(|ConsumedEvents(desc.interfaces)|, _ => t)
  }

  /** `ExtractConsumersFromAssembly`: the yields for the assembly's types, in `GetTypes` order. */
  function ExtractConsumersFromAssembly(types: seq<TypeId>, describe: TypeId -> TypeDesc): seq<TypeId>
  {
    if types == [] then []
    else ExtractConsumersFromAssembly(DropLast(types), describe) + ExtractType(Last(types), describe(Last(types)))
  }

  /** How many times each listing of `t` is yielded. */
  function Weight(t: TypeId, describe: TypeId -> TypeDesc): nat
  {
    if Eligible(describe(t)) then |ConsumedEvents(describe(t).interfaces)| else 0
  }

  /**
   * How often a type is extracted: once per `IConsumer<>` interface for each
   * time it is listed, and never when it is abstract or not a class.
   */
  lemma {:induction false} ExtractCount(types: seq<TypeId>, describe: TypeId -> TypeDesc, t: TypeId)
    ensures multiset(ExtractConsumersFromAssembly(types, describe))[t] == multiset(types)[t] * Weight(t, describe)
  {
    if types != [] {
      LastSplit(types);
      var init, x := DropLast(types), Last(types);
      var one := ExtractType(x, describe(x));
      ExtractCount(init, describe, t);
      ExtractTypeCount(x, describe(x), t);
      assert ExtractConsumersFromAssembly(types, describe) == ExtractConsumersFromAssembly(init, describe) + one;
      assert multiset(ExtractConsumersFromAssembly(types, describe))
             == multiset(ExtractConsumersFromAssembly(init, describe)) + multiset(one);
      assert multiset(types) == multiset(init) + multiset{x};
      Tally(multiset(ExtractConsumersFromAssembly(types, describe))[t], multiset(types)[t],
            multiset(init)[t], Weight(t, describe), x == t);
    }
  }

  /** The count after one more listing: `n` listings of weight `w`, plus `w` more when the listing is `t`. */
  lemma Tally(count: nat, total: nat, n: nat, w: nat, hit: bool)
    requires count == n * w + (if hit then w else 0) && total == n + (if hit then 1 else 0)
    ensures count == total * w
  {
    if hit {
      SuccTimes(n, w);
    }
  }

  /** The yields for one listing of `x`, counted for `t`. */
  lemma ExtractTypeCount(x: TypeId, desc: TypeDesc, t: TypeId)
    ensures multiset(ExtractType(x, desc))[t] == if x == t && Eligible(desc) then |ConsumedEvents(desc.interfaces)| else 0
  {
    if Eligible(desc) {
      RepeatCount(x, |ConsumedEvents(desc.interfaces)|, t);
    }
  }

  lemma {:induction false} RepeatCount(x: TypeId, n: nat, t: TypeId)
    ensures multiset(seq(n, _ => x))[t] == if x == t then n else 0
  {
    if n > 0 {
      assert seq(n, _ => x) == seq(n - 1, _ => x) + [x];
      RepeatCount(x, n - 1, t);
    }
  }

  /** A type is extracted exactly when it is listed, eligible and implements some `IConsumer<E>`. */
  lemma ExtractMembership(types: seq<TypeId>, describe: TypeId -> TypeDesc, t: TypeId)
    ensures t in ExtractConsumersFromAssembly(types, describe) <==>
            t in types && Eligible(describe(t)) && exists e :: Generic(IConsumerDefinition, e) in describe(t).interfaces
  {
    ExtractCount(types, describe, t);
    PositiveProduct(multiset(types)[t], Weight(t, describe));
    var evs := ConsumedEvents(describe(t).interfaces);
    if evs != [] {
      ConsumedEventsMembership(describe(t).interfaces, evs[0]);
    }
    if exists e :: Generic(IConsumerDefinition, e) in describe(t).interfaces {
      var e :| Generic(IConsumerDefinition, e) in describe(t).interfaces;
      ConsumedEventsMembership(describe(t).interfaces, e);
    }
  }

  /** The extractions of all assemblies, in argument order. */
  function ExtractAll(assemblies: seq<seq<TypeId>>, describe: TypeId -> TypeDesc): seq<TypeId>
  {
    if assemblies == [] then []
    else ExtractAll(DropLast(assemblies), describe) + ExtractConsumersFromAssembly(Last(assemblies), describe)
  }

  /**
   * The dictionary and the exception after calling the virtual `AddConsumer`
   * on each type in turn: the first refusal stops the loop with the
   * dictionary as it was.
   */
  function RegisterAll(b: BuilderRef, svcs: seq<ServiceDescriptor>, d: Dictionary, consumers: seq<TypeId>)
    : (Dictionary, Option<Exception>)
  {
    if consumers == [] then (d, None)
    else
      var (d', err) := RegisterAll(b, svcs, d, DropLast(consumers));
      if err.Some? then (d', err)
      else match Rejection(b, svcs, Some(Last(consumers)))
        case Some(ex) => (d', Some(ex))
        case None => (AfterAdd(b.Core().reflection.describe, d', Last(consumers)), None)
  }

  lemma {:induction false} RegisterAllAppend(b: BuilderRef, svcs: seq<ServiceDescriptor>, d: Dictionary,
                                             xs: seq<TypeId>, ys: seq<TypeId>)
    ensures RegisterAll(b, svcs, d, xs + ys) ==
            if RegisterAll(b, svcs, d, xs).1.Some? then RegisterAll(b, svcs, d, xs)
            else RegisterAll(b, svcs, RegisterAll(b, svcs, d, xs).0, ys)
  {
    if ys == [] {
      assert xs + ys == xs;
    } else {
      LastSplit(ys);
      assert xs + ys == (xs + DropLast(ys)) + [Last(ys)];
      DropLastAppend(xs + DropLast(ys), Last(ys));
      RegisterAllAppend(b, svcs, d, xs, DropLast(ys));
    }
  }

  /** Once a refusal has stopped the loop, the remaining types are never registered. */
  lemma RegisterAllStopped(b: BuilderRef, svcs: seq<ServiceDescriptor>, d: Dictionary, xs: seq<TypeId>, ys: seq<TypeId>)
    requires RegisterAll(b, svcs, d, xs).1.Some?
    ensures RegisterAll(b, svcs, d, xs + ys) == RegisterAll(b, svcs, d, xs)
  {
    RegisterAllAppend(b, svcs, d, xs, ys);
  }

  /** Registering through the plain builder never fails, whatever the list. */
  lemma {:induction false} RegisterAllBaseSucceeds(b: BuilderRef, svcs: seq<ServiceDescriptor>, d: Dictionary, consumers: seq<TypeId>)
    requires b.Base?
    ensures RegisterAll(b, svcs, d, consumers).1 == None
  {
    if consumers != [] {
      RegisterAllBaseSucceeds(b, svcs, d, DropLast(consumers));
    }
  }

  /** The list without its repetitions, each type at its first position. */
  function Dedup(consumers: seq<TypeId>): seq<TypeId>
  {
    if consumers == [] then []
    else if Last(consumers) in DropLast(consumers) then Dedup(DropLast(consumers))
    else Dedup(DropLast(consumers)) + [Last(consumers)]
  }

  lemma {:induction false} DedupMembership(consumers: seq<TypeId>)
    ensures forall t :: t in Dedup(consumers) <==> t in consumers
    ensures Distinct(Dedup(consumers))
  {
    if consumers != [] {
      LastSplit(consumers);
      DedupMembership(DropLast(consumers));
    }
  }

  /** After a successful run, registering any listed type again changes nothing. */
  lemma {:induction false} RegisterAllAbsorbs(b: BuilderRef, svcs: seq<ServiceDescriptor>, d: Dictionary,
                                              consumers: seq<TypeId>, t: TypeId)
    requires RegisterAll(b, svcs, d, consumers).1 == None && t in consumers
    ensures Absorbs(RegisterAll(b, svcs, d, consumers).0, t, ConsumedEvents(b.Core().reflection.describe(t).interfaces))
  {
    var describe := b.Core().reflection.describe;
    LastSplit(consumers);
    var init, x := DropLast(consumers), Last(consumers);
    var prev := RegisterAll(b, svcs, d, init).0;
    if t == x {
      RegisteredIdempotent(prev, t, ConsumedEvents(describe(t).interfaces));
    } else {
      RegisterAllAbsorbs(b, svcs, d, init, t);
      AbsorbsPreserved(prev, t, ConsumedEvents(describe(t).interfaces), x, ConsumedEvents(describe(x).interfaces));
    }
  }

  /**
   * Registering the extracted list, with its repetitions, gives the same
   * dictionary as registering each distinct type once.
   */
  lemma {:induction false} RegisterAllDedup(b: BuilderRef, svcs: seq<ServiceDescriptor>, d: Dictionary, consumers: seq<TypeId>)
    ensures RegisterAll(b, svcs, d, consumers) == RegisterAll(b, svcs, d, Dedup(consumers))
  {
    if consumers != [] {
      LastSplit(consumers);
      var init, x := DropLast(consumers), Last(consumers);
      RegisterAllDedup(b, svcs, d, init);
      if x in init {
        if RegisterAll(b, svcs, d, init).1 == None {
          RegisterAllAccepted(b, svcs, d, init, x);
          RegisterAllAbsorbs(b, svcs, d, init, x);
        }
      } else {
        DropLastAppend(Dedup(init), x);
      }
    }
  }

  /** A successful run accepted every listed type, so none of them is refused when listed again. */
  lemma {:induction false} RegisterAllAccepted(b: BuilderRef, svcs: seq<ServiceDescriptor>, d: Dictionary,
                                               consumers: seq<TypeId>, t: TypeId)
    requires RegisterAll(b, svcs, d, consumers).1 == None && t in consumers
    ensures Rejection(b, svcs, Some(t)).None?
  {
    LastSplit(consumers);
    var init := DropLast(consumers);
    if t != Last(consumers) {
      RegisterAllAccepted(b, svcs, d, init, t);
    }
  }

  /** `RegisterAllConsumers`: the virtual `AddConsumer` of each type in turn; a refusal propagates. */
  method RegisterAllConsumers(b: BuilderRef, consumers: seq<TypeId>) returns (r: Outcome)
    requires b.Valid()
    modifies b.Core().classConsumers
    ensures b.Valid()
    ensures (b.Core().classConsumers.View(), if r.Failed? then Some(r.error) else None)
         == RegisterAll(b, ServicesOf(b), old(b.Core().classConsumers.View()), consumers)
  {
    ghost var d0 := b.Core().classConsumers.View();
    ghost var svcs := ServicesOf(b);
    var i := 0;
    var failure: Option<Exception> := None;
    while i < |consumers| && failure.None?
      invariant 0 <= i <= |consumers|
      invariant b.Valid() && ServicesOf(b) == svcs
      invariant failure.None? ==> RegisterAll(b, svcs, d0, consumers[..i]) == (b.Core().classConsumers.View(), None)
      invariant failure.Some? ==> RegisterAll(b, svcs, d0, consumers) == (b.Core().classConsumers.View(), failure)
    {
      failure := RegisterNext(b, consumers, i, svcs, d0);
      i := i + 1;
    }
    if failure.Some? {
      return Failed(failure.value);
    }
    assert consumers[..i] == consumers;
    return Done;
  }

  /** One iteration of `RegisterAllConsumers`: the virtual `AddConsumer` of type `i`. */
  method RegisterNext(b: BuilderRef, consumers: seq<TypeId>, i: nat, ghost svcs: seq<ServiceDescriptor>,
                      ghost d0: Dictionary)
    returns (failure: Option<Exception>)
    requires b.Valid() && ServicesOf(b) == svcs && i < |consumers|
    requires RegisterAll(b, svcs, d0, consumers[..i]) == (b.Core().classConsumers.View(), None)
    modifies b.Core().classConsumers
    ensures b.Valid() && ServicesOf(b) == svcs
    ensures failure.None? ==> RegisterAll(b, svcs, d0, consumers[..i + 1]) == (b.Core().classConsumers.View(), None)
    ensures failure.Some? ==> RegisterAll(b, svcs, d0, consumers) == (b.Core().classConsumers.View(), failure)
  {
    ghost var dv := b.Core().classConsumers.View();
    var res := AddConsumer(b, Some(consumers[i]));
    failure := if res.Err? then Some(res.error) else None;
    RegisterStep(b, svcs, d0, consumers, i, dv, (b.Core().classConsumers.View(), failure));
  }

  /** One type of the loop: its registration continues the run, and a refusal ends the whole loop there. */
  lemma RegisterStep(b: BuilderRef, svcs: seq<ServiceDescriptor>, d0: Dictionary, consumers: seq<TypeId>, i: nat,
                     dv: Dictionary, r: (Dictionary, Option<Exception>))
    requires i < |consumers|
    requires RegisterAll(b, svcs, d0, consumers[..i]) == (dv, None)
    requires r == match Rejection(b, svcs, Some(consumers[i]))
                  case Some(ex) => (dv, Some(ex))
                  case None => (AfterAdd(b.Core().reflection.describe, dv, consumers[i]), None)
    ensures r.1.None? ==> RegisterAll(b, svcs, d0, consumers[..i + 1]) == r
    ensures r.1.Some? ==> RegisterAll(b, svcs, d0, consumers) == r
  {
    PrefixStep(consumers, i);
    assert RegisterAll(b, svcs, d0, consumers[..i + 1]) == r;
    if r.1.Some? {
      RegisterAllStopped(b, svcs, d0, consumers[..i + 1], consumers[i + 1..]);
      assert consumers[..i + 1] + consumers[i + 1..] == consumers;
    }
  }

  /**
   * `AddAllConsumers(assemblies)`: scan and register each assembly in argument
   * order; a refusal stops the scan and propagates, success returns the builder.
   */
  method AddAllConsumers(b: BuilderRef, assemblies: seq<seq<TypeId>>) returns (r: Result<BuilderRef>)
    requires b.Valid()
    modifies b.Core().classConsumers
    ensures b.Valid()
    ensures (b.Core().classConsumers.View(), if r.Err? then Some(r.error) else None)
         == RegisterAll(b, ServicesOf(b), old(b.Core().classConsumers.View()),
                        ExtractAll(assemblies, b.Core().reflection.describe))
    ensures r.Ok? ==> r.value == b
  {
    ghost var d0 := b.Core().classConsumers.View();
    ghost var svcs := ServicesOf(b);
    var i := 0;
    var failure: Option<Exception> := None;
    while i < |assemblies| && failure.None?
      invariant 0 <= i <= |assemblies|
      invariant b.Valid() && ServicesOf(b) == svcs
      invariant failure.None? ==> RegisterAll(b, svcs, d0, ExtractAll(assemblies[..i], b.Core().reflection.describe))
                                  == (b.Core().classConsumers.View(), None)
      invariant failure.Some? ==> RegisterAll(b, svcs, d0, ExtractAll(assemblies, b.Core().reflection.describe))
                                  == (b.Core().classConsumers.View(), failure)
    {
      failure := ScanAssembly(b, assemblies, i, svcs, d0);
      i := i + 1;
    }
    if failure.Some? {
      return Err(failure.value);
    }
    assert assemblies[..i] == assemblies;
    return Ok(b);
  }

  /** One iteration of `AddAllConsumers`: extract the consumers of assembly `i` and register them. */
  method ScanAssembly(b: BuilderRef, assemblies: seq<seq<TypeId>>, i: nat, ghost svcs: seq<ServiceDescriptor>,
                      ghost d0: Dictionary)
    returns (failure: Option<Exception>)
    requires b.Valid() && ServicesOf(b) == svcs && i < |assemblies|
    requires RegisterAll(b, svcs, d0, ExtractAll(assemblies[..i], b.Core().reflection.describe))
             == (b.Core().classConsumers.View(), None)
    modifies b.Core().classConsumers
    ensures b.Valid() && ServicesOf(b) == svcs
    ensures failure.None? ==> RegisterAll(b, svcs, d0, ExtractAll(assemblies[..i + 1], b.Core().reflection.describe))
                              == (b.Core().classConsumers.View(), None)
    ensures failure.Some? ==> RegisterAll(b, svcs, d0, ExtractAll(assemblies, b.Core().reflection.describe))
                              == (b.Core().classConsumers.View(), failure)
  {
    ghost var dv := b.Core().classConsumers.View();
    var consumers := ExtractConsumersFromAssembly(assemblies[i], b.Core().reflection.describe);
    var outcome := RegisterAllConsumers(b, consumers);
    failure := if outcome.Failed? then Some(outcome.error) else None;
    AddAllStep(b, svcs, d0, assemblies, i, b.Core().reflection.describe, dv, (b.Core().classConsumers.View(), failure));
  }

  /** One assembly of the scan: its registrations continue the run, and a refusal ends the whole scan there. */
  lemma AddAllStep(b: BuilderRef, svcs: seq<ServiceDescriptor>, d0: Dictionary, assemblies: seq<seq<TypeId>>, i: nat,
                   describe: TypeId -> TypeDesc, dv: Dictionary, r: (Dictionary, Option<Exception>))
    requires i < |assemblies|
    requires RegisterAll(b, svcs, d0, ExtractAll(assemblies[..i], describe)) == (dv, None)
    requires RegisterAll(b, svcs, dv, ExtractConsumersFromAssembly(assemblies[i], describe)) == r
    ensures r.1.None? ==> RegisterAll(b, svcs, d0, ExtractAll(assemblies[..i + 1], describe)) == r
    ensures r.1.Some? ==> RegisterAll(b, svcs, d0, ExtractAll(assemblies, describe)) == r
  {
    var before := ExtractAll(assemblies[..i], describe);
    var consumers := ExtractConsumersFromAssembly(assemblies[i], describe);
    ExtractAllStep(assemblies, i, describe);
    RegisterAllAppend(b, svcs, d0, before, consumers);
    if r.1.Some? {
      ExtractAllRest(assemblies, i, describe);
      RegisterAllStopped(b, svcs, d0, ExtractAll(assemblies[..i + 1], describe), ExtractAll(assemblies[i + 1..], describe));
    }
  }

  lemma {:induction false} ExtractAllStep(assemblies: seq<seq<TypeId>>, i: nat, describe: TypeId -> TypeDesc)
    requires i < |assemblies|
    ensures ExtractAll(assemblies[..i + 1], describe)
         == ExtractAll(assemblies[..i], describe) + ExtractConsumersFromAssembly(assemblies[i], describe)
  {
    PrefixStep(assemblies, i);
  }

  lemma {:induction false} ExtractAllRest(assemblies: seq<seq<TypeId>>, i: nat, describe: TypeId -> TypeDesc)
    requires i < |assemblies|
    ensures ExtractAll(assemblies, describe)
         == ExtractAll(assemblies[..i + 1], describe) + ExtractAll(assemblies[i + 1..], describe)
  {
    var xs, ys := assemblies[..i + 1], assemblies[i + 1..];
    assert xs + ys == assemblies;
    ExtractAllAppend(xs, ys, describe);
  }

  lemma {:induction false} ExtractAllAppend(xs: seq<seq<TypeId>>, ys: seq<seq<TypeId>>, describe: TypeId -> TypeDesc)
    ensures ExtractAll(xs + ys, describe) == ExtractAll(xs, describe) + ExtractAll(ys, describe)
  {
    if ys == [] {
      assert xs + ys == xs;
    } else {
      LastSplit(ys);
      assert xs + ys == (xs + DropLast(ys)) + [Last(ys)];
      DropLastAppend(xs + DropLast(ys), Last(ys));
      ExtractAllAppend(xs, DropLast(ys), describe);
    }
  }
}
