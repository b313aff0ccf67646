/**
 * `IConsumerProvider`: the container adapter that resolves the live
 * instances of a consumer type, and the (type, instance) pairs the
 * dispatchers walk through.
 */
module ConsumerProviders {
  import opened Types
  import opened Seqs
  import opened Loops

  /**
   * `GetConsumers(consumerType)`: the instances the container hands out for a
   * type, in its order; an entry may be null.
   */
  datatype ConsumerProvider = ConsumerProvider(getConsumers: TypeId -> seq<Option<Instance>>)

  /** One iteration of the inner loop: a consumer type and one of its resolved instances. */
  datatype Target = Target(consumerType: TypeId, instance: Option<Instance>)

  /** The targets of one consumer type, in instance order. */
  function Targets(t: TypeId, instances: seq<Option<Instance>>): (r: seq<Target>)
    ensures |r| == |instances|
    ensures forall k :: 0 <= k < |r| ==> r[k] == Target(t, instances[k])
  {
    seq(|instances|, k requires 0 <= k < |instances| => Target(t, instances[k]))
  }

  /** The targets of the nested loops: type order first, then instance order. */
  function Pairs(types: seq<TypeId>, provider: ConsumerProvider): seq<Target>
  {
    if types == [] then []
    else Pairs(DropLast(types), provider) + Targets(Last(types), provider.getConsumers(Last(types)))
  }

  lemma {:induction false} PairsAppend(xs: seq<TypeId>, ys: seq<TypeId>, provider: ConsumerProvider)
    ensures Pairs(xs + ys, provider) == Pairs(xs, provider) + Pairs(ys, provider)
  {
    if ys == [] {
      assert xs + ys == xs;
    } else {
      LastSplit(ys);
      assert xs + ys == (xs + DropLast(ys)) + [Last(ys)];
      DropLastAppend(xs + DropLast(ys), Last(ys));
      PairsAppend(xs, DropLast(ys), provider);
    }
  }

  /** A pair is visited exactly when its type is resolved and the instance is one of that type's. */
  lemma {:induction false} PairsMembership(types: seq<TypeId>, provider: ConsumerProvider, p: Target)
    ensures p in Pairs(types, provider) <==> p.consumerType in types && p.instance in provider.getConsumers(p.consumerType)
  {
    if types != [] {
      LastSplit(types);
      PairsMembership(DropLast(types), provider, p);
      var r := Targets(Last(types), provider.getConsumers(Last(types)));
      if p.consumerType == Last(types) && p.instance in provider.getConsumers(p.consumerType) {
        var k :| 0 <= k < |provider.getConsumers(p.consumerType)| && provider.getConsumers(p.consumerType)[k] == p.instance;
        assert r[k] == p;
      }
    }
  }

  /** How many pairs carry consumer type `c`: its instances, once per time the type is resolved. */
  lemma {:induction false} PairsCount(types: seq<TypeId>, provider: ConsumerProvider, c: TypeId)
    ensures CountOf(Pairs(types, provider), c) == multiset(types)[c] * |provider.getConsumers(c)|
  {
    if types != [] {
      LastSplit(types);
      var init, x := DropLast(types), Last(types);
      var tail := Targets(x, provider.getConsumers(x));
      PairsCount(init, provider, c);
      CountOfAppend(Pairs(init, provider), tail, c);
      CountOfTargets(x, provider.getConsumers(x), c);
      assert multiset(types) == multiset(init) + multiset{x};
      var n, w := multiset(init)[c], |provider.getConsumers(c)|;
      assert CountOf(Pairs(init, provider), c) == n * w;
      if x == c {
        assert multiset(types)[c] == n + 1;
        SuccTimes(n, w);
      } else {
        assert multiset(types)[c] == n;
      }
    }
  }

  /** The number of pairs of consumer type `c`. */
  function CountOf(pairs: seq<Target>, c: TypeId): nat
  {
    if pairs == [] then 0
    else CountOf(DropLast(pairs), c) + (if Last(pairs).consumerType == c then 1 else 0)
  }

  lemma {:induction false} CountOfAppend(xs: seq<Target>, ys: seq<Target>, c: TypeId)
    ensures CountOf(xs + ys, c) == CountOf(xs, c) + CountOf(ys, c)
  {
    if ys == [] {
      assert xs + ys == xs;
    } else {
      LastSplit(ys);
      assert xs + ys == (xs + DropLast(ys)) + [Last(ys)];
      DropLastAppend(xs + DropLast(ys), Last(ys));
      CountOfAppend(xs, DropLast(ys), c);
    }
  }

  /** The targets of type `t` are all of type `t`. */
  lemma {:induction false} CountOfTargets(t: TypeId, instances: seq<Option<Instance>>, c: TypeId)
    ensures CountOf(Targets(t, instances), c) == if t == c then |instances| else 0
  {
    if instances != [] {
      var r := Targets(t, instances);
      LastSplit(instances);
      assert DropLast(r) == Targets(t, DropLast(instances));
      CountOfTargets(t, DropLast(instances), c);
    }
  }

  /** Cutting the instances at `j` cuts their targets at `j`. */
  lemma TargetsSplit(t: TypeId, instances: seq<Option<Instance>>, j: nat)
    requires j <= |instances|
    ensures Targets(t, instances) == Targets(t, instances[..j]) + Targets(t, instances[j..])
    ensures j < |instances| ==> Targets(t, instances[..j + 1]) == Targets(t, instances[..j]) + [Target(t, instances[j])]
  {
    assert Targets(t, instances) == Targets(t, instances[..j]) + Targets(t, instances[j..]);
    if j < |instances| {
      assert Targets(t, instances[..j + 1]) == Targets(t, instances[..j]) + [Target(t, instances[j])];
    }
  }

  /** The pairs of the whole type list around position `i`. */
  lemma PairsSplit(types: seq<TypeId>, provider: ConsumerProvider, i: nat)
    requires i < |types|
    ensures Pairs(types, provider) ==
            Pairs(types[..i], provider) + Targets(types[i], provider.getConsumers(types[i])) + Pairs(types[i + 1..], provider)
    ensures Pairs(types[..i + 1], provider) == Pairs(types[..i], provider) + Targets(types[i], provider.getConsumers(types[i]))
  {
    PrefixStep(types, i);
    assert types == types[..i + 1] + types[i + 1..];
    PairsAppend(types[..i + 1], types[i + 1..], provider);
  }

  /** The pairs of an inner loop over `consumers`, after `before`, around its `j`-th instance. */
  lemma InnerSplit(before: seq<Target>, t: TypeId, consumers: seq<Option<Instance>>, j: nat)
    requires j < |consumers|
    ensures before + Targets(t, consumers[..j + 1]) == before + Targets(t, consumers[..j]) + [Target(t, consumers[j])]
    ensures before + Targets(t, consumers)
            == before + Targets(t, consumers[..j]) + [Target(t, consumers[j])] + Targets(t, consumers[j + 1..])
  {
    TargetsSplit(t, consumers, j);
    TargetsSplit(t, consumers, j + 1);
    Regroup(before, Targets(t, consumers[..j]), Target(t, consumers[j]), Targets(t, consumers[j + 1..]),
            Targets(t, consumers[..j + 1]), Targets(t, consumers));
  }

  /**
   * How many consumer types the outer loop pulls from the lookup when the
   * loops over their pairs run from `s`: all of them, unless a step stops
   * the loops, and then the types up to the one whose pairs it stopped in.
   */
  function Taken<S>(types: seq<TypeId>, provider: ConsumerProvider, s: S, step: (S, Target) -> S, stopped: S -> bool): (n: nat)
    ensures n <= |types|
  {
    if types == [] then 0
    else if stopped(Run(s, Pairs(DropLast(types), provider), step, stopped)) then Taken(DropLast(types), provider, s, step, stopped)
    else |types|
  }

  /** Once the loops have stopped within the pairs of the first `i` types, the later types change nothing. */
  lemma StoppedWithin<S>(types: seq<TypeId>, provider: ConsumerProvider, s: S, step: (S, Target) -> S, stopped: S -> bool,
                         i: nat, j: nat)
    requires i <= j <= |types| && stopped(Run(s, Pairs(types[..i], provider), step, stopped))
    ensures Run(s, Pairs(types[..j], provider), step, stopped) == Run(s, Pairs(types[..i], provider), step, stopped)
  {
    assert types[..j] == types[..i] + types[i..j];
    PairsAppend(types[..i], types[i..j], provider);
    StopsAt(s, Pairs(types[..i], provider), Pairs(types[i..j], provider), step, stopped);
  }

  /** The loops stop within the pairs of type `i`: the outer loop has pulled `i + 1` types. */
  lemma {:induction false} TakenStop<S>(types: seq<TypeId>, provider: ConsumerProvider, s: S, step: (S, Target) -> S,
                                        stopped: S -> bool, i: nat)
    requires i < |types|
    requires !stopped(Run(s, Pairs(types[..i], provider), step, stopped))
    requires stopped(Run(s, Pairs(types[..i + 1], provider), step, stopped))
    ensures Taken(types, provider, s, step, stopped) == i + 1
  {
    var init := DropLast(types);
    if i + 1 == |types| {
      assert types[..i] == init;
    } else {
      assert init[..i] == types[..i] && init[..i + 1] == types[..i + 1];
      assert types[..|init|] == init;
      StoppedWithin(types, provider, s, step, stopped, i + 1, |init|);
      TakenStop(init, provider, s, step, stopped, i);
    }
  }

  /** The loops run to the end: the outer loop has pulled every type. */
  lemma TakenAll<S>(types: seq<TypeId>, provider: ConsumerProvider, s: S, step: (S, Target) -> S, stopped: S -> bool)
    requires !stopped(Run(s, Pairs(types, provider), step, stopped))
    ensures Taken(types, provider, s, step, stopped) == |types|
  {
    if types != [] && stopped(Run(s, Pairs(DropLast(types), provider), step, stopped)) {
      assert types[..|types| - 1] == DropLast(types) && types[..|types|] == types;
      StoppedWithin(types, provider, s, step, stopped, |types| - 1, |types|);
      assert false;
    }
  }
}
