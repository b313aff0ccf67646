/**
 * `HashedConsumerTypesProvider`: the consumer types whose declared set holds
 * the looked-up event type itself, in key enumeration order, each key at most
 * once (the inner loop stops at the first match).
 */
module ExactProvider {
  import opened Types
  import opened Seqs
  import opened Registry

  /** The keys of `keys`, in order, whose set holds `e`. */
  function ExactMatches(m: map<TypeId, set<TypeId>>, keys: seq<TypeId>, e: TypeId): seq<TypeId>
  {
    if keys == [] then []
    else ExactMatches(m, DropLast(keys), e) + (if e in Declared(m, Last(keys)) then [Last(keys)] else [])
  }

  lemma {:induction false} ExactMatchesMembership(m: map<TypeId, set<TypeId>>, keys: seq<TypeId>, e: TypeId, c: TypeId)
    ensures c in ExactMatches(m, keys, e) <==> c in keys && e in Declared(m, c)
  {
    if keys != [] {
      LastSplit(keys);
      ExactMatchesMembership(m, DropLast(keys), e, c);
    }
  }

  lemma ExactMatchesMembershipAll(m: map<TypeId, set<TypeId>>, keys: seq<TypeId>, e: TypeId)
    ensures forall c :: c in ExactMatches(m, keys, e) <==> c in keys && e in Declared(m, c)
  {
    forall c {
      ExactMatchesMembership(m, keys, e, c);
    }
  }

  /** Keys are yielded at most once when the enumeration lists each key once. */
  lemma {:induction false} ExactMatchesDistinct(m: map<TypeId, set<TypeId>>, keys: seq<TypeId>, e: TypeId)
    requires Distinct(keys)
    ensures Distinct(ExactMatches(m, keys, e))
  {
    if keys != [] {
      LastSplit(keys);
      ExactMatchesDistinct(m, DropLast(keys), e);
      ExactMatchesMembership(m, DropLast(keys), e, Last(keys));
    }
  }

  /** The result follows enumeration order: matching a concatenation concatenates the matches. */
  lemma {:induction false} ExactMatchesAppend(m: map<TypeId, set<TypeId>>, a: seq<TypeId>, b: seq<TypeId>, e: TypeId)
    ensures ExactMatches(m, a + b, e) == ExactMatches(m, a, e) + ExactMatches(m, b, e)
  {
    if b != [] {
      var init, k := DropLast(b), Last(b);
      LastSplit(b);
      assert a + b == (a + init) + [k];
      DropLastAppend(a + init, k);
      ExactMatchesAppend(m, a, init, e);
      var y := if e in Declared(m, k) then [k] else [];
      assert ExactMatches(m, a + b, e) == ExactMatches(m, a + init, e) + y;
      assert ExactMatches(m, b, e) == ExactMatches(m, init, e) + y;
    } else {
      assert a + b == a;
    }
  }

  class HashedConsumerTypesProvider {
    /** The dictionary it was constructed with, shared with its builder. */
    const consumers: ConsumerRegistry

    constructor (consumers: ConsumerRegistry)
      ensures this.consumers == consumers
    {
      this.consumers := consumers;
    }

    /**
     * `GetConsumerTypes(eventType)`: an iterator, so the dictionary is read
     * only as the caller moves it, and never changed; it starts before the
     * first key.
     */
    method GetConsumerTypes(eventType: TypeId) returns (it: ExactLookup)
      requires consumers.Valid()
      ensures fresh(it) && it.Valid() && it.yielded == []
      ensures it.consumers == consumers && it.eventType == eventType
      ensures it.start == consumers.entries && it.keys == consumers.order
    {
      it := new ExactLookup(consumers, eventType);
    }
  }

  /** What the lookup yields between keys: the keys so far whose set holds `e`, and the next key is one more step. */
  lemma ExactStep(m: map<TypeId, set<TypeId>>, keys: seq<TypeId>, i: nat, e: TypeId)
    requires i < |keys|
    ensures e in Declared(m, keys[i]) ==> ExactMatches(m, keys[..i + 1], e) == ExactMatches(m, keys[..i], e) + [keys[i]]
    ensures e !in Declared(m, keys[i]) ==> ExactMatches(m, keys[..i + 1], e) == ExactMatches(m, keys[..i], e)
  {
    PrefixStep(keys, i);
    var ys := ExactMatches(m, keys[..i], e);
    assert ys + [] == ys;
  }

  /** After the first `i` keys, what has been yielded is the start of the complete enumeration. */
  lemma ExactPrefix(m: map<TypeId, set<TypeId>>, keys: seq<TypeId>, i: nat, e: TypeId)
    requires i <= |keys|
    ensures var ys := ExactMatches(m, keys[..i], e);
            |ys| <= |ExactMatches(m, keys, e)| && ys == ExactMatches(m, keys, e)[..|ys|]
  {
    assert keys == keys[..i] + keys[i..];
    ExactMatchesAppend(m, keys[..i], keys[i..], e);
  }

  /** The state of the compiler-generated enumerator of `GetConsumerTypes`. */
  class ExactLookup {
    const consumers: ConsumerRegistry
    const eventType: TypeId
    /** The key order and the sets when the enumeration started. */
    ghost const keys: seq<TypeId>
    ghost const start: map<TypeId, set<TypeId>>
    /** The position of the outer `foreach` in the key order. */
    var next: nat
    /** `Current`: the key of the last `yield return`. */
    var current: TypeId
    /** The keys yielded so far. */
    ghost var yielded: seq<TypeId>

    ghost predicate Valid()
      reads this, consumers
    {
      && consumers.Valid() && consumers.order == keys && consumers.entries == start
      && next <= |keys| && yielded == ExactMatches(start, keys[..next], eventType)
    }

    constructor (consumers: ConsumerRegistry, eventType: TypeId)
      requires consumers.Valid()
      ensures Valid() && yielded == []
      ensures this.consumers == consumers && this.eventType == eventType
      ensures start == consumers.entries && keys == consumers.order
    {
      this.consumers := consumers;
      this.eventType := eventType;
      keys := consumers.order;
      start := consumers.entries;
      next := 0;
      current := eventType;
      yielded := [];
      new;
      assert keys[..0] == [];
    }

    /** What the caller sees: the keys yielded so far are the first keys of a complete enumeration. */
    lemma Observed()
      requires Valid()
      ensures |yielded| <= |ExactMatches(start, keys, eventType)|
      ensures yielded == ExactMatches(start, keys, eventType)[..|yielded|]
    {
      ExactPrefix(start, keys, next, eventType);
    }

    /**
     * `MoveNext()`: from the key after the last `yield return` (the inner
     * loop `break`s there), on to the next key whose set holds the event
     * type (true, with `current` that key) or to the end of the keys (false).
     * The inner loop stops at the first element equal to the event type, so
     * it finds one exactly when the set holds it.
     */
    method MoveNext() returns (more: bool)
      requires Valid()
      modifies this
      ensures Valid()
      ensures more ==> yielded == old(yielded) + [current]
      ensures !more ==> yielded == old(yielded) == ExactMatches(start, keys, eventType)
    {
      while next < |consumers.order|
        invariant Valid() && yielded == old(yielded)
        decreases |keys| - next
      {
        var k := consumers.order[next];
        ExactStep(start, keys, next, eventType);
        next := next + 1;
        if eventType in consumers.entries[k] {
          current := k;
          yielded := yielded + [k];
          return true;
        }
      }
      assert keys[..next] == keys;
      return false;
    }
  }
}
