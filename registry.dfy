/**
 * The consumer dictionary of the builder (`classConsumers`): a map from
 * consumer type to the set of event types it declares, together with the
 * order in which a `Dictionary` enumerates its keys (insertion order, since
 * keys are never removed). It is an object of its own because the builder
 * and every provider built from it share it.
 */
module Registry {
  import opened Types
  import opened Seqs

  /** The dictionary as a value: its entries and its key enumeration order. */
  datatype Dictionary = Dictionary(entries: map<TypeId, set<TypeId>>, order: seq<TypeId>)

  const Empty: Dictionary := Dictionary(map[], [])

  /** The event types a key holds, or none for a missing key. */
  function Declared(m: map<TypeId, set<TypeId>>, k: TypeId): set<TypeId>
  {
    if k in m then m[k] else {}
  }

  /** Enumeration order lists every key exactly once. */
  ghost predicate WellFormed(d: Dictionary)
  {
    Distinct(d.order) && forall k :: k in d.entries <==> k in d.order
  }

  /** Every entry holds at least one event type. */
  ghost predicate NonEmptyEntries(m: map<TypeId, set<TypeId>>)
  {
    forall k :: k in m ==> m[k] != {}
  }

  /** Every set of `m` is contained in the set `m'` holds for the same key, and the keys agree. */
  ghost predicate Grows(m: map<TypeId, set<TypeId>>, m': map<TypeId, set<TypeId>>)
  {
    m.Keys == m'.Keys && forall k :: k in m ==> m[k] <= m'[k]
  }

  class ConsumerRegistry {
    var entries: map<TypeId, set<TypeId>>
    var order: seq<TypeId>

    function View(): Dictionary
      reads this
    {
      Dictionary(entries, order)
    }

    ghost predicate Valid()
      reads this
    {
      WellFormed(View())
    }

    constructor ()
      ensures Valid() && View() == Empty
    {
      entries := map[];
      order := [];
    }

    /** `ContainsKey`. */
    predicate ContainsKey(k: TypeId)
      reads this
    {
      k in entries
    }

    /** `dictionary[k] = new HashSet<Type>()` for a missing key: a new last key with an empty set. */
    method CreateEntry(k: TypeId)
      requires Valid() && k !in entries
      modifies this
      ensures Valid()
      ensures entries == old(entries)[k := {}] && order == old(order) + [k]
    {
      entries := entries[k := {}];
      order := order + [k];
    }

    /** `HashSet.Add` on the set of an existing key; the key order is unchanged. */
    method AddToSet(k: TypeId, e: TypeId)
      requires Valid() && k in entries
      modifies this
      ensures Valid()
      ensures entries == old(entries)[k := old(entries)[k] + {e}] && order == old(order)
    {
      entries := entries[k := entries[k] + {e}];
    }
  }
}
