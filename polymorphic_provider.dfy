/**
 * `HashedPolymorphicConsumerTypesProvider`: a consumer type is yielded once
 * for an exact hit in its set and once more when its set holds another type
 * related to the looked-up one; in the second case the looked-up type is
 * written back into the consumer's set (memoisation).
 */
module PolymorphicProvider {
  import opened Types
  import opened Seqs
  import opened Registry
  import opened ExactProvider

  /** `AreTypesRelated`: assignable in one direction or the other. */
  predicate AreTypesRelated(type1: TypeId, type2: TypeId, isAssignableFrom: (TypeId, TypeId) -> bool)
  {
    isAssignableFrom(type1, type2) || isAssignableFrom(type2, type1)
  }

  lemma RelatedSymmetric(a: TypeId, b: TypeId, isAssignableFrom: (TypeId, TypeId) -> bool)
    ensures AreTypesRelated(a, b, isAssignableFrom) == AreTypesRelated(b, a, isAssignableFrom)
  {
  }

  /** The inner loop raises its flag: some declared type other than `e` is related to `e`. */
  predicate HasRelatedOther(s: set<TypeId>, e: TypeId, isAssignableFrom: (TypeId, TypeId) -> bool)
  {
    exists d :: d in s && d != e && AreTypesRelated(d, e, isAssignableFrom)
  }

  /** What one consumer key with declared set `s` contributes to the result. */
  function Yields(s: set<TypeId>, k: TypeId, e: TypeId, isAssignableFrom: (TypeId, TypeId) -> bool): seq<TypeId>
  {
    (if e in s then [k] else []) + (if HasRelatedOther(s, e, isAssignableFrom) then [k] else [])
  }

  /** The sequence of keys yielded when the keys `keys` are enumerated over the sets of `m`. */
  function PolyMatches(m: map<TypeId, set<TypeId>>, keys: seq<TypeId>, e: TypeId,
                       isAssignableFrom: (TypeId, TypeId) -> bool): seq<TypeId>
  {
    if keys == [] then []
    else PolyMatches(m, DropLast(keys), e, isAssignableFrom)
         + Yields(Declared(m, Last(keys)), Last(keys), e, isAssignableFrom)
  }

  /**
   * The sets after the outer loop has visited the keys of `keys` in order:
   * `e` is written into the set of each key whose flag was raised.
   */
  function MemoisedOn(m: map<TypeId, set<TypeId>>, keys: seq<TypeId>, e: TypeId,
                      isAssignableFrom: (TypeId, TypeId) -> bool): map<TypeId, set<TypeId>>
  {
    if keys == [] then m
    else
      var w := MemoisedOn(m, DropLast(keys), e, isAssignableFrom);
      var k := Last(keys);
      if k in m && HasRelatedOther(m[k], e, isAssignableFrom) then w[k := Declared(w, k) + {e}] else w
  }

  /** The sets after a complete lookup of `e`. */
  function Memoised(m: map<TypeId, set<TypeId>>, e: TypeId,
                    isAssignableFrom: (TypeId, TypeId) -> bool): map<TypeId, set<TypeId>>
  {
    map k | k in m :: if HasRelatedOther(m[k], e, isAssignableFrom) then m[k] + {e} else m[k]
  }

  /** Key by key: the visited keys whose flag was raised hold `e` as well, every other set is as it was. */
  lemma {:induction false} MemoisedOnKey(m: map<TypeId, set<TypeId>>, keys: seq<TypeId>, e: TypeId,
                                         isAssignableFrom: (TypeId, TypeId) -> bool, k: TypeId)
    ensures k in MemoisedOn(m, keys, e, isAssignableFrom) <==> k in m
    ensures k in m ==> MemoisedOn(m, keys, e, isAssignableFrom)[k]
                       == if k in keys && HasRelatedOther(m[k], e, isAssignableFrom) then m[k] + {e} else m[k]
  {
    if keys != [] {
      LastSplit(keys);
      MemoisedOnKey(m, DropLast(keys), e, isAssignableFrom, k);
      MemoisedOnKey(m, DropLast(keys), e, isAssignableFrom, Last(keys));
    }
  }

  /** Visiting every key of the dictionary is a complete lookup. */
  lemma MemoisedOnAll(m: map<TypeId, set<TypeId>>, keys: seq<TypeId>, e: TypeId,
                      isAssignableFrom: (TypeId, TypeId) -> bool)
    requires forall k :: k in m ==> k in keys
    ensures MemoisedOn(m, keys, e, isAssignableFrom) == Memoised(m, e, isAssignableFrom)
  {
    forall k
      ensures k in MemoisedOn(m, keys, e, isAssignableFrom) <==> k in m
      ensures k in m ==> MemoisedOn(m, keys, e, isAssignableFrom)[k] == Memoised(m, e, isAssignableFrom)[k]
    {
      MemoisedOnKey(m, keys, e, isAssignableFrom, k);
    }
  }

  /** Exactly the keys with an exact hit or a related declared type are yielded. */
  lemma {:induction false} PolyMatchesMembership(m: map<TypeId, set<TypeId>>, keys: seq<TypeId>, e: TypeId,
                                                 isAssignableFrom: (TypeId, TypeId) -> bool, c: TypeId)
    ensures c in PolyMatches(m, keys, e, isAssignableFrom) <==>
            c in keys && (e in Declared(m, c) || HasRelatedOther(Declared(m, c), e, isAssignableFrom))
  {
    if keys != [] {
      LastSplit(keys);
      PolyMatchesMembership(m, DropLast(keys), e, isAssignableFrom, c);
    }
  }

  lemma PolyMatchesMembershipAll(d: Dictionary, e: TypeId, isAssignableFrom: (TypeId, TypeId) -> bool)
    requires WellFormed(d)
    ensures forall c :: c in PolyMatches(d.entries, d.order, e, isAssignableFrom) <==>
              (c in d.entries && (e in d.entries[c] || HasRelatedOther(d.entries[c], e, isAssignableFrom)))
  {
    forall c {
      PolyMatchesMembership(d.entries, d.order, e, isAssignableFrom, c);
    }
  }

  /** One step of the outer loop: visiting key `i` after the keys before it. */
  lemma OuterStep(m: map<TypeId, set<TypeId>>, keys: seq<TypeId>, i: nat, e: TypeId,
                  isAssignableFrom: (TypeId, TypeId) -> bool)
    requires i < |keys|
    ensures var w := MemoisedOn(m, keys[..i], e, isAssignableFrom);
            MemoisedOn(m, keys[..i + 1], e, isAssignableFrom)
            == if keys[i] in m && HasRelatedOther(m[keys[i]], e, isAssignableFrom) then w[keys[i] := Declared(w, keys[i]) + {e}] else w
    ensures PolyMatches(m, keys[..i + 1], e, isAssignableFrom)
         == PolyMatches(m, keys[..i], e, isAssignableFrom) + Yields(Declared(m, keys[i]), keys[i], e, isAssignableFrom)
  {
    PrefixStep(keys, i);
  }

  /** One key of distinct keys: its set is still the declared one before its turn, and its turn adds `e` exactly when the flag is raised. */
  lemma KeyStep(m: map<TypeId, set<TypeId>>, keys: seq<TypeId>, i: nat, e: TypeId,
                isAssignableFrom: (TypeId, TypeId) -> bool)
    requires i < |keys| && Distinct(keys) && keys[i] in m
    ensures var w := MemoisedOn(m, keys[..i], e, isAssignableFrom);
            && keys[i] in w && w[keys[i]] == m[keys[i]]
            && MemoisedOn(m, keys[..i + 1], e, isAssignableFrom)
               == if HasRelatedOther(m[keys[i]], e, isAssignableFrom) then w[keys[i] := m[keys[i]] + {e}] else w
  {
    DistinctNotInPrefix(keys, i);
    MemoisedOnKey(m, keys[..i], e, isAssignableFrom, keys[i]);
    OuterStep(m, keys, i, e, isAssignableFrom);
  }

  /**
   * The state of a polymorphic enumeration over the keys of `m` in the order
   * `keys`, after the outer loop has passed the first `next` keys: the sets
   * `w` hold the write-backs of those keys, and `ys` is what has been
   * yielded. `pending` is the flag of key `next` when the enumeration is
   * suspended at that key's exact-hit `yield return`.
   */
  ghost predicate Suspension(m: map<TypeId, set<TypeId>>, keys: seq<TypeId>, e: TypeId,
                             isAssignableFrom: (TypeId, TypeId) -> bool, next: nat, pending: Option<bool>,
                             w: map<TypeId, set<TypeId>>, ys: seq<TypeId>)
  {
    && WellFormed(Dictionary(m, keys)) && next <= |keys|
    && w == MemoisedOn(m, keys[..next], e, isAssignableFrom)
    && match pending
       case None => ys == PolyMatches(m, keys[..next], e, isAssignableFrom)
       case Some(flag) =>
         && next < |keys| && keys[next] in m && e in m[keys[next]]
         && flag == HasRelatedOther(m[keys[next]], e, isAssignableFrom)
         && ys == PolyMatches(m, keys[..next], e, isAssignableFrom) + [keys[next]]
  }

  /** Resuming after an exact hit: the write-back of the key when its flag is raised, and the related-type yield with it. */
  lemma ResumeStep(m: map<TypeId, set<TypeId>>, keys: seq<TypeId>, e: TypeId,
                   isAssignableFrom: (TypeId, TypeId) -> bool, i: nat, flag: bool,
                   w: map<TypeId, set<TypeId>>, ys: seq<TypeId>)
    requires Suspension(m, keys, e, isAssignableFrom, i, Some(flag), w, ys)
    ensures i < |keys| && keys[i] in w
    ensures flag ==> Suspension(m, keys, e, isAssignableFrom, i + 1, None, w[keys[i] := w[keys[i]] + {e}], ys + [keys[i]])
    ensures !flag ==> Suspension(m, keys, e, isAssignableFrom, i + 1, None, w, ys)
  {
    KeyStep(m, keys, i, e, isAssignableFrom);
    ExactHitYields(m, keys, i, e, isAssignableFrom);
  }

  /**
   * Visiting key `i`: on an exact hit the enumeration suspends there with
   * the flag of the key's other types; otherwise the key is written back
   * and yielded when the flag is raised, and passed over when not.
   */
  lemma VisitStep(m: map<TypeId, set<TypeId>>, keys: seq<TypeId>, e: TypeId,
                  isAssignableFrom: (TypeId, TypeId) -> bool, i: nat,
                  w: map<TypeId, set<TypeId>>, ys: seq<TypeId>)
    requires Suspension(m, keys, e, isAssignableFrom, i, None, w, ys) && i < |keys|
    ensures keys[i] in w
    ensures var k, s := keys[i], w[keys[i]];
            && (e in s ==> Suspension(m, keys, e, isAssignableFrom, i, Some(HasRelatedOther(s, e, isAssignableFrom)), w, ys + [k]))
            && (e !in s && HasRelatedOther(s, e, isAssignableFrom) ==>
                  Suspension(m, keys, e, isAssignableFrom, i + 1, None, w[k := s + {e}], ys + [k]))
            && (e !in s && !HasRelatedOther(s, e, isAssignableFrom) ==>
                  Suspension(m, keys, e, isAssignableFrom, i + 1, None, w, ys))
  {
    KeyStep(m, keys, i, e, isAssignableFrom);
    if e !in m[keys[i]] {
      MissYields(m, keys, i, e, isAssignableFrom);
    }
  }

  /** Every consumer the exact provider finds, the polymorphic one finds too. */
  lemma ExactIncludedInPolymorphic(m: map<TypeId, set<TypeId>>, keys: seq<TypeId>, e: TypeId,
                                   isAssignableFrom: (TypeId, TypeId) -> bool, c: TypeId)
    requires c in ExactMatches(m, keys, e)
    ensures c in PolyMatches(m, keys, e, isAssignableFrom)
  {
    ExactMatchesMembership(m, keys, e, c);
    PolyMatchesMembership(m, keys, e, isAssignableFrom, c);
  }

  /** The number of reasons a set gives to yield its key: an exact hit, a related other type. */
  function Reasons(s: set<TypeId>, e: TypeId, isAssignableFrom: (TypeId, TypeId) -> bool): nat
  {
    (if e in s then 1 else 0) + (if HasRelatedOther(s, e, isAssignableFrom) then 1 else 0)
  }

  /**
   * How often a key is yielded: once per reason (exact hit, related other type),
   * so never more than twice when keys are enumerated once.
   */
  lemma {:induction false} PolyMatchesCount(m: map<TypeId, set<TypeId>>, keys: seq<TypeId>, e: TypeId,
                                            isAssignableFrom: (TypeId, TypeId) -> bool, c: TypeId)
    requires Distinct(keys)
    ensures multiset(PolyMatches(m, keys, e, isAssignableFrom))[c] ==
            if c in keys then Reasons(Declared(m, c), e, isAssignableFrom) else 0
    ensures multiset(PolyMatches(m, keys, e, isAssignableFrom))[c] <= 2
  {
    if keys != [] {
      LastSplit(keys);
      var init, k := DropLast(keys), Last(keys);
      DistinctDropLast(keys);
      PolyMatchesCount(m, init, e, isAssignableFrom, c);
      assert multiset(PolyMatches(m, keys, e, isAssignableFrom))
          == multiset(PolyMatches(m, init, e, isAssignableFrom))
           + multiset(Yields(Declared(m, k), k, e, isAssignableFrom));
    }
  }

  /** Adding `e` to a set does not change whether another type related to `e` is in it. */
  lemma HasRelatedOtherWithSelf(s: set<TypeId>, e: TypeId, isAssignableFrom: (TypeId, TypeId) -> bool)
    ensures HasRelatedOther(s + {e}, e, isAssignableFrom) == HasRelatedOther(s, e, isAssignableFrom)
  {
    if HasRelatedOther(s + {e}, e, isAssignableFrom) {
      var d :| d in s + {e} && d != e && AreTypesRelated(d, e, isAssignableFrom);
      assert d in s;
    }
  }

  /** Sets only grow, and only by the looked-up type. */
  lemma MemoisedGrows(m: map<TypeId, set<TypeId>>, e: TypeId, isAssignableFrom: (TypeId, TypeId) -> bool)
    ensures Grows(m, Memoised(m, e, isAssignableFrom))
    ensures forall k :: k in m ==> Memoised(m, e, isAssignableFrom)[k] <= m[k] + {e}
  {
  }

  /** A consumer with neither an exact hit nor a related type is not yielded and its set is unchanged. */
  lemma UnrelatedUntouched(d: Dictionary, e: TypeId, isAssignableFrom: (TypeId, TypeId) -> bool, c: TypeId)
    requires WellFormed(d) && c in d.entries
    requires e !in d.entries[c] && forall t :: t in d.entries[c] ==> !AreTypesRelated(t, e, isAssignableFrom)
    ensures c !in PolyMatches(d.entries, d.order, e, isAssignableFrom)
    ensures Memoised(d.entries, e, isAssignableFrom)[c] == d.entries[c]
  {
    PolyMatchesMembership(d.entries, d.order, e, isAssignableFrom, c);
  }

  /** A second lookup of the same type memoises nothing more. */
  lemma MemoisedIdempotent(m: map<TypeId, set<TypeId>>, e: TypeId, isAssignableFrom: (TypeId, TypeId) -> bool)
    ensures Memoised(Memoised(m, e, isAssignableFrom), e, isAssignableFrom) == Memoised(m, e, isAssignableFrom)
  {
    var m1 := Memoised(m, e, isAssignableFrom);
    forall k | k in m
      ensures HasRelatedOther(m1[k], e, isAssignableFrom) == HasRelatedOther(m[k], e, isAssignableFrom)
    {
      HasRelatedOtherWithSelf(m[k], e, isAssignableFrom);
    }
  }

  /** After a lookup, every consumer it yielded is an exact hit for the looked-up type. */
  lemma MemoisedExactHit(d: Dictionary, e: TypeId, isAssignableFrom: (TypeId, TypeId) -> bool, c: TypeId)
    requires WellFormed(d)
    requires c in PolyMatches(d.entries, d.order, e, isAssignableFrom)
    ensures c in ExactMatches(Memoised(d.entries, e, isAssignableFrom), d.order, e)
  {
    PolyMatchesMembership(d.entries, d.order, e, isAssignableFrom, c);
    ExactMatchesMembership(Memoised(d.entries, e, isAssignableFrom), d.order, e, c);
  }

  /**
   * Yielded twice: once the flag has memoised `e` into a consumer's set, the
   * next lookup of `e` finds it both as an exact hit and through the related type.
   */
  lemma RepeatLookupYieldsTwice(d: Dictionary, e: TypeId, isAssignableFrom: (TypeId, TypeId) -> bool, c: TypeId)
    requires WellFormed(d) && c in d.entries
    requires HasRelatedOther(d.entries[c], e, isAssignableFrom)
    ensures multiset(PolyMatches(Memoised(d.entries, e, isAssignableFrom), d.order, e, isAssignableFrom))[c] == 2
  {
    var m1 := Memoised(d.entries, e, isAssignableFrom);
    HasRelatedOtherWithSelf(d.entries[c], e, isAssignableFrom);
    assert Declared(m1, c) == d.entries[c] + {e};
    PolyMatchesCount(m1, d.order, e, isAssignableFrom, c);
  }

  /** Memoisation keeps every entry non-empty and the dictionary well formed. */
  lemma MemoisedPreserves(d: Dictionary, e: TypeId, isAssignableFrom: (TypeId, TypeId) -> bool)
    requires WellFormed(d) && NonEmptyEntries(d.entries)
    ensures WellFormed(Dictionary(Memoised(d.entries, e, isAssignableFrom), d.order))
    ensures NonEmptyEntries(Memoised(d.entries, e, isAssignableFrom))
  {
  }

  /**
   * The inner loop over one consumer's set: whether it meets `e` itself (and
   * yields), and whether it raises the flag for a related type other than `e`.
   */
  method ScanConsumedTypes(values: set<TypeId>, e: TypeId, isAssignableFrom: (TypeId, TypeId) -> bool)
    returns (hit: bool, hasRelated: bool)
    ensures hit == (e in values)
    ensures hasRelated == HasRelatedOther(values, e, isAssignableFrom)
  {
    var rest := values;
    hit, hasRelated := false, false;
    while rest != {}
      invariant rest <= values
      invariant hit == (e in values - rest)
      invariant hasRelated == HasRelatedOther(values - rest, e, isAssignableFrom)
      decreases |rest|
    {
      var d :| d in rest;
      if d == e {
        hit := true;
      } else if AreTypesRelated(d, e, isAssignableFrom) {
        hasRelated := true;
      }
      assert values - (rest - {d}) == (values - rest) + {d};
      rest := rest - {d};
    }
    assert values - rest == values;
  }

  /** The result follows enumeration order: enumerating a concatenation concatenates the yields. */
  lemma {:induction false} PolyMatchesAppend(m: map<TypeId, set<TypeId>>, a: seq<TypeId>, b: seq<TypeId>, e: TypeId,
                                             isAssignableFrom: (TypeId, TypeId) -> bool)
    ensures PolyMatches(m, a + b, e, isAssignableFrom) == PolyMatches(m, a, e, isAssignableFrom) + PolyMatches(m, b, e, isAssignableFrom)
  {
    if b != [] {
      var init, k := DropLast(b), Last(b);
      LastSplit(b);
      assert a + b == (a + init) + [k];
      DropLastAppend(a + init, k);
      PolyMatchesAppend(m, a, init, e, isAssignableFrom);
      var y := Yields(Declared(m, k), k, e, isAssignableFrom);
      assert PolyMatches(m, a + b, e, isAssignableFrom) == PolyMatches(m, a + init, e, isAssignableFrom) + y;
      assert PolyMatches(m, b, e, isAssignableFrom) == PolyMatches(m, init, e, isAssignableFrom) + y;
    } else {
      assert a + b == a;
    }
  }

  /** Enumerating more keys never yields fewer. */
  lemma PolyMatchesGrow(m: map<TypeId, set<TypeId>>, keys: seq<TypeId>, i: nat, j: nat, e: TypeId,
                        isAssignableFrom: (TypeId, TypeId) -> bool)
    requires i <= j <= |keys|
    ensures |PolyMatches(m, keys[..i], e, isAssignableFrom)| <= |PolyMatches(m, keys[..j], e, isAssignableFrom)|
  {
    assert keys[..j] == keys[..i] + keys[i..j];
    PolyMatchesAppend(m, keys[..i], keys[i..j], e, isAssignableFrom);
  }

  /**
   * The sets while the enumeration of `keys` is suspended after its `n`-th
   * `yield return` (before the first when `n` is 0), or has finished when `n`
   * counts all of them. The write-back for a key runs just before the
   * related-type `yield` of that key, so it has run for every key whose
   * yields have all been delivered, and for no key after the suspension point.
   */
  function Suspended(m: map<TypeId, set<TypeId>>, keys: seq<TypeId>, e: TypeId,
                     isAssignableFrom: (TypeId, TypeId) -> bool, n: nat): map<TypeId, set<TypeId>>
  {
    if keys == [] then m
    else
      var init := DropLast(keys);
      if n <= |PolyMatches(m, init, e, isAssignableFrom)| then Suspended(m, init, e, isAssignableFrom, n)
      else if n < |PolyMatches(m, keys, e, isAssignableFrom)| then MemoisedOn(m, init, e, isAssignableFrom)
      else MemoisedOn(m, keys, e, isAssignableFrom)
  }

  /** Before the first yield nothing has been written. */
  lemma {:induction false} SuspendedZero(m: map<TypeId, set<TypeId>>, keys: seq<TypeId>, e: TypeId,
                                         isAssignableFrom: (TypeId, TypeId) -> bool)
    ensures Suspended(m, keys, e, isAssignableFrom, 0) == m
  {
    if keys != [] {
      SuspendedZero(m, DropLast(keys), e, isAssignableFrom);
    }
  }

  /** Suspended inside the yields of the last key. */
  lemma SuspendedLast(m: map<TypeId, set<TypeId>>, keys: seq<TypeId>, e: TypeId,
                      isAssignableFrom: (TypeId, TypeId) -> bool, n: nat)
    requires keys != [] && |PolyMatches(m, DropLast(keys), e, isAssignableFrom)| < n
    ensures Suspended(m, keys, e, isAssignableFrom, n)
         == if n < |PolyMatches(m, keys, e, isAssignableFrom)| then MemoisedOn(m, DropLast(keys), e, isAssignableFrom)
            else MemoisedOn(m, keys, e, isAssignableFrom)
  {
  }

  /** Suspended before the yields of the last key. */
  lemma SuspendedEarlier(m: map<TypeId, set<TypeId>>, keys: seq<TypeId>, e: TypeId,
                         isAssignableFrom: (TypeId, TypeId) -> bool, n: nat)
    requires keys != [] && n <= |PolyMatches(m, DropLast(keys), e, isAssignableFrom)|
    ensures Suspended(m, keys, e, isAssignableFrom, n) == Suspended(m, DropLast(keys), e, isAssignableFrom, n)
  {
  }

  /**
   * Suspended inside the yields of key `j`: after its last yield the key has
   * been visited in full, after its exact-hit yield with a related-type yield
   * still to come its write-back has not run yet.
   */
  lemma {:induction false} SuspendedAt(m: map<TypeId, set<TypeId>>, keys: seq<TypeId>, e: TypeId,
                                       isAssignableFrom: (TypeId, TypeId) -> bool, j: nat, n: nat)
    requires j < |keys|
    requires |PolyMatches(m, keys[..j], e, isAssignableFrom)| < n <= |PolyMatches(m, keys[..j + 1], e, isAssignableFrom)|
    ensures Suspended(m, keys, e, isAssignableFrom, n)
         == if n == |PolyMatches(m, keys[..j + 1], e, isAssignableFrom)| then MemoisedOn(m, keys[..j + 1], e, isAssignableFrom)
            else MemoisedOn(m, keys[..j], e, isAssignableFrom)
  {
    var init := DropLast(keys);
    if j + 1 == |keys| {
      assert keys[..j + 1] == keys && keys[..j] == init;
      SuspendedLast(m, keys, e, isAssignableFrom, n);
    } else {
      assert init[..j] == keys[..j] && init[..j + 1] == keys[..j + 1];
      PolyMatchesGrow(m, init, j + 1, |init|, e, isAssignableFrom);
      assert init[..|init|] == init;
      SuspendedEarlier(m, keys, e, isAssignableFrom, n);
      SuspendedAt(m, init, e, isAssignableFrom, j, n);
    }
  }

  /** Once every yield has been delivered, every key has been visited. */
  lemma {:induction false} SuspendedAll(m: map<TypeId, set<TypeId>>, keys: seq<TypeId>, e: TypeId,
                                        isAssignableFrom: (TypeId, TypeId) -> bool, n: nat)
    requires |PolyMatches(m, keys, e, isAssignableFrom)| <= n
    ensures Suspended(m, keys, e, isAssignableFrom, n) == MemoisedOn(m, keys, e, isAssignableFrom)
  {
    if keys != [] {
      var init, k := DropLast(keys), Last(keys);
      LastSplit(keys);
      if n <= |PolyMatches(m, init, e, isAssignableFrom)| {
        SuspendedAll(m, init, e, isAssignableFrom, n);
        assert !HasRelatedOther(Declared(m, k), e, isAssignableFrom);
        assert MemoisedOn(m, init, e, isAssignableFrom) == MemoisedOn(m, keys, e, isAssignableFrom);
      }
    }
  }

  /** A key the enumeration does not list keeps its set. */
  lemma {:induction false} SuspendedUnlisted(m: map<TypeId, set<TypeId>>, keys: seq<TypeId>, e: TypeId,
                                             isAssignableFrom: (TypeId, TypeId) -> bool, n: nat, k: TypeId)
    requires k in m && k !in keys
    ensures k in Suspended(m, keys, e, isAssignableFrom, n) && Suspended(m, keys, e, isAssignableFrom, n)[k] == m[k]
  {
    if keys != [] {
      LastSplit(keys);
      SuspendedUnlisted(m, DropLast(keys), e, isAssignableFrom, n, k);
      MemoisedOnKey(m, DropLast(keys), e, isAssignableFrom, k);
      MemoisedOnKey(m, keys, e, isAssignableFrom, k);
    }
  }

  /**
   * The sets of a suspended lookup, key by key: `e` has been written into
   * the set of `keys[i]` exactly when the flag is raised for it and the
   * enumeration has delivered every yield up to and including that key's;
   * every other set is as it was.
   */
  lemma {:induction false} SuspendedKey(m: map<TypeId, set<TypeId>>, keys: seq<TypeId>, e: TypeId,
                                        isAssignableFrom: (TypeId, TypeId) -> bool, n: nat, i: nat)
    requires Distinct(keys) && i < |keys| && keys[i] in m
    ensures keys[i] in Suspended(m, keys, e, isAssignableFrom, n)
    ensures Suspended(m, keys, e, isAssignableFrom, n)[keys[i]]
         == if HasRelatedOther(m[keys[i]], e, isAssignableFrom) && |PolyMatches(m, keys[..i + 1], e, isAssignableFrom)| <= n
            then m[keys[i]] + {e} else m[keys[i]]
  {
    var init, k := DropLast(keys), keys[i];
    LastSplit(keys);
    DistinctDropLast(keys);
    MemoisedOnKey(m, init, e, isAssignableFrom, k);
    MemoisedOnKey(m, keys, e, isAssignableFrom, k);
    if i + 1 == |keys| {
      assert keys[..i + 1] == keys;
      DistinctNotInPrefix(keys, i);
      assert keys[..i] == init;
      if n <= |PolyMatches(m, init, e, isAssignableFrom)| {
        SuspendedUnlisted(m, init, e, isAssignableFrom, n, k);
      }
    } else {
      assert init[i] == k && init[..i + 1] == keys[..i + 1];
      PolyMatchesGrow(m, init, i + 1, |init|, e, isAssignableFrom);
      assert init[..|init|] == init;
      SuspendedKey(m, init, e, isAssignableFrom, n, i);
    }
  }

  /** A suspended lookup only ever adds the looked-up type, and keeps every key. */
  lemma {:induction false} SuspendedGrows(m: map<TypeId, set<TypeId>>, keys: seq<TypeId>, e: TypeId,
                                          isAssignableFrom: (TypeId, TypeId) -> bool, n: nat)
    ensures Grows(m, Suspended(m, keys, e, isAssignableFrom, n))
    ensures forall k :: k in m ==> Suspended(m, keys, e, isAssignableFrom, n)[k] <= m[k] + {e}
  {
    if keys != [] {
      SuspendedGrows(m, DropLast(keys), e, isAssignableFrom, n);
      forall k | k in m
        ensures k in MemoisedOn(m, DropLast(keys), e, isAssignableFrom) && MemoisedOn(m, DropLast(keys), e, isAssignableFrom)[k] <= m[k] + {e}
        ensures k in MemoisedOn(m, keys, e, isAssignableFrom) && MemoisedOn(m, keys, e, isAssignableFrom)[k] <= m[k] + {e}
        ensures m[k] <= MemoisedOn(m, DropLast(keys), e, isAssignableFrom)[k] && m[k] <= MemoisedOn(m, keys, e, isAssignableFrom)[k]
      {
        MemoisedOnKey(m, DropLast(keys), e, isAssignableFrom, k);
        MemoisedOnKey(m, keys, e, isAssignableFrom, k);
      }
      forall k | k in MemoisedOn(m, DropLast(keys), e, isAssignableFrom) || k in MemoisedOn(m, keys, e, isAssignableFrom)
        ensures k in m
      {
        MemoisedOnKey(m, DropLast(keys), e, isAssignableFrom, k);
        MemoisedOnKey(m, keys, e, isAssignableFrom, k);
      }
    }
  }

  /** Between keys, the sets are those of the visited keys: the keys after the last yield add nothing. */
  lemma {:induction false} SuspendedPrefix(m: map<TypeId, set<TypeId>>, keys: seq<TypeId>, e: TypeId,
                                           isAssignableFrom: (TypeId, TypeId) -> bool, i: nat)
    requires i <= |keys|
    ensures Suspended(m, keys, e, isAssignableFrom, |PolyMatches(m, keys[..i], e, isAssignableFrom)|)
         == MemoisedOn(m, keys[..i], e, isAssignableFrom)
  {
    var n := |PolyMatches(m, keys[..i], e, isAssignableFrom)|;
    if i == |keys| {
      assert keys[..i] == keys;
      SuspendedAll(m, keys, e, isAssignableFrom, n);
    } else {
      var init := DropLast(keys);
      LastSplit(keys);
      assert init[..i] == keys[..i];
      PolyMatchesGrow(m, init, i, |init|, e, isAssignableFrom);
      assert init[..|init|] == init;
      SuspendedPrefix(m, init, e, isAssignableFrom, i);
    }
  }

  /** The yields of key `i` when its set holds `e`: the exact-hit yield, then the related-type one if the flag is raised. */
  lemma ExactHitYields(m: map<TypeId, set<TypeId>>, keys: seq<TypeId>, i: nat, e: TypeId,
                       isAssignableFrom: (TypeId, TypeId) -> bool)
    requires i < |keys| && keys[i] in m && e in m[keys[i]]
    ensures HasRelatedOther(m[keys[i]], e, isAssignableFrom) ==>
              PolyMatches(m, keys[..i + 1], e, isAssignableFrom) == PolyMatches(m, keys[..i], e, isAssignableFrom) + [keys[i]] + [keys[i]]
    ensures !HasRelatedOther(m[keys[i]], e, isAssignableFrom) ==>
              PolyMatches(m, keys[..i + 1], e, isAssignableFrom) == PolyMatches(m, keys[..i], e, isAssignableFrom) + [keys[i]]
  {
    OuterStep(m, keys, i, e, isAssignableFrom);
    var ys, k := PolyMatches(m, keys[..i], e, isAssignableFrom), keys[i];
    assert ys + [k] + [k] == ys + ([k] + [k]);
    assert ys + [k] == ys + ([k] + []);
  }

  /** The yields of key `i` when its set does not hold `e`: the related-type yield if the flag is raised. */
  lemma MissYields(m: map<TypeId, set<TypeId>>, keys: seq<TypeId>, i: nat, e: TypeId,
                   isAssignableFrom: (TypeId, TypeId) -> bool)
    requires i < |keys| && keys[i] in m && e !in m[keys[i]]
    ensures HasRelatedOther(m[keys[i]], e, isAssignableFrom) ==>
              PolyMatches(m, keys[..i + 1], e, isAssignableFrom) == PolyMatches(m, keys[..i], e, isAssignableFrom) + [keys[i]]
    ensures !HasRelatedOther(m[keys[i]], e, isAssignableFrom) ==>
              PolyMatches(m, keys[..i + 1], e, isAssignableFrom) == PolyMatches(m, keys[..i], e, isAssignableFrom)
  {
    OuterStep(m, keys, i, e, isAssignableFrom);
    var ys, k := PolyMatches(m, keys[..i], e, isAssignableFrom), keys[i];
    assert ys + ([] + [k]) == ys + [k];
    assert ys + ([] + []) == ys;
  }

  /** Between keys: what has been yielded is a prefix, and the sets are `Suspended` after it. */
  lemma BetweenKeys(m: map<TypeId, set<TypeId>>, keys: seq<TypeId>, i: nat, e: TypeId,
                    isAssignableFrom: (TypeId, TypeId) -> bool)
    requires i <= |keys|
    ensures var ys := PolyMatches(m, keys[..i], e, isAssignableFrom);
            var all := PolyMatches(m, keys, e, isAssignableFrom);
            |ys| <= |all| && ys == all[..|ys|]
            && MemoisedOn(m, keys[..i], e, isAssignableFrom) == Suspended(m, keys, e, isAssignableFrom, |ys|)
  {
    assert keys == keys[..i] + keys[i..];
    PolyMatchesAppend(m, keys[..i], keys[i..], e, isAssignableFrom);
    SuspendedPrefix(m, keys, e, isAssignableFrom, i);
  }

  /** At key `i`'s exact-hit yield, what has been yielded is the start of the complete enumeration. */
  lemma AtExactHitPrefix(m: map<TypeId, set<TypeId>>, keys: seq<TypeId>, i: nat, e: TypeId,
                         isAssignableFrom: (TypeId, TypeId) -> bool)
    requires i < |keys| && keys[i] in m && e in m[keys[i]]
    ensures var ys := PolyMatches(m, keys[..i], e, isAssignableFrom) + [keys[i]];
            var all := PolyMatches(m, keys, e, isAssignableFrom);
            |ys| <= |PolyMatches(m, keys[..i + 1], e, isAssignableFrom)| <= |all| && ys == all[..|ys|]
  {
    var ys := PolyMatches(m, keys[..i], e, isAssignableFrom) + [keys[i]];
    var upto := PolyMatches(m, keys[..i + 1], e, isAssignableFrom);
    ExactHitYields(m, keys, i, e, isAssignableFrom);
    assert ys == upto[..|ys|];
    assert keys == keys[..i + 1] + keys[i + 1..];
    PolyMatchesAppend(m, keys[..i + 1], keys[i + 1..], e, isAssignableFrom);
    var all := PolyMatches(m, keys, e, isAssignableFrom);
    assert all[..|upto|] == upto;
  }

  /**
   * At key `i`'s exact-hit yield: what has been yielded is a prefix, and the
   * sets are `Suspended` after it.
   */
  lemma AtExactHit(m: map<TypeId, set<TypeId>>, keys: seq<TypeId>, i: nat, e: TypeId,
                   isAssignableFrom: (TypeId, TypeId) -> bool)
    requires i < |keys| && keys[i] in m && e in m[keys[i]]
    ensures var ys := PolyMatches(m, keys[..i], e, isAssignableFrom) + [keys[i]];
            var all := PolyMatches(m, keys, e, isAssignableFrom);
            |ys| <= |all| && ys == all[..|ys|]
            && MemoisedOn(m, keys[..i], e, isAssignableFrom) == Suspended(m, keys, e, isAssignableFrom, |ys|)
  {
    var n := |PolyMatches(m, keys[..i], e, isAssignableFrom) + [keys[i]]|;
    AtExactHitPrefix(m, keys, i, e, isAssignableFrom);
    ExactHitYields(m, keys, i, e, isAssignableFrom);
    SuspendedAt(m, keys, e, isAssignableFrom, i, n);
    if n == |PolyMatches(m, keys[..i + 1], e, isAssignableFrom)| {
      OuterStep(m, keys, i, e, isAssignableFrom);
    }
  }

  class HashedPolymorphicConsumerTypesProvider {
    /** The dictionary it was constructed with, shared with its builder. */
    const consumers: ConsumerRegistry
    /** The runtime's type metadata, for `IsAssignableFrom`. */
    const reflection: Reflection

    constructor (consumers: ConsumerRegistry, reflection: Reflection)
      ensures this.consumers == consumers && this.reflection == reflection
    {
      this.consumers := consumers;
      this.reflection := reflection;
    }

    /**
     * `GetConsumerTypes(eventType)`: an iterator, so nothing is read or
     * written until the caller moves it; it starts before the first key.
     */
    method GetConsumerTypes(eventType: TypeId) returns (it: PolymorphicLookup)
      requires consumers.Valid()
      ensures fresh(it) && it.Valid() && it.yielded == []
      ensures it.consumers == consumers && it.eventType == eventType && it.isAssignableFrom == reflection.isAssignableFrom
      ensures it.start == consumers.entries && it.keys == consumers.order
    {
      it := new PolymorphicLookup(consumers, eventType, reflection.isAssignableFrom);
    }
  }

  /**
   * The enumeration `GetConsumerTypes(eventType)` returns: the state machine
   * of the iterator, over the dictionary object it shares with the builder.
   */
  class PolymorphicLookup {
    const consumers: ConsumerRegistry
    const eventType: TypeId
    const isAssignableFrom: (TypeId, TypeId) -> bool
    /** The key order and the sets when the enumeration started. */
    ghost const keys: seq<TypeId>
    ghost const start: map<TypeId, set<TypeId>>
    /** The position of the outer `foreach` in the key order. */
    var next: nat
    /** Suspended at the exact-hit `yield return` of key `next`, with the flag its inner loop raises. */
    var pending: Option<bool>
    /** `Current`: the key of the last `yield return`. */
    var current: TypeId
    /** The keys yielded so far. */
    ghost var yielded: seq<TypeId>

    ghost predicate Valid()
      reads this, consumers
    {
      && consumers.Valid() && consumers.order == keys
      && Suspension(start, keys, eventType, isAssignableFrom, next, pending, consumers.entries, yielded)
    }

    constructor (consumers: ConsumerRegistry, eventType: TypeId, isAssignableFrom: (TypeId, TypeId) -> bool)
      requires consumers.Valid()
      ensures Valid() && yielded == []
      ensures this.consumers == consumers && this.eventType == eventType && this.isAssignableFrom == isAssignableFrom
      ensures start == consumers.entries && keys == consumers.order
    {
      this.consumers := consumers;
      this.eventType := eventType;
      this.isAssignableFrom := isAssignableFrom;
      keys := consumers.order;
      start := consumers.entries;
      next := 0;
      pending := None;
      current := eventType;
      yielded := [];
      new;
      assert keys[..0] == [];
      assert MemoisedOn(start, keys[..0], eventType, isAssignableFrom) == start;
    }

    /**
     * What the caller sees: the keys yielded so far are the first keys of a
     * complete enumeration, and the sets are those of `Suspended` after that
     * many yields.
     */
    lemma Observed()
      requires Valid()
      ensures |yielded| <= |PolyMatches(start, keys, eventType, isAssignableFrom)|
      ensures yielded == PolyMatches(start, keys, eventType, isAssignableFrom)[..|yielded|]
      ensures consumers.entries == Suspended(start, keys, eventType, isAssignableFrom, |yielded|)
    {
      if pending.Some? {
        AtExactHit(start, keys, next, eventType, isAssignableFrom);
      } else {
        BetweenKeys(start, keys, next, eventType, isAssignableFrom);
      }
    }

    /**
     * `MoveNext()`: resume after the last `yield return` and run to the next
     * one (true, with `current` its key) or to the end of the keys (false).
     */
    method MoveNext() returns (more: bool)
      requires Valid()
      modifies this, consumers
      ensures Valid()
      ensures more ==> yielded == old(yielded) + [current]
      ensures !more ==> yielded == old(yielded) == PolyMatches(start, keys, eventType, isAssignableFrom)
    {
      more := false;
      if pending.Some? {
        more := Resume();
      }
      if !more {
        more := Seek();
      }
    }

    /**
     * Resuming at the exact-hit `yield return`: the rest of the inner loop,
     * then, when the flag was raised, the write-back and the second `yield`.
     */
    method Resume() returns (more: bool)
      requires Valid() && pending.Some?
      modifies this, consumers
      ensures Valid() && pending.None?
      ensures more ==> yielded == old(yielded) + [current]
      ensures !more ==> yielded == old(yielded)
    {
      var flag := pending.value;
      var k := consumers.order[next];
      ghost var w, ys := consumers.entries, yielded;
      ResumeStep(start, keys, eventType, isAssignableFrom, next, flag, w, ys);
      pending := None;
      next := next + 1;
      if flag {
        consumers.AddToSet(k, eventType);
        current := k;
        yielded := ys + [k];
        more := true;
      } else {
        more := false;
      }
    }

    /** The outer loop from key `next` on, up to the next `yield return` or the end of the keys. */
    method Seek() returns (more: bool)
      requires Valid() && pending.None?
      modifies this, consumers
      ensures Valid()
      ensures more ==> yielded == old(yielded) + [current]
      ensures !more ==> yielded == old(yielded) == PolyMatches(start, keys, eventType, isAssignableFrom)
    {
      more := false;
      while next < |consumers.order| && !more
        invariant Valid()
        invariant !more ==> pending.None? && yielded == old(yielded)
        invariant more ==> yielded == old(yielded) + [current]
        decreases |keys| - next, if more then 0 else 1
      {
        more := Visit();
      }
      if !more {
        assert keys[..next] == keys;
      }
    }

    /**
     * One key of the outer loop, up to its first `yield return`: the exact
     * hit suspends inside the inner loop; otherwise the flag decides the
     * write-back and the related-type `yield`, or the key yields nothing.
     */
    method Visit() returns (more: bool)
      requires Valid() && pending.None? && next < |keys|
      modifies this, consumers
      ensures Valid() && old(next) <= next
      ensures more ==> yielded == old(yielded) + [current]
      ensures !more ==> pending.None? && yielded == old(yielded) && next == old(next) + 1
    {
      var k := consumers.order[next];
      VisitStep(start, keys, eventType, isAssignableFrom, next, consumers.entries, yielded);
      var hit, hasRelated := ScanConsumedTypes(consumers.entries[k], eventType, isAssignableFrom);
      if hit {
        pending := Some(hasRelated);
        current := k;
        yielded := yielded + [k];
        more := true;
      } else {
        next := next + 1;
        if hasRelated {
          consumers.AddToSet(k, eventType);
          current := k;
          yielded := yielded + [k];
          more := true;
        } else {
          more := false;
        }
      }
    }
  }
}
