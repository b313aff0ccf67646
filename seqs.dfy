/** Small sequence helpers shared by the dispatch model. */
module Seqs {

  function Last<T>(s: seq<T>): T
    requires |s| > 0
  {
    s[|s| - 1]
  }

  function DropLast<T>(s: seq<T>): seq<T>
    requires |s| > 0
  {
    s[..|s| - 1]
  }

  /** No element occurs twice. */
  ghost predicate Distinct<T>(s: seq<T>)
  {
    forall i, j :: 0 <= i < j < |s| ==> s[i] != s[j]
  }

  lemma DropLastAppend<T>(s: seq<T>, x: T)
    ensures DropLast(s + [x]) == s && Last(s + [x]) == x
  {
  }

  lemma LastSplit<T>(s: seq<T>)
    requires |s| > 0
    ensures s == DropLast(s) + [Last(s)]
  {
  }

  lemma PrefixStep<T>(s: seq<T>, i: nat)
    requires i < |s|
    ensures s[..i + 1] == s[..i] + [s[i]]
    ensures DropLast(s[..i + 1]) == s[..i] && Last(s[..i + 1]) == s[i]
  {
  }

  /** Removing the last element keeps a sequence distinct, and the last element is not repeated before it. */
  lemma DistinctDropLast<T>(s: seq<T>)
    requires Distinct(s) && |s| > 0
    ensures Distinct(DropLast(s)) && Last(s) !in DropLast(s)
  {
    var init := DropLast(s);
    forall i | 0 <= i < |init| ensures init[i] != Last(s) {
      assert init[i] == s[i];
    }
  }

  /** The first element of a distinct sequence does not occur in its strict prefix. */
  lemma DistinctNotInPrefix<T>(s: seq<T>, i: nat)
    requires Distinct(s) && i < |s|
    ensures s[i] !in s[..i]
  {
  }

  /** In a distinct sequence every element occurs exactly once. */
  lemma {:induction false} DistinctOccursOnce<T>(s: seq<T>, x: T)
    requires Distinct(s)
    ensures multiset(s)[x] == if x in s then 1 else 0
  {
    if s != [] {
      LastSplit(s);
      DistinctDropLast(s);
      DistinctOccursOnce(DropLast(s), x);
      assert multiset(s) == multiset(DropLast(s)) + multiset{Last(s)};
    }
  }

  /** The two products the counting lemmas need, kept out of their contexts. */
  lemma SuccTimes(n: nat, w: nat)
    ensures (n + 1) * w == n * w + w
  {
  }

  lemma PositiveProduct(n: nat, w: nat)
    ensures n * w > 0 <==> n > 0 && w > 0
  {
  }

  /** Regrouping `before + (a + [x]) + b` after the parenthesised parts have been named. */
  lemma Regroup<T>(before: seq<T>, a: seq<T>, x: T, b: seq<T>, upto: seq<T>, whole: seq<T>)
    requires upto == a + [x] && whole == upto + b
    ensures before + upto == before + a + [x]
    ensures before + whole == before + a + [x] + b
  {
    assert before + (a + [x]) == before + a + [x];
    assert before + ((a + [x]) + b) == before + a + [x] + b;
  }

  /** A suffix of a suffix is a suffix. */
  lemma SuffixOfSuffix<T>(s: seq<T>, a: seq<T>, b: seq<T>)
    requires |a| <= |s| && a == s[|s| - |a|..]
    requires |b| <= |a| && b == a[|a| - |b|..]
    ensures b == s[|s| - |b|..]
  {
    assert s[|s| - |b|..] == s[|s| - |a|..][|a| - |b|..];
  }
}
