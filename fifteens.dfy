/** Fifteens: two points for every set of cards (of size two or more) whose
    count values add up to 15. */
module Fifteens {
  import opened GameTypes
  import opened Deck

  /** Sum of the count values of a combination (the reduce over it). */
  function Sum(combination: seq<Card>): int
  {
    if combination == [] then 0 else CardValue(combination[0]) + Sum(combination[1..])
  }

  /** Every combination of `combos` with `c` put in front. */
  function Prepend(c: Card, combos: seq<seq<Card>>): (r: seq<seq<Card>>)
    ensures |r| == |combos| && forall k :: 0 <= k < |r| ==> r[k] == [c] + combos[k]
  {
    seq(|combos|, k requires 0 <= k < |combos| => [c] + combos[k])
  }

  /** `arr` mapped to one-card combinations. */
  function Singletons(arr: seq<Card>): (r: seq<seq<Card>>)
    ensures |r| == |arr| && forall k :: 0 <= k < |r| ==> r[k] == [arr[k]]
  {
    seq(|arr|, k requires 0 <= k < |arr| => [arr[k]])
  }

  /** The combinations of `size` cards taken from `arr` in index order: for
      size 1 the singletons, otherwise, for each start position i with at least
      size - 1 cards after it, arr[i] in front of every combination of
      size - 1 cards from arr[i+1..]. */
  function Combinations(arr: seq<Card>, size: nat): seq<seq<Card>>
    requires size >= 1
    decreases size, 1
  {
    if size == 1 then Singletons(arr) else CombinationsFrom(arr, size, 0)
  }

  /** The loop of Combinations from start position i on. */
  function CombinationsFrom(arr: seq<Card>, size: nat, i: nat): seq<seq<Card>>
    requires size >= 2 && i <= |arr|
    decreases size, 0, |arr| - i
  {
    if i + size > |arr| then []
    else Prepend(arr[i], Combinations(arr[i + 1..], size - 1)) + CombinationsFrom(arr, size, i + 1)
  }

  /** Reference count: the number of index subsets of `cards` with exactly k
      elements whose values add up to t (each card is either left out or taken). */
  function Ways(cards: seq<Card>, t: int, k: nat): nat
  {
    if cards == [] then (if t == 0 && k == 0 then 1 else 0)
    else Ways(cards[1..], t, k) + (if k == 0 then 0 else Ways(cards[1..], t - CardValue(cards[0]), k - 1))
  }

  /** Number of index subsets with between lo and hi elements summing to t. */
  function WaysBetween(cards: seq<Card>, t: int, lo: nat, hi: int): nat
    decreases hi - lo
  {
    if hi < lo then 0 else WaysBetween(cards, t, lo, hi - 1) + Ways(cards, t, hi)
  }

  /** The number of fifteens: index subsets of two or more cards summing to 15. */
  function FifteenSets(cards: seq<Card>): nat
  {
    WaysBetween(cards, 15, 2, |cards|)
  }

  /** Number of combinations in `combos` whose values add up to t. */
  function CountSum(combos: seq<seq<Card>>, t: int): nat
  {
    if combos == [] then 0
    else CountSum(combos[..|combos| - 1], t) + (if Sum(combos[|combos| - 1]) == t then 1 else 0)
  }

  lemma {:induction false} CountSumAppend(a: seq<seq<Card>>, b: seq<seq<Card>>, t: int)
    ensures CountSum(a + b, t) == CountSum(a, t) + CountSum(b, t)
    decreases |b|
  {
    if b == [] {
      assert a + b == a;
    } else {
      var b' := b[..|b| - 1];
      assert (a + b)[..|a + b| - 1] == a + b';
      CountSumAppend(a, b', t);
    }
  }

  lemma {:induction false} CountSumPrepend(c: Card, combos: seq<seq<Card>>, t: int)
    ensures CountSum(Prepend(c, combos), t) == CountSum(combos, t - CardValue(c))
    decreases |combos|
  {
    if combos != [] {
      var n := |combos|;
      assert Prepend(c, combos)[..n - 1] == Prepend(c, combos[..n - 1]);
      assert ([c] + combos[n - 1])[1..] == combos[n - 1];
      CountSumPrepend(c, combos[..n - 1], t);
    }
  }

  lemma {:induction false} WaysTooMany(cards: seq<Card>, t: int, k: nat)
    requires k > |cards|
    ensures Ways(cards, t, k) == 0
    decreases |cards|
  {
    if cards != [] {
      WaysTooMany(cards[1..], t, k);
      WaysTooMany(cards[1..], t - CardValue(cards[0]), k - 1);
    }
  }

  lemma {:induction false} WaysNone(cards: seq<Card>, t: int)
    ensures Ways(cards, t, 0) == if t == 0 then 1 else 0
    decreases |cards|
  {
    if cards != [] {
      WaysNone(cards[1..], t);
    }
  }

  lemma {:induction false} SingletonsCount(arr: seq<Card>, t: int)
    ensures CountSum(Singletons(arr), t) == Ways(arr, t, 1)
    decreases |arr|
  {
    if arr != [] {
      assert Singletons(arr) == [[arr[0]]] + Singletons(arr[1..]);
      CountSumAppend([[arr[0]]], Singletons(arr[1..]), t);
      assert [[arr[0]]][..0] == [];
      assert Sum([arr[0]]) == CardValue(arr[0]);
      SingletonsCount(arr[1..], t);
      WaysNone(arr[1..], t - CardValue(arr[0]));
    }
  }

  /** The combinations of `size` cards from arr that add up to t are exactly as
      many as the index subsets of that size that do. */
  lemma {:induction false} CombinationsCount(arr: seq<Card>, size: nat, t: int)
    requires size >= 1
    ensures CountSum(Combinations(arr, size), t) == Ways(arr, t, size)
    decreases size, 1
  {
    if size == 1 {
      SingletonsCount(arr, t);
    } else {
      CombinationsFromCount(arr, size, 0, t);
      assert arr[0..] == arr;
    }
  }

  lemma {:induction false} CombinationsFromCount(arr: seq<Card>, size: nat, i: nat, t: int)
    requires size >= 2 && i <= |arr|
    ensures CountSum(CombinationsFrom(arr, size, i), t) == Ways(arr[i..], t, size)
    decreases size, 0, |arr| - i
  {
    if i + size > |arr| {
      WaysTooMany(arr[i..], t, size);
    } else {
      CombinationsCount(arr[i + 1..], size - 1, t - CardValue(arr[i]));
      CombinationsFromCount(arr, size, i + 1, t);
      CombinationsFromStep(arr, size, i, t);
    }
  }

  /** One step of the loop: the combinations starting at arr[i] are those of
      size - 1 from arr[i+1..] (summing to t minus the value of arr[i]), and the
      later starts count the subsets of arr[i+1..] without arr[i]. */
  lemma CombinationsFromStep(arr: seq<Card>, size: nat, i: nat, t: int)
    requires size >= 2 && i + size <= |arr|
    requires CountSum(Combinations(arr[i + 1..], size - 1), t - CardValue(arr[i]))
             == Ways(arr[i + 1..], t - CardValue(arr[i]), size - 1)
    requires CountSum(CombinationsFrom(arr, size, i + 1), t) == Ways(arr[i + 1..], t, size)
    ensures CountSum(CombinationsFrom(arr, size, i), t) == Ways(arr[i..], t, size)
  {
    CombinationsFromUnfold(arr, size, i, t);
    WaysSuffixStep(arr, i, t, size);
  }

  /** The loop from position i: the combinations headed by arr[i], then those
      from position i + 1. */
  lemma CombinationsFromUnfold(arr: seq<Card>, size: nat, i: nat, t: int)
    requires size >= 2 && i + size <= |arr|
    ensures CountSum(CombinationsFrom(arr, size, i), t)
            == CountSum(Combinations(arr[i + 1..], size - 1), t - CardValue(arr[i]))
               + CountSum(CombinationsFrom(arr, size, i + 1), t)
  {
    CountSumPrependAppend(CombinationsFrom(arr, size, i), arr[i], Combinations(arr[i + 1..], size - 1),
                          CombinationsFrom(arr, size, i + 1), t);
  }

  /** One turn of the loop of getCombinations. */
  lemma CombinationsFromHead(arr: seq<Card>, size: nat, i: nat)
    requires size >= 2 && i + size <= |arr|
    ensures CombinationsFrom(arr, size, i)
            == Prepend(arr[i], Combinations(arr[i + 1..], size - 1)) + CombinationsFrom(arr, size, i + 1)
  {
  }

  /** The subsets of the cards from position i either leave arr[i] out or take it. */
  lemma WaysSuffixStep(arr: seq<Card>, i: nat, t: int, k: nat)
    requires i < |arr| && k >= 1
    ensures Ways(arr[i..], t, k) == Ways(arr[i + 1..], t, k) + Ways(arr[i + 1..], t - CardValue(arr[i]), k - 1)
  {
    WaysStep(arr[i..], t, k);
    assert arr[i..][1..] == arr[i + 1..];
  }

  /** The matches of c in front of `tail`, followed by `rest`. */
  lemma CountSumPrependAppend(all: seq<seq<Card>>, c: Card, tail: seq<seq<Card>>, rest: seq<seq<Card>>, t: int)
    requires all == Prepend(c, tail) + rest
    ensures CountSum(all, t) == CountSum(tail, t - CardValue(c)) + CountSum(rest, t)
  {
    CountSumPrepend(c, tail, t);
    CountSumAppend(Prepend(c, tail), rest, t);
  }

  /** Ways of a non-empty sequence in terms of its tail. */
  lemma WaysStep(cards: seq<Card>, t: int, k: nat)
    requires cards != [] && k >= 1
    ensures Ways(cards, t, k) == Ways(cards[1..], t, k) + Ways(cards[1..], t - CardValue(cards[0]), k - 1)
  {
  }

  /** Enumerates the combinations of every size from 2 to |cards| and adds 2
      for each that sums to 15. */
  method CalculateFifteens(cards: seq<Card>) returns (count: nat)
    ensures count == 2 * FifteenSets(cards)
    ensures count % 2 == 0
  {
    count := 0;
    var i := 2;
    while i <= |cards|
      invariant 2 <= i <= (if |cards| < 2 then 2 else |cards| + 1)
      invariant count == 2 * WaysBetween(cards, 15, 2, i - 1)
    {
      var combinations := Combinations(cards, i);
      var k := 0;
      while k < |combinations|
        invariant 0 <= k <= |combinations|
        invariant count == 2 * WaysBetween(cards, 15, 2, i - 1) + 2 * CountSum(combinations[..k], 15)
      {
        assert combinations[..k + 1][..k] == combinations[..k];
        var sum := Sum(combinations[k]);
        if sum == 15 {
          count := count + 2;
        }
        k := k + 1;
      }
      assert combinations[..k] == combinations;
      CombinationsCount(cards, i, 15);
      i := i + 1;
    }
  }

  /** Removing the card at position i splits the subsets into those without it
      and those with it. */
  lemma {:induction false} WaysRemove(s: seq<Card>, i: nat, t: int, k: nat)
    requires i < |s|
    ensures Ways(s, t, k) == Ways(s[..i] + s[i + 1..], t, k)
              + (if k == 0 then 0 else Ways(s[..i] + s[i + 1..], t - CardValue(s[i]), k - 1))
    decreases i
  {
    if i == 0 {
      assert s[..0] + s[1..] == s[1..];
    } else {
      var rest, j := s[1..], i - 1;
      var s', rest' := s[..i] + s[i + 1..], rest[..j] + rest[j + 1..];
      RemoveLater(s, i);
      WaysRemove(rest, j, t, k);
      if k > 0 {
        WaysRemove(rest, j, t - CardValue(s[0]), k - 1);
      }
    }
  }

  /** The number of subsets of each size and sum depends only on the multiset
      of cards, not on their order. */
  lemma {:induction false} WaysPermutation(a: seq<Card>, b: seq<Card>, t: int, k: nat)
    requires multiset(a) == multiset(b)
    ensures Ways(a, t, k) == Ways(b, t, k)
    decreases |a|
  {
    if a == [] {
      assert |b| == |multiset(b)| == 0;
    } else {
      assert a[0] in multiset(b);
      var i :| 0 <= i < |b| && b[i] == a[0];
      var b' := b[..i] + b[i + 1..];
      RemoveMatching(a, b, i);
      WaysRemove(b, i, t, k);
      WaysPermutation(a[1..], b', t, k);
      if k > 0 {
        WaysPermutation(a[1..], b', t - CardValue(a[0]), k - 1);
      }
    }
  }

  lemma {:induction false} WaysBetweenPermutation(a: seq<Card>, b: seq<Card>, t: int, lo: nat, hi: int)
    requires multiset(a) == multiset(b)
    ensures WaysBetween(a, t, lo, hi) == WaysBetween(b, t, lo, hi)
    decreases hi - lo
  {
    if hi >= lo {
      WaysBetweenPermutation(a, b, t, lo, hi - 1);
      WaysPermutation(a, b, t, hi);
    }
  }

  /** The fifteens score does not depend on the order of the cards. */
  lemma FifteensOrderIndependent(a: seq<Card>, b: seq<Card>)
    requires multiset(a) == multiset(b)
    ensures FifteenSets(a) == FifteenSets(b)
  {
    assert |a| == |multiset(a)| == |multiset(b)| == |b|;
    WaysBetweenPermutation(a, b, 15, 2, |a|);
  }
  /** Binomial coefficient: the number of k-element subsets of n positions. */
  function Choose(n: nat, k: nat): nat
  {
    if k == 0 then 1 else if n == 0 then 0 else Choose(n - 1, k - 1) + Choose(n - 1, k)
  }

  /** There are n one-element subsets of n positions. */
  lemma {:induction false} ChooseOne(n: nat)
    ensures Choose(n, 1) == n
  {
    if n > 0 {
      ChooseOne(n - 1);
    }
  }

  /** There is no subset larger than the set. */
  lemma {:induction false} ChooseTooMany(n: nat, k: nat)
    requires k > n
    ensures Choose(n, k) == 0
  {
    if n > 0 {
      ChooseTooMany(n - 1, k - 1);
      ChooseTooMany(n - 1, k);
    }
  }

  /** getCombinations returns C(n, size) combinations of n cards. */
  lemma {:induction false} CombinationsLength(arr: seq<Card>, size: nat)
    requires size >= 1
    ensures |Combinations(arr, size)| == Choose(|arr|, size)
    decreases size, 1
  {
    if size == 1 {
      ChooseOne(|arr|);
    } else {
      CombinationsFromLength(arr, size, 0);
    }
  }

  /** The loop from position i returns C(n - i, size) combinations. */
  lemma {:induction false} CombinationsFromLength(arr: seq<Card>, size: nat, i: nat)
    requires size >= 2 && i <= |arr|
    ensures |CombinationsFrom(arr, size, i)| == Choose(|arr| - i, size)
    decreases size, 0, |arr| - i
  {
    if i + size > |arr| {
      ChooseTooMany(|arr| - i, size);
    } else {
      CombinationsLength(arr[i + 1..], size - 1);
      CombinationsFromLength(arr, size, i + 1);
      CombinationsFromHead(arr, size, i);
    }
  }

  /** When every card has the same value v, the k-subsets summing to t are all
      C(n, k) of them if t = v * k, and none otherwise. */
  lemma {:induction false} UniformWays(cards: seq<Card>, v: int, t: int, k: nat)
    requires forall i :: 0 <= i < |cards| ==> CardValue(cards[i]) == v
    ensures Ways(cards, t, k) == if t == v * k then Choose(|cards|, k) else 0
    decreases |cards|
  {
    if cards != [] {
      UniformWays(cards[1..], v, t, k);
      if k > 0 {
        UniformWays(cards[1..], v, t - v, k - 1);
        assert v * k == v * (k - 1) + v;
      }
    }
  }

  /** Cards of even value never add up to an odd total, 15 in particular. */
  lemma {:induction false} EvenValuesOddTarget(cards: seq<Card>, t: int, k: nat)
    requires forall i :: 0 <= i < |cards| ==> CardValue(cards[i]) % 2 == 0
    requires t % 2 == 1
    ensures Ways(cards, t, k) == 0
    decreases |cards|
  {
    if cards != [] {
      EvenValuesOddTarget(cards[1..], t, k);
      if k > 0 {
        EvenValuesOddTarget(cards[1..], t - CardValue(cards[0]), k - 1);
      }
    }
  }

  lemma {:induction false} EvenValuesNoFifteens(cards: seq<Card>, lo: nat, hi: int)
    requires forall i :: 0 <= i < |cards| ==> CardValue(cards[i]) % 2 == 0
    ensures WaysBetween(cards, 15, lo, hi) == 0
    decreases hi - lo
  {
    if hi >= lo {
      EvenValuesNoFifteens(cards, lo, hi - 1);
      EvenValuesOddTarget(cards, 15, hi);
    }
  }
}
