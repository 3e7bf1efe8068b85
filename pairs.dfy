/** Pairs: two points for every two cards of equal rank. */
module Pairs {
  import opened GameTypes
  import opened Deck

  /** Number of cards in s with the given rank. */
  function RankCount(s: seq<Card>, rank: Rank): nat
  {
    if s == [] then 0 else (if s[0].rank == rank then 1 else 0) + RankCount(s[1..], rank)
  }

  /** Number of index pairs i < j with cards[i].rank == cards[j].rank: for the
      first card the later cards matching it, then the pairs among the rest. */
  function PairCount(cards: seq<Card>): nat
  {
    if cards == [] then 0 else RankCount(cards[1..], cards[0].rank) + PairCount(cards[1..])
  }

  /** Scans every index pair i < j and adds 2 when the ranks agree. */
  method CalculatePairs(cards: seq<Card>) returns (count: nat)
    ensures count == 2 * PairCount(cards)
  {
    count := 0;
    for i := 0 to |cards|
      invariant count + 2 * PairCount(cards[i..]) == 2 * PairCount(cards)
    {
      assert cards[i..][1..] == cards[i + 1..];
      for j := i + 1 to |cards|
        invariant count + 2 * RankCount(cards[j..], cards[i].rank) + 2 * PairCount(cards[i + 1..])
                  == 2 * PairCount(cards)
      {
        assert cards[j..][1..] == cards[j + 1..];
        if cards[i].rank == cards[j].rank {
          count := count + 2;
        }
      }
    }
  }

  /** n cards of one rank make n(n-1)/2 pairs: three of a kind scores 6 and
      four of a kind 12. */
  lemma {:induction false} SameRankPairs(cards: seq<Card>)
    requires forall i, j :: 0 <= i < |cards| && 0 <= j < |cards| ==> cards[i].rank == cards[j].rank
    ensures 2 * PairCount(cards) == |cards| * (|cards| - 1)
    decreases |cards|
  {
    if cards != [] {
      AllOfRank(cards[1..], cards[0].rank);
      SameRankPairs(cards[1..]);
    }
  }

  lemma {:induction false} AllOfRank(s: seq<Card>, rank: Rank)
    requires forall i :: 0 <= i < |s| ==> s[i].rank == rank
    ensures RankCount(s, rank) == |s|
    decreases |s|
  {
    if s != [] {
      AllOfRank(s[1..], rank);
    }
  }

  lemma {:induction false} NoneOfRank(s: seq<Card>, rank: Rank)
    requires forall i :: 0 <= i < |s| ==> s[i].rank != rank
    ensures RankCount(s, rank) == 0
    decreases |s|
  {
    if s != [] {
      NoneOfRank(s[1..], rank);
    }
  }

  /** Appending a card adds one to the count of its own rank and nothing to the others. */
  lemma {:induction false} RankCountAppend(s: seq<Card>, c: Card, rank: Rank)
    ensures RankCount(s + [c], rank) == RankCount(s, rank) + (if c.rank == rank then 1 else 0)
    decreases |s|
  {
    if s != [] {
      assert (s + [c])[1..] == s[1..] + [c];
      RankCountAppend(s[1..], c, rank);
    }
  }

  lemma {:induction false} RankCountAtMostLength(s: seq<Card>, rank: Rank)
    ensures RankCount(s, rank) <= |s|
    decreases |s|
  {
    if s != [] {
      RankCountAtMostLength(s[1..], rank);
    }
  }

  /** Cards of pairwise different ranks score no pairs. */
  lemma {:induction false} DistinctRanksNoPairs(cards: seq<Card>)
    requires forall i, j :: 0 <= i < j < |cards| ==> cards[i].rank != cards[j].rank
    ensures PairCount(cards) == 0
    decreases |cards|
  {
    if cards != [] {
      NoneOfRank(cards[1..], cards[0].rank);
      DistinctRanksNoPairs(cards[1..]);
    }
  }

  lemma {:induction false} RankCountMultiset(a: seq<Card>, b: seq<Card>, rank: Rank)
    requires multiset(a) == multiset(b)
    ensures RankCount(a, rank) == RankCount(b, rank)
    decreases |a|
  {
    if a == [] {
      assert |b| == |multiset(b)| == 0;
    } else {
      assert a[0] in multiset(b);
      var i :| 0 <= i < |b| && b[i] == a[0];
      RemoveMatching(a, b, i);
      RankCountRemove(b, i, rank);
      RankCountMultiset(a[1..], b[..i] + b[i + 1..], rank);
    }
  }

  lemma {:induction false} RankCountRemove(s: seq<Card>, i: nat, rank: Rank)
    requires i < |s|
    ensures RankCount(s, rank) == RankCount(s[..i] + s[i + 1..], rank) + (if s[i].rank == rank then 1 else 0)
    decreases i
  {
    if i == 0 {
      assert s[..0] + s[1..] == s[1..];
    } else {
      var s' := s[..i] + s[i + 1..];
      assert s'[0] == s[0];
      assert s'[1..] == s[1..][..i - 1] + s[1..][i..];
      RankCountRemove(s[1..], i - 1, rank);
    }
  }

  lemma {:induction false} PairCountRemove(s: seq<Card>, i: nat)
    requires i < |s|
    ensures PairCount(s) == PairCount(s[..i] + s[i + 1..]) + RankCount(s[..i] + s[i + 1..], s[i].rank)
    decreases i
  {
    if i == 0 {
      assert s[..0] + s[1..] == s[1..];
    } else {
      var s' := s[..i] + s[i + 1..];
      var rest' := s[1..][..i - 1] + s[1..][i..];
      assert s'[0] == s[0];
      assert s'[1..] == rest';
      PairCountRemove(s[1..], i - 1);
      RankCountRemove(s[1..], i - 1, s[0].rank);
      // matches of s[i] among s' = matches of s[i] with s[0] plus among rest'
      assert RankCount(s', s[i].rank) == (if s[0].rank == s[i].rank then 1 else 0) + RankCount(rest', s[i].rank);
    }
  }

  /** The pairs score does not depend on the order of the cards. */
  lemma {:induction false} PairsOrderIndependent(a: seq<Card>, b: seq<Card>)
    requires multiset(a) == multiset(b)
    ensures PairCount(a) == PairCount(b)
    decreases |a|
  {
    if a == [] {
      assert |b| == |multiset(b)| == 0;
    } else {
      assert a[0] in multiset(b);
      var i :| 0 <= i < |b| && b[i] == a[0];
      var b' := b[..i] + b[i + 1..];
      RemoveMatching(a, b, i);
      PairCountRemove(b, i);
      RankCountMultiset(a[1..], b', a[0].rank);
      PairsOrderIndependent(a[1..], b');
    }
  }
}
