/** Runs: the length of the longest chain of consecutive ranks (A low, K high,
    no wrap-around) in the rank-sorted cards, when it is at least 3. */
module Runs {
  import opened GameTypes
  import opened Deck

  ghost predicate SortedByRank(s: seq<Card>)
  {
    forall i, j :: 0 <= i < j < |s| ==> RankIndex(s[i].rank) <= RankIndex(s[j].rank)
  }

  /** Puts c in front of the first card whose rank is not below c's. */
  function Insert(c: Card, sorted: seq<Card>): (r: seq<Card>)
    ensures |r| == |sorted| + 1
  {
    if sorted == [] || RankIndex(c.rank) <= RankIndex(sorted[0].rank) then [c] + sorted
    else [sorted[0]] + Insert(c, sorted[1..])
  }

  lemma {:induction false} InsertPermutes(c: Card, sorted: seq<Card>)
    ensures multiset(Insert(c, sorted)) == multiset(sorted) + multiset{c}
    decreases |sorted|
  {
    if !(sorted == [] || RankIndex(c.rank) <= RankIndex(sorted[0].rank)) {
      assert sorted == [sorted[0]] + sorted[1..];
      InsertPermutes(c, sorted[1..]);
    }
  }

  lemma {:induction false} InsertSorted(c: Card, sorted: seq<Card>)
    requires SortedByRank(sorted)
    ensures SortedByRank(Insert(c, sorted))
    ensures Insert(c, sorted)[0] == c || Insert(c, sorted)[0] == sorted[0]
    decreases |sorted|
  {
    if !(sorted == [] || RankIndex(c.rank) <= RankIndex(sorted[0].rank)) {
      var rest := sorted[1..];
      InsertSorted(c, rest);
      var tail := Insert(c, rest);
      var r := Insert(c, sorted);
      assert r == [sorted[0]] + tail;
      assert RankIndex(r[0].rank) <= RankIndex(tail[0].rank);
      forall i, j | 0 <= i < j < |r|
        ensures RankIndex(r[i].rank) <= RankIndex(r[j].rank)
      {
        if i > 0 {
          assert r[i] == tail[i - 1] && r[j] == tail[j - 1];
        } else {
          assert r[j] == tail[j - 1];
        }
      }
    }
  }

  /** The cards in ascending rank order; equal ranks keep their order, as
      JavaScript's Array.prototype.sort is stable. */
  function SortByRank(cards: seq<Card>): (sorted: seq<Card>)
    ensures multiset(sorted) == multiset(cards) && |sorted| == |cards|
  {
    if cards == [] then []
    else
      var r := Insert(cards[0], SortByRank(cards[1..]));
      InsertPermutes(cards[0], SortByRank(cards[1..]));
      assert cards == [cards[0]] + cards[1..];
      r
  }

  /** The sort yields ascending ranks. */
  lemma {:induction false} SortByRankSorted(cards: seq<Card>)
    ensures SortedByRank(SortByRank(cards))
    decreases |cards|
  {
    if cards != [] {
      SortByRankSorted(cards[1..]);
      InsertSorted(cards[0], SortByRank(cards[1..]));
    }
  }

  /** The card at k + 1 is exactly one rank above the card at k. */
  predicate Step(s: seq<Card>, k: nat)
    requires k + 1 < |s|
  {
    RankIndex(s[k + 1].rank) == RankIndex(s[k].rank) + 1
  }

  /** Length of the chain of +1 steps that starts at position i. */
  function ChainFrom(s: seq<Card>, i: nat): (n: nat)
    requires i < |s|
    ensures 1 <= n <= |s| - i
    decreases |s| - i
  {
    if i + 1 < |s| && Step(s, i) then 1 + ChainFrom(s, i + 1) else 1
  }

  /** The longest chain that starts before position n. */
  function Longest(s: seq<Card>, n: nat): nat
    requires n <= |s|
  {
    if n == 0 then 0
    else
      var prev, here := Longest(s, n - 1), ChainFrom(s, n - 1);
      if here > prev then here else prev
  }

  /** Only chains of three or more score. */
  function Threshold(len: nat): nat
  {
    if len >= 3 then len else 0
  }

  /** Keeping the larger of two lengths and then applying the threshold is
      keeping the second when it reaches 3 and beats the first's threshold. */
  lemma ThresholdOfMax(prev: nat, here: nat)
    ensures Threshold(if here > prev then here else prev)
            == if here >= 3 && here > Threshold(prev) then here else Threshold(prev)
  {
  }

  /** The runs score of a set of cards. */
  function RunsScore(cards: seq<Card>): nat
  {
    var s := SortByRank(cards);
    Threshold(Longest(s, |s|))
  }

  /** For each start position, follows +1 steps until one fails and keeps the
      longest chain of at least 3. */
  method CalculateRuns(cards: seq<Card>) returns (runs: nat)
    ensures runs == RunsScore(cards)
  {
    var maxRun := 0;
    var sortedCards := SortByRank(cards);
    for i := 0 to |sortedCards|
      invariant maxRun == Threshold(Longest(sortedCards, i))
    {
      var currentRun := RunFrom(sortedCards, i);
      ThresholdOfMax(Longest(sortedCards, i), currentRun);
      if currentRun >= 3 && currentRun > maxRun {
        maxRun := currentRun;
      }
    }
    runs := if maxRun >= 3 then maxRun else 0;
  }

  /** The inner loop of the runs count: follows +1 steps from position i
      until one fails. */
  method RunFrom(sortedCards: seq<Card>, i: nat) returns (currentRun: nat)
    requires i < |sortedCards|
    ensures currentRun == ChainFrom(sortedCards, i)
  {
    currentRun := 1;
    var j := i;
    while j < |sortedCards| - 1
      invariant i <= j < |sortedCards|
      invariant ChainFrom(sortedCards, i) == currentRun - 1 + ChainFrom(sortedCards, j)
    {
      if RankIndex(sortedCards[j + 1].rank) == RankIndex(sortedCards[j].rank) + 1 {
        currentRun := currentRun + 1;
      } else {
        break;
      }
      j := j + 1;
    }
  }

  /** Positions i .. i + len - 1 form a chain of +1 steps. */
  ghost predicate Consecutive(s: seq<Card>, i: nat, len: nat)
  {
    i + len <= |s| && forall k :: i <= k && k + 1 < i + len ==> Step(s, k)
  }

  lemma {:induction false} ChainFromIsMaximal(s: seq<Card>, i: nat, len: nat)
    requires i < |s|
    ensures Consecutive(s, i, ChainFrom(s, i))
    ensures Consecutive(s, i, len) ==> len <= ChainFrom(s, i)
    decreases |s| - i
  {
    if i + 1 < |s| && Step(s, i) {
      ChainFromIsMaximal(s, i + 1, if len > 0 then len - 1 else 0);
    }
  }

  lemma {:induction false} LongestIsMax(s: seq<Card>, n: nat)
    requires n <= |s|
    ensures forall i :: 0 <= i < n ==> ChainFrom(s, i) <= Longest(s, n)
    ensures n > 0 ==> exists i :: 0 <= i < n && ChainFrom(s, i) == Longest(s, n)
    ensures n == 0 ==> Longest(s, n) == 0
  {
    if n > 0 {
      LongestIsMax(s, n - 1);
    }
  }

  /** The runs score is 0 or the length L >= 3 of a chain of consecutive ranks
      in the sorted cards, no chain of three or more is longer, and L never
      exceeds the number of cards or the 13 ranks. */
  lemma RunsIsLongestChain(cards: seq<Card>)
    ensures RunsScore(cards) == 0 || 3 <= RunsScore(cards) <= |cards|
    ensures RunsScore(cards) <= 13
    ensures RunsScore(cards) > 0 ==> exists i :: Consecutive(SortByRank(cards), i, RunsScore(cards))
    ensures forall i, len :: len >= 3 && Consecutive(SortByRank(cards), i, len) ==> len <= RunsScore(cards)
  {
    var s := SortByRank(cards);
    var r := RunsScore(cards);
    LongestIsMax(s, |s|);
    if |s| > 0 {
      var i :| 0 <= i < |s| && ChainFrom(s, i) == Longest(s, |s|);
      ChainFromIsMaximal(s, i, 0);
      if r > 0 {
        assert Consecutive(s, i, r);
        ChainRankSpan(s, i, r);
      }
    }
    forall i, len | len >= 3 && Consecutive(s, i, len)
      ensures len <= r
    {
      ChainFromIsMaximal(s, i, len);
    }
  }

  /** Along a chain the rank index rises by one per card, so a chain spans
      len ranks and fits in 13. */
  lemma {:induction false} ChainRankSpan(s: seq<Card>, i: nat, len: nat)
    requires len >= 1 && Consecutive(s, i, len)
    ensures RankIndex(s[i + len - 1].rank) == RankIndex(s[i].rank) + len - 1
    ensures len <= 13
    decreases len
  {
    if len > 1 {
      assert Consecutive(s, i, len - 1);
      ChainRankSpan(s, i, len - 1);
      assert Step(s, i + len - 2);
    }
  }
  /** When no two cards are one rank apart, no chain is longer than one card
      and the runs score is 0. */
  lemma NoNeighbouringRanksNoRuns(cards: seq<Card>)
    requires forall i, j :: 0 <= i < |cards| && 0 <= j < |cards| ==>
               RankIndex(cards[j].rank) != RankIndex(cards[i].rank) + 1
    ensures RunsScore(cards) == 0
  {
    var s := SortByRank(cards);
    forall k | 0 <= k < |s|
      ensures ChainFrom(s, k) == 1
    {
      assert s[k] in multiset(cards);
      if k + 1 < |s| {
        assert s[k + 1] in multiset(cards);
      }
    }
    LongestIsMax(s, |s|);
  }
}
