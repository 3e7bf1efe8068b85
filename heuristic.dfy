/** The computer opponent: which two cards to throw to the crib and which card
    to play. Fractional weights are scaled to integers: discard scores by 2,
    play scores by 10, which keeps the order of every pair of candidates. */
module Heuristic {
  import opened GameTypes
  import opened Deck
  import opened Pairs
  import opened Scoring

  /** The opponent's estimate of a hand is the show score itself. */
  method EvaluateHand(hand: seq<Card>, cut: Option<Card>) returns (r: Score)
    ensures r == HandScore(hand, cut)
    ensures cut.None? ==> r.Points?
  {
    r := CalculateHandScore(hand, cut);
  }

  /** The cards at positions k, k + 1, ... other than i and j, in order (the
      filter on the index). */
  function KeepFrom(hand: seq<Card>, i: nat, j: nat, k: nat): (r: seq<Card>)
    requires k <= |hand|
    ensures |r| == |hand| - k - (if k <= i < |hand| then 1 else 0) - (if k <= j < |hand| && j != i then 1 else 0)
    decreases |hand| - k
  {
    if k == |hand| then []
    else (if k != i && k != j then [hand[k]] else []) + KeepFrom(hand, i, j, k + 1)
  }

  /** The hand without the cards at positions i and j. */
  function Remaining(hand: seq<Card>, i: nat, j: nat): (r: seq<Card>)
    requires i < j < |hand|
    ensures |r| == |hand| - 2
  {
    KeepFrom(hand, i, j, 0)
  }

  /** Filtering out positions i < j leaves the three slices around them, so the
      kept cards and the thrown pair together are the hand. */
  lemma RemainingIsRest(hand: seq<Card>, i: nat, j: nat)
    requires i < j < |hand|
    ensures Remaining(hand, i, j) == hand[..i] + hand[i + 1..j] + hand[j + 1..]
    ensures multiset(Remaining(hand, i, j)) + multiset{hand[i], hand[j]} == multiset(hand)
  {
    KeepFromBefore(hand, i, j, 0);
    assert hand == hand[..i] + [hand[i]] + hand[i + 1..j] + [hand[j]] + hand[j + 1..];
  }

  /** Past both removed positions every card is kept. */
  lemma {:induction false} KeepFromAfter(hand: seq<Card>, i: nat, j: nat, k: nat)
    requires i < j < k <= |hand|
    ensures KeepFrom(hand, i, j, k) == hand[k..]
    decreases |hand| - k
  {
    if k < |hand| {
      KeepFromAfter(hand, i, j, k + 1);
      assert hand[k..] == [hand[k]] + hand[k + 1..];
    }
  }

  /** Between the two removed positions the cards up to j are kept, then the rest. */
  lemma {:induction false} KeepFromBetween(hand: seq<Card>, i: nat, j: nat, k: nat)
    requires i < k <= j < |hand|
    ensures KeepFrom(hand, i, j, k) == hand[k..j] + hand[j + 1..]
    decreases j - k
  {
    var tail := hand[j + 1..];
    if k == j {
      KeepFromAfter(hand, i, j, j + 1);
      assert hand[j..j] + tail == tail;
    } else {
      KeepFromBetween(hand, i, j, k + 1);
      var mid := hand[k + 1..j];
      assert hand[k..j] == [hand[k]] + mid;
      assert ([hand[k]] + mid) + tail == [hand[k]] + (mid + tail);
    }
  }

  lemma {:induction false} KeepFromBefore(hand: seq<Card>, i: nat, j: nat, k: nat)
    requires k <= i < j < |hand|
    ensures KeepFrom(hand, i, j, k) == hand[k..i] + (hand[i + 1..j] + hand[j + 1..])
    decreases i - k
  {
    var tail := hand[i + 1..j] + hand[j + 1..];
    if k == i {
      KeepFromBetween(hand, i, j, i + 1);
      assert hand[i..i] + tail == tail;
    } else {
      KeepFromBefore(hand, i, j, k + 1);
      var mid := hand[k + 1..i];
      assert hand[k..i] == [hand[k]] + mid;
      assert ([hand[k]] + mid) + tail == [hand[k]] + (mid + tail);
    }
  }

  /** Twice the candidate's score: twice the kept cards' score, plus the thrown
      pair's score for the dealer (the crib is theirs) or minus it otherwise. */
  function DiscardValue(hand: seq<Card>, i: nat, j: nat, isDealer: bool): int
    requires i < j < |hand|
  {
    var keep := 2 * HandScore(Remaining(hand, i, j), None).points;
    var crib := HandScore([hand[i]] + [hand[j]], None).points;
    if isDealer then keep + crib else keep - crib
  }

  /** The initial best discard score (-1, scaled by 2). */
  const NO_DISCARD: int := -2

  /** The value of every candidate pair, as one function of the two positions. */
  function DiscardValues(hand: seq<Card>, isDealer: bool): (nat, nat) -> int
  {
    (a: nat, b: nat) => if a < b < |hand| then DiscardValue(hand, a, b, isDealer) else 0
  }

  /** Pair (a, b) comes before pair (i, j) in the search order. */
  predicate Earlier(a: nat, b: nat, i: nat, j: nat)
  {
    a < i || (a == i && b < j)
  }

  /** Every pair of positions below n that comes before (i, j) has value at most best. */
  ghost predicate NoneAbove(value: (nat, nat) -> int, n: nat, i: nat, j: nat, best: int)
  {
    forall a, b :: 0 <= a < b < n && Earlier(a, b, i, j) ==> value(a, b) <= best
  }

  /** Every pair of positions below n that comes before (i, j) has value below best. */
  ghost predicate AllBelow(value: (nat, nat) -> int, n: nat, i: nat, j: nat, best: int)
  {
    forall a, b :: 0 <= a < b < n && Earlier(a, b, i, j) ==> value(a, b) < best
  }

  lemma NoneAboveStep(value: (nat, nat) -> int, n: nat, i: nat, j: nat, best: int, best': int)
    requires i < j < n && NoneAbove(value, n, i, j, best)
    requires best <= best' && value(i, j) <= best'
    ensures NoneAbove(value, n, i, j + 1, best')
  {
  }

  lemma NoneAboveNextRow(value: (nat, nat) -> int, n: nat, i: nat, best: int)
    requires NoneAbove(value, n, i, n, best)
    ensures NoneAbove(value, n, i + 1, i + 2, best)
  {
  }

  lemma NoneAboveIsBelow(value: (nat, nat) -> int, n: nat, i: nat, j: nat, best: int, score: int)
    requires NoneAbove(value, n, i, j, best) && best < score
    ensures AllBelow(value, n, i, j, score)
  {
  }

  /** The search state once every pair before (i, j) has been tried: no pair
      so far beats best; discard is [] while nothing has beaten the initial -1,
      and otherwise the first pair that reached best. */
  ghost predicate BestSoFar(value: (nat, nat) -> int, n: nat, i: nat, j: nat, discard: seq<nat>, best: int)
  {
    NoneAbove(value, n, i, j, best)
    && (discard == [] ==> best == NO_DISCARD)
    && (discard != [] ==> |discard| == 2 && discard[0] < discard[1] < n
                          && best == value(discard[0], discard[1]) && best > NO_DISCARD
                          && AllBelow(value, n, discard[0], discard[1], best))
  }

  /** Trying pair (i, j): a strictly better score takes its place, any other
      leaves the state as it is. */
  lemma SearchStep(value: (nat, nat) -> int, n: nat, i: nat, j: nat, discard: seq<nat>, best: int, score: int)
    requires i < j < n && BestSoFar(value, n, i, j, discard, best) && score == value(i, j)
    ensures score > best ==> BestSoFar(value, n, i, j + 1, [i, j], score)
    ensures score <= best ==> BestSoFar(value, n, i, j + 1, discard, best)
  {
    if score > best {
      NoneAboveIsBelow(value, n, i, j, best, score);
      NoneAboveStep(value, n, i, j, best, score);
    } else {
      NoneAboveStep(value, n, i, j, best, best);
    }
  }

  lemma SearchNextRow(value: (nat, nat) -> int, n: nat, i: nat, discard: seq<nat>, best: int)
    requires BestSoFar(value, n, i, n, discard, best)
    ensures BestSoFar(value, n, i + 1, i + 2, discard, best)
  {
    NoneAboveNextRow(value, n, i, best);
  }

  /** Once the rows run out every pair has been tried: [] means no pair beats
      -1, and otherwise the pair kept is the first of highest value. */
  lemma SearchDone(value: (nat, nat) -> int, n: nat, i: nat, discard: seq<nat>, best: int)
    requires n <= i + 1 && BestSoFar(value, n, i, i + 1, discard, best)
    ensures discard == [] <==> forall a, b :: 0 <= a < b < n ==> value(a, b) <= NO_DISCARD
    ensures discard != [] ==> |discard| == 2 && discard[0] < discard[1] < n
    ensures discard != [] ==> forall a, b :: 0 <= a < b < n ==> value(a, b) <= value(discard[0], discard[1])
    ensures discard != [] ==> forall a, b :: 0 <= a < b < n && Earlier(a, b, discard[0], discard[1]) ==>
              value(a, b) < value(discard[0], discard[1])
  {
    forall a, b | 0 <= a < b < n
      ensures value(a, b) <= best
    {
      assert Earlier(a, b, i, i + 1);
    }
  }

  /** The loop body of the discard search: evaluates the kept cards and the
      thrown pair without a cut and weighs the pair by the crib's owner. */
  method ScoreDiscard(hand: seq<Card>, i: nat, j: nat, isDealer: bool) returns (score: int)
    requires i < j < |hand|
    ensures score == DiscardValue(hand, i, j, isDealer)
  {
    var remainingHand := Remaining(hand, i, j);
    var discardHand := [hand[i]] + [hand[j]];
    var keep := EvaluateHand(remainingHand, None);
    var crib := EvaluateHand(discardHand, None);
    score := 2 * keep.points;
    if isDealer {
      score := score + crib.points;
    } else {
      score := score - crib.points;
    }
  }

  /** Tries every pair i < j in lexicographic order and keeps the first one of
      highest value; returns [] when no pair beats the initial -1. */
  method ChooseBestDiscard(hand: seq<Card>, isDealer: bool) returns (discard: seq<nat>)
    ensures var value := DiscardValues(hand, isDealer);
            discard == [] <==> forall i, j :: 0 <= i < j < |hand| ==> value(i, j) <= NO_DISCARD
    ensures discard != [] ==> |discard| == 2 && discard[0] < discard[1] < |hand|
    ensures var value := DiscardValues(hand, isDealer);
            discard != [] ==> forall i, j :: 0 <= i < j < |hand| ==> value(i, j) <= value(discard[0], discard[1])
    ensures var value := DiscardValues(hand, isDealer);
            discard != [] ==> forall i, j :: 0 <= i < j < |hand| && Earlier(i, j, discard[0], discard[1]) ==>
              value(i, j) < value(discard[0], discard[1])
  {
    discard := [];
    var bestScore := NO_DISCARD;
    var i := 0;
    while i < |hand| - 1
      invariant 0 <= i <= |hand|
      invariant BestSoFar(DiscardValues(hand, isDealer), |hand|, i, i + 1, discard, bestScore)
    {
      discard, bestScore := ScoreRow(hand, isDealer, i, discard, bestScore);
      SearchNextRow(DiscardValues(hand, isDealer), |hand|, i, discard, bestScore);
      i := i + 1;
    }
    SearchDone(DiscardValues(hand, isDealer), |hand|, i, discard, bestScore);
  }

  /** The inner loop of the discard search: tries the pairs (i, j) for every
      j > i, keeping a pair only when it strictly beats the best so far. */
  method ScoreRow(hand: seq<Card>, isDealer: bool, i: nat, discard: seq<nat>, bestScore: int)
    returns (discard': seq<nat>, bestScore': int)
    requires i + 1 < |hand| && BestSoFar(DiscardValues(hand, isDealer), |hand|, i, i + 1, discard, bestScore)
    ensures BestSoFar(DiscardValues(hand, isDealer), |hand|, i, |hand|, discard', bestScore')
  {
    ghost var value := DiscardValues(hand, isDealer);
    discard', bestScore' := discard, bestScore;
    for j := i + 1 to |hand|
      invariant BestSoFar(value, |hand|, i, j, discard', bestScore')
    {
      var score := ScoreDiscard(hand, i, j, isDealer);
      assert score == value(i, j);
      SearchStep(value, |hand|, i, j, discard', bestScore', score);
      if score > bestScore' {
        bestScore' := score;
        discard' := [i, j];
      }
    }
  }

  /** The card can be played without taking the count past 31. */
  predicate Playable(card: Card, count: int)
  {
    count + CardValue(card) <= 31
  }

  /** The positions from `from` on of the playable cards, in hand order. */
  function PlayableIndices(hand: seq<Card>, count: int, from: nat): (r: seq<nat>)
    requires from <= |hand|
    ensures |r| <= |hand| - from
    decreases |hand| - from
  {
    if from == |hand| then []
    else (if Playable(hand[from], count) then [from] else []) + PlayableIndices(hand, count, from + 1)
  }

  /** PlayableIndices lists, in increasing order, only positions from `from`
      on whose card is playable. */
  lemma {:induction false} PlayableIndicesSound(hand: seq<Card>, count: int, from: nat)
    requires from <= |hand|
    ensures forall m :: 0 <= m < |PlayableIndices(hand, count, from)| ==>
              from <= PlayableIndices(hand, count, from)[m] < |hand|
              && Playable(hand[PlayableIndices(hand, count, from)[m]], count)
    ensures forall m, n :: 0 <= m < n < |PlayableIndices(hand, count, from)| ==>
              PlayableIndices(hand, count, from)[m] < PlayableIndices(hand, count, from)[n]
    decreases |hand| - from
  {
    if from < |hand| {
      PlayableIndicesSound(hand, count, from + 1);
      if Playable(hand[from], count) {
        PlayableIndicesCons(hand, count, from, PlayableIndices(hand, count, from + 1));
      }
    }
  }

  /** With a playable card at `from`, the list is `from` followed by the
      positions after it, all of which lie above `from`. */
  lemma PlayableIndicesCons(hand: seq<Card>, count: int, from: nat, rest: seq<nat>)
    requires from < |hand| && Playable(hand[from], count) && rest == PlayableIndices(hand, count, from + 1)
    requires forall m :: 0 <= m < |rest| ==> from + 1 <= rest[m] < |hand| && Playable(hand[rest[m]], count)
    requires forall m, n :: 0 <= m < n < |rest| ==> rest[m] < rest[n]
    ensures PlayableIndices(hand, count, from) == [from] + rest
    ensures forall m :: 0 <= m < |PlayableIndices(hand, count, from)| ==>
              from <= PlayableIndices(hand, count, from)[m] < |hand|
              && Playable(hand[PlayableIndices(hand, count, from)[m]], count)
    ensures forall m, n :: 0 <= m < n < |PlayableIndices(hand, count, from)| ==>
              PlayableIndices(hand, count, from)[m] < PlayableIndices(hand, count, from)[n]
  {
    var r := PlayableIndices(hand, count, from);
    assert r == [from] + rest;
    forall m | 0 < m < |r|
      ensures r[m] == rest[m - 1]
    {
    }
  }

  /** Every position from `from` on whose card is playable is listed. */
  lemma {:induction false} PlayableIndicesComplete(hand: seq<Card>, count: int, from: nat)
    requires from <= |hand|
    ensures forall k :: from <= k < |hand| && Playable(hand[k], count) ==> k in PlayableIndices(hand, count, from)
    decreases |hand| - from
  {
    if from < |hand| {
      PlayableIndicesComplete(hand, count, from + 1);
      var r, rest := PlayableIndices(hand, count, from), PlayableIndices(hand, count, from + 1);
      assert r == if Playable(hand[from], count) then [from] + rest else rest;
      forall k | from <= k < |hand| && Playable(hand[k], count)
        ensures k in r
      {
        if k > from {
          assert k in rest;
        }
      }
    }
  }

  /** The last n elements of s (all of s when it is shorter); slice(-n) for
      n >= 1, the only widths the play uses. */
  function LastN(s: seq<Card>, n: nat): (r: seq<Card>)
    ensures |r| == if |s| <= n then |s| else n
    ensures r == s[|s| - |r|..]
  {
    if |s| <= n then s else s[|s| - n..]
  }

  /** Appending a card moves the window along: the last n + 1 cards of s + [c]
      are the last n of s followed by c. */
  lemma LastNAppend(s: seq<Card>, c: Card, n: nat)
    ensures LastN(s + [c], n + 1) == LastN(s, n) + [c]
  {
    if |s| > n {
      assert (s + [c])[|s| - n..] == s[|s| - n..] + [c];
    }
  }

  /** Ten times the candidate's score: 20 when the new count is 15 or 31, 20 per
      card of its rank among the last three played, and 10 - value while fewer
      than four cards have been played. */
  function PlayScore(card: Card, count: int, played: seq<Card>): (s: int)
    ensures s >= 0
  {
    var recent := LastN(played, 3) + [card];
    RankCountAppend(LastN(played, 3), card, card.rank);
    var newCount := count + CardValue(card);
    (if newCount == 15 || newCount == 31 then 20 else 0)
    + 20 * (RankCount(recent, card.rank) - 1)
    + (if |played| < 4 then 10 - CardValue(card) else 0)
  }

  /** The initial best play score (-1, scaled by 10). */
  const NO_PLAY: int := -10

  /** The loop body of the play search: the count bonus, the rank matches
      among the last three played, and the early preference for low cards. */
  method ScorePlay(card: Card, currentCount: int, playedCards: seq<Card>) returns (score: int)
    ensures score == PlayScore(card, currentCount, playedCards)
  {
    score := 0;
    var newCount := currentCount + CardValue(card);
    if newCount == 15 || newCount == 31 {
      score := score + 20;
    }
    var recentCards := LastN(playedCards, 3) + [card];
    var pairCount := RankCount(recentCards, card.rank) - 1;
    score := score + pairCount * 20;
    if |playedCards| < 4 {
      score := score + (10 - CardValue(card));
    }
  }

  /** The score of the card at every position of the hand, as one function. */
  ghost function PlayValues(hand: seq<Card>, count: int, played: seq<Card>): nat -> int
  {
    (k: nat) => if k < |hand| then PlayScore(hand[k], count, played) else 0
  }

  /** Among the first t candidate positions none scores above best, and those
      before bestIndex score below it. */
  ghost predicate BestAmong(value: nat -> int, idx: seq<nat>, t: nat, bestIndex: nat, best: int)
  {
    (forall m :: 0 <= m < t && m < |idx| ==> value(idx[m]) <= best)
    && (forall m :: 0 <= m < t && m < |idx| && idx[m] < bestIndex ==> value(idx[m]) < best)
  }

  lemma BestAmongRaise(value: nat -> int, idx: seq<nat>, t: nat, bestIndex: nat, best: int)
    requires t < |idx| && BestAmong(value, idx, t, bestIndex, best) && value(idx[t]) > best
    requires forall m, n :: 0 <= m < n < |idx| ==> idx[m] < idx[n]
    ensures BestAmong(value, idx, t + 1, idx[t], value(idx[t]))
  {
  }

  lemma BestAmongKeep(value: nat -> int, idx: seq<nat>, t: nat, bestPos: nat, best: int)
    requires bestPos <= t < |idx| && BestAmong(value, idx, t, idx[bestPos], best) && value(idx[t]) <= best
    requires forall m, n :: 0 <= m < n < |idx| ==> idx[m] < idx[n]
    ensures BestAmong(value, idx, t + 1, idx[bestPos], best)
  {
  }

  /** Best among all playable positions is best among the playable cards of the hand. */
  lemma BestPlayIsBest(hand: seq<Card>, count: int, played: seq<Card>, idx: seq<nat>, bestPos: nat, best: int)
    requires idx == PlayableIndices(hand, count, 0) && bestPos < |idx|
    requires best == PlayValues(hand, count, played)(idx[bestPos])
    requires BestAmong(PlayValues(hand, count, played), idx, |idx|, idx[bestPos], best)
    ensures forall k :: 0 <= k < |hand| && Playable(hand[k], count) ==>
              PlayScore(hand[k], count, played) <= best
    ensures forall k :: 0 <= k < |hand| && k < idx[bestPos] && Playable(hand[k], count) ==>
              PlayScore(hand[k], count, played) < best
  {
    var value := PlayValues(hand, count, played);
    PlayableIndicesComplete(hand, count, 0);
    forall k | 0 <= k < |hand| && Playable(hand[k], count)
      ensures PlayScore(hand[k], count, played) <= best
      ensures k < idx[bestPos] ==> PlayScore(hand[k], count, played) < best
    {
      var m :| 0 <= m < |idx| && idx[m] == k;
      assert value(idx[m]) == PlayScore(hand[k], count, played);
    }
  }

  /** Among the playable cards, in hand order, returns the first of highest
      score, or -1 when no card can be played. */
  method ChooseBestPlay(hand: seq<Card>, currentCount: int, playedCards: seq<Card>) returns (index: int)
    ensures index == -1 <==> forall k :: 0 <= k < |hand| ==> !Playable(hand[k], currentCount)
    ensures index != -1 ==> 0 <= index < |hand| && Playable(hand[index], currentCount)
    ensures index != -1 ==> forall k :: 0 <= k < |hand| && Playable(hand[k], currentCount) ==>
              PlayScore(hand[k], currentCount, playedCards) <= PlayScore(hand[index], currentCount, playedCards)
    ensures index != -1 ==> forall k :: 0 <= k < index && Playable(hand[k], currentCount) ==>
              PlayScore(hand[k], currentCount, playedCards) < PlayScore(hand[index], currentCount, playedCards)
  {
    var playableCards := PlayableIndices(hand, currentCount, 0);
    PlayableIndicesSound(hand, currentCount, 0);
    if |playableCards| == 0 {
      PlayableIndicesComplete(hand, currentCount, 0);
      assert forall k :: 0 <= k < |hand| ==> !Playable(hand[k], currentCount);
      return -1;
    }
    ghost var bestPos;
    index, bestPos := BestOfPlayable(hand, currentCount, playedCards, playableCards);
    ghost var value := PlayValues(hand, currentCount, playedCards);
    assert BestAmong(value, playableCards, |playableCards|, index, value(index));
    BestPlayIsBest(hand, currentCount, playedCards, playableCards, bestPos, value(index));
  }

  /** The loop of the play search over the playable positions: the first of
      highest score wins, and any score beats the initial -1. */
  method BestOfPlayable(hand: seq<Card>, currentCount: int, playedCards: seq<Card>, playableCards: seq<nat>)
    returns (bestIndex: nat, ghost bestPos: nat)
    requires playableCards != [] && forall m :: 0 <= m < |playableCards| ==> playableCards[m] < |hand|
    requires forall m, n :: 0 <= m < n < |playableCards| ==> playableCards[m] < playableCards[n]
    ensures bestPos < |playableCards| && bestIndex == playableCards[bestPos]
    ensures var value := PlayValues(hand, currentCount, playedCards);
            BestAmong(value, playableCards, |playableCards|, bestIndex, value(bestIndex))
  {
    ghost var value := PlayValues(hand, currentCount, playedCards);
    bestIndex := playableCards[0];
    var bestScore := NO_PLAY;
    bestPos := 0;
    for t := 0 to |playableCards|
      invariant 0 <= bestPos < |playableCards| && bestIndex == playableCards[bestPos]
      invariant t > 0 ==> bestPos < t && bestScore == value(bestIndex)
      invariant t == 0 ==> bestScore == NO_PLAY
      invariant BestAmong(value, playableCards, t, bestIndex, bestScore)
    {
      var index := playableCards[t];
      var score := ScorePlay(hand[index], currentCount, playedCards);
      assert score == value(index);
      if score > bestScore {
        BestAmongRaise(value, playableCards, t, bestIndex, bestScore);
        bestScore := score;
        bestIndex := index;
        bestPos := t;
      } else {
        BestAmongKeep(value, playableCards, t, bestPos, bestScore);
      }
    }
  }
}
