/** The show: the score of a hand (or the crib) together with the cut card. */
module Scoring {
  import opened GameTypes
  import opened Deck
  import opened Fifteens
  import opened Pairs
  import opened Runs

  /** What the scorer yields: points, or the failure of reading the suit of the
      first card of an empty hand (which happens when the hand is empty, every
      card of it trivially shares one suit, and a cut card is present). */
  datatype Score = Points(points: nat) | MissingFirstCard

  /** The cards fifteens, pairs and runs are counted over: the hand plus the cut. */
  function WithCut(hand: seq<Card>, cut: Option<Card>): seq<Card>
  {
    if cut.Some? then hand + [cut.value] else hand
  }

  /** Every card of the hand has the suit of its first card (true of an empty hand). */
  predicate SameSuit(hand: seq<Card>)
  {
    forall k :: 0 <= k < |hand| ==> hand[k].suit == hand[0].suit
  }

  /** The hand holds the jack of the cut card's suit. */
  predicate HasNobs(hand: seq<Card>, cut: Option<Card>)
  {
    cut.Some? && exists k :: 0 <= k < |hand| && hand[k].rank == Jack && hand[k].suit == cut.value.suit
  }

  /** Fifteens + pairs + runs over hand and cut, 4 for a one-suit hand (5 when
      the cut shares the suit) and 1 for nobs. */
  function HandScore(hand: seq<Card>, cut: Option<Card>): (r: Score)
    ensures r.MissingFirstCard? <==> hand == [] && cut.Some?
  {
    var cards := WithCut(hand, cut);
    var base := 2 * FifteenSets(cards) + 2 * PairCount(cards) + RunsScore(cards);
    var nobs := if HasNobs(hand, cut) then 1 else 0;
    if !SameSuit(hand) then Points(base + nobs)
    else if cut.None? then Points(base + 4 + nobs)
    else if hand == [] then MissingFirstCard
    else Points(base + 4 + (if cut.value.suit == hand[0].suit then 1 else 0) + nobs)
  }

  /** Adds up fifteens, pairs and runs over hand and cut, then the flush and nobs. */
  method CalculateHandScore(hand: seq<Card>, cut: Option<Card>) returns (r: Score)
    ensures r == HandScore(hand, cut)
  {
    var cards := if cut.Some? then hand + [cut.value] else hand;
    var score := 0;
    var fifteens := CalculateFifteens(cards);
    score := score + fifteens;
    var pairs := CalculatePairs(cards);
    score := score + pairs;
    var runs := CalculateRuns(cards);
    score := score + runs;
    if forall k | 0 <= k < |hand| :: hand[k].suit == hand[0].suit {
      score := score + 4;
      if cut.Some? {
        if hand == [] {
          return MissingFirstCard;
        }
        if cut.value.suit == hand[0].suit {
          score := score + 1;
        }
      }
    }
    if cut.Some? && exists k | 0 <= k < |hand| :: hand[k].rank == Jack && hand[k].suit == cut.value.suit {
      score := score + 1;
    }
    r := Points(score);
  }
  /** A ten-card with four fives: every five with the ten-card and every three
      fives make fifteen, 8 fifteens in all. */
  lemma TenAndFourFivesFifteens(cards: seq<Card>)
    requires |cards| == 5 && CardValue(cards[0]) == 10
    requires forall i :: 1 <= i < 5 ==> cards[i].rank == Five
    ensures FifteenSets(cards) == 8
  {
    var fives := cards[1..];
    assert Ways(cards, 15, 2) == 4 by {
      UniformWays(fives, 5, 15, 2);
      UniformWays(fives, 5, 5, 1);
      assert Choose(4, 1) == 4;
    }
    assert Ways(cards, 15, 3) == 4 by {
      UniformWays(fives, 5, 15, 3);
      UniformWays(fives, 5, 5, 2);
      assert Choose(4, 3) == 4;
    }
    assert Ways(cards, 15, 4) == 0 by {
      UniformWays(fives, 5, 15, 4);
      UniformWays(fives, 5, 5, 3);
    }
    assert Ways(cards, 15, 5) == 0 by {
      UniformWays(fives, 5, 15, 5);
      UniformWays(fives, 5, 5, 4);
    }
    assert FifteenSets(cards) == Ways(cards, 15, 2) + Ways(cards, 15, 3) + Ways(cards, 15, 4) + Ways(cards, 15, 5);
  }

  /** A jack with four fives: the fives make six pairs, the jack none. */
  lemma JackAndFourFivesPairs(cards: seq<Card>)
    requires |cards| == 5 && cards[0].rank == Jack
    requires forall i :: 1 <= i < 5 ==> cards[i].rank == Five
    ensures PairCount(cards) == 6
  {
    NoneOfRank(cards[1..], Jack);
    SameRankPairs(cards[1..]);
  }

  /** Moving the jack in front of the fives leaves the multiset unchanged. */
  lemma JackFirst(hand: seq<Card>, cut: Card)
    requires |hand| == 4
    ensures multiset(hand + [cut]) == multiset([hand[3]] + hand[..3] + [cut])
  {
    assert hand == hand[..3] + [hand[3]];
  }

  /** The highest hand: three fives and the jack of the cut's suit, with a five
      cut, score fifteens 16, pairs 12, runs 0 and nobs 1, 29 in all (the hand
      is no flush, since two fives differ in suit). */
  lemma TwentyNineHand(hand: seq<Card>, cut: Card)
    requires |hand| == 4 && cut.rank == Five
    requires hand[0].rank == Five && hand[1].rank == Five && hand[2].rank == Five
    requires hand[3].rank == Jack && hand[3].suit == cut.suit
    requires hand[0].suit != hand[1].suit
    ensures HandScore(hand, Some(cut)) == Points(29)
  {
    assert FifteenSets(hand + [cut]) == 8 by { TwentyNineFifteens(hand, cut); }
    assert PairCount(hand + [cut]) == 6 by { TwentyNinePairs(hand, cut); }
    assert RunsScore(hand + [cut]) == 0 by { NoNeighbouringRanksNoRuns(hand + [cut]); }
    assert HasNobs(hand, Some(cut)) by {
      assert hand[3].rank == Jack && hand[3].suit == cut.suit;
    }
    assert !SameSuit(hand) by { assert hand[1].suit != hand[0].suit; }
    NoFlushScore(hand, Some(cut));
  }

  /** Without a flush the score is fifteens, pairs, runs and nobs. */
  lemma NoFlushScore(hand: seq<Card>, cut: Option<Card>)
    requires !SameSuit(hand)
    ensures HandScore(hand, cut) == Points(2 * FifteenSets(WithCut(hand, cut)) + 2 * PairCount(WithCut(hand, cut))
                                           + RunsScore(WithCut(hand, cut)) + if HasNobs(hand, cut) then 1 else 0)
  {
  }

  lemma TwentyNineFifteens(hand: seq<Card>, cut: Card)
    requires |hand| == 4 && cut.rank == Five
    requires hand[0].rank == Five && hand[1].rank == Five && hand[2].rank == Five
    requires hand[3].rank == Jack
    ensures FifteenSets(hand + [cut]) == 8
  {
    var reordered := [hand[3]] + hand[..3] + [cut];
    JackFirst(hand, cut);
    FifteensOrderIndependent(hand + [cut], reordered);
    TenAndFourFivesFifteens(reordered);
  }

  lemma TwentyNinePairs(hand: seq<Card>, cut: Card)
    requires |hand| == 4 && cut.rank == Five
    requires hand[0].rank == Five && hand[1].rank == Five && hand[2].rank == Five
    requires hand[3].rank == Jack
    ensures PairCount(hand + [cut]) == 6
  {
    var reordered := [hand[3]] + hand[..3] + [cut];
    JackFirst(hand, cut);
    PairsOrderIndependent(hand + [cut], reordered);
    JackAndFourFivesPairs(reordered);
  }

  /** Four cards of one suit with even values, pairwise different ranks, no two
      of them one rank apart, and no jack, score only the flush: 4, or 5 when
      the cut (itself even valued and of a rank none of them has or neighbours)
      shares their suit. */
  lemma FlushOnly(hand: seq<Card>, cut: Card)
    requires |hand| == 4
    requires forall i :: 0 <= i < 4 ==> hand[i].suit == hand[0].suit && hand[i].rank != Jack
    requires forall i :: 0 <= i < 5 ==> CardValue((hand + [cut])[i]) % 2 == 0
    requires forall i, j :: 0 <= i < j < 5 ==> (hand + [cut])[i].rank != (hand + [cut])[j].rank
    requires forall i, j :: 0 <= i < 5 && 0 <= j < 5 ==>
               RankIndex((hand + [cut])[j].rank) != RankIndex((hand + [cut])[i].rank) + 1
    ensures HandScore(hand, Some(cut)) == Points(if cut.suit == hand[0].suit then 5 else 4)
  {
    var cards := WithCut(hand, Some(cut));
    EvenValuesNoFifteens(cards, 2, |cards|);
    DistinctRanksNoPairs(cards);
    NoNeighbouringRanksNoRuns(cards);
  }
}
