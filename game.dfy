/** The game component: one GameState value that every handler replaces, the
    deal, the discards to the crib, the play with its pegging points, the "go",
    and the show. Each handler is a method of the class Game and is specified by
    a function from the old state to the new one; the properties of a hand of
    cribbage are lemmas about those functions. */
module Game {
  import opened GameTypes
  import opened Deck
  import opened Pairs
  import opened Scoring
  import opened Heuristic

  /** The winning score. */
  const MAX_SCORE: int := 121

  /** A score never passes the winning score. */
  function Capped(score: int): (c: int)
    ensures c <= MAX_SCORE && (c == score || c == MAX_SCORE)
    ensures c == score <==> score <= MAX_SCORE
  {
    if score < MAX_SCORE then score else MAX_SCORE
  }

  /** The opponent of a player, (id + 1) % 2. */
  function Other(playerId: nat): (o: nat)
    ensures o < 2 && (playerId < 2 ==> o != playerId)
  {
    (playerId + 1) % 2
  }

  /** The states every handler keeps: two players, scores between 0 and the
      winning score, a current player that exists, and a count of at most 31. */
  ghost predicate ValidState(s: GameState)
  {
    |s.players| == 2
    && (forall p :: 0 <= p < 2 ==> 0 <= s.players[p].score <= MAX_SCORE)
    && 0 <= s.currentPlayer < 2
    && 0 <= s.currentCount <= 31
  }

  /** Every card the state holds: stock (with the cut on top), both hands, the
      crib and the cards played. */
  function Cards(s: GameState): multiset<Card>
    requires |s.players| == 2
  {
    multiset(s.deck) + (multiset(s.players[0].hand) + multiset(s.players[1].hand))
    + (multiset(s.crib) + multiset(s.playedCards))
  }

  /** The state holds exactly the 52 cards of a fresh deck. */
  ghost predicate Conserved(s: GameState)
    requires |s.players| == 2
  {
    Cards(s) == multiset(FullDeck())
  }

  /** Before the first deal the state holds no card; from then on it holds
      exactly the cards of the deck. */
  ghost predicate CardsKept(s: GameState)
    requires |s.players| == 2
  {
    Cards(s) == multiset{} || Conserved(s)
  }

  /** A sequence without repeated cards holds each card at most once. */
  lemma {:induction false} DistinctAtMostOnce(s: seq<Card>)
    requires forall i, j :: 0 <= i < j < |s| ==> s[i] != s[j]
    ensures forall c :: multiset(s)[c] <= 1
    decreases |s|
  {
    if s != [] {
      DistinctAtMostOnce(s[1..]);
      assert s == [s[0]] + s[1..];
      assert s[0] !in s[1..];
    }
  }

  /** When the cards are conserved no card is in two places, or twice in one. */
  lemma ConservedCardsUnique(s: GameState)
    requires |s.players| == 2 && Conserved(s)
    ensures forall c :: Cards(s)[c] <= 1
  {
    var d := FullDeck();
    FullDeckDistinctAndComplete(d);
    forall i, j | 0 <= i < j < |d|
      ensures d[i] != d[j]
    {
      assert d[i].suit != d[j].suit || d[i].rank != d[j].rank;
    }
    DistinctAtMostOnce(d);
  }

  /** Taking the card at position i out of a sequence. */
  lemma SpliceMultiset(s: seq<Card>, i: nat)
    requires i < |s|
    ensures multiset(s[..i] + s[i + 1..]) + multiset{s[i]} == multiset(s)
  {
    assert s == s[..i] + [s[i]] + s[i + 1..];
  }

  // ---- the score -----------------------------------------------------------

  /** The score update: the player's score rises by `points`, capped at the
      winning score; reaching it ends the game, otherwise the phase stays. */
  function WithPoints(s: GameState, playerId: nat, points: nat): (r: GameState)
    requires ValidState(s) && playerId < 2
    ensures ValidState(r)
    ensures r.players[playerId].score
            == Capped(s.players[playerId].score + points)
    ensures r.players[playerId].score >= s.players[playerId].score
    ensures r.players[playerId] == s.players[playerId].(score := r.players[playerId].score)
    ensures r.players[Other(playerId)] == s.players[Other(playerId)]
    ensures r.phase == GameOver <==> s.players[playerId].score + points >= MAX_SCORE || s.phase == GameOver
    ensures r.phase != GameOver ==> r.phase == s.phase
    ensures r.(players := s.players, phase := s.phase) == s
  {
    var newScore := s.players[playerId].score + points;
    var capped := Capped(newScore);
    var players := s.players[playerId := s.players[playerId].(score := capped)];
    if newScore >= MAX_SCORE then s.(players := players, phase := GameOver) else s.(players := players)
  }

  // ---- the deal ------------------------------------------------------------

  /** The deal: six cards to each player from the top of the shuffled deck, the
      rest is the stock and its top card the cut; the crib, the play and the
      count start empty and player 0 is to discard. Names and scores stay. */
  function AfterDeal(s: GameState, shuffled: seq<Card>): (r: GameState)
    requires ValidState(s) && |shuffled| == 52
    ensures ValidState(r)
  {
    s.(deck := shuffled[12..],
       players := [s.players[0].(hand := shuffled[..6]), s.players[1].(hand := shuffled[6..12])],
       crib := [],
       cutCard := Some(shuffled[12]),
       phase := Discarding,
       playedCards := [],
       currentCount := 0,
       currentPlayer := 0)
  }

  /** A deal from any ordering of a fresh deck (a shuffle is one) gives six
      cards to each player, leaves forty in the stock with the cut on top,
      keeps the scores, and holds every card of the deck exactly once. */
  lemma DealConservesCards(s: GameState, shuffled: seq<Card>)
    requires ValidState(s) && |shuffled| == 52 && multiset(shuffled) == multiset(FullDeck())
    ensures |AfterDeal(s, shuffled).players[0].hand| == 6 && |AfterDeal(s, shuffled).players[1].hand| == 6
    ensures |AfterDeal(s, shuffled).deck| == 40 && AfterDeal(s, shuffled).cutCard == Some(AfterDeal(s, shuffled).deck[0])
    ensures AfterDeal(s, shuffled).players[0].score == s.players[0].score
    ensures AfterDeal(s, shuffled).players[1].score == s.players[1].score
    ensures Conserved(AfterDeal(s, shuffled))
    ensures forall c :: Cards(AfterDeal(s, shuffled))[c] <= 1
  {
    var r := AfterDeal(s, shuffled);
    DealSplit(shuffled);
    assert Cards(r) == multiset(shuffled);
    ConservedCardsUnique(r);
  }

  /** The three parts of the deal hold the cards of the deck. */
  lemma DealSplit(d: seq<Card>)
    requires |d| == 52
    ensures multiset(d[12..]) + (multiset(d[..6]) + multiset(d[6..12])) + (multiset([]) + multiset([])) == multiset(d)
  {
    assert d == d[..6] + d[6..12] + d[12..];
  }

  // ---- the discards --------------------------------------------------------

  /** Number of crib positions whose index has the parity of playerId, the
      count the discard handler takes as that player's discards so far. */
  function DiscardCount(crib: seq<Card>, playerId: nat): (n: nat)
    ensures n == if playerId == 0 then (|crib| + 1) / 2 else if playerId == 1 then |crib| / 2 else 0
  {
    if crib == [] then 0
    else DiscardCount(crib[..|crib| - 1], playerId) + (if (|crib| - 1) % 2 == playerId then 1 else 0)
  }

  /** The discard handler acts only for the current player with fewer than two
      cards counted in the crib. */
  predicate DiscardAccepted(s: GameState, playerId: nat)
  {
    playerId == s.currentPlayer && DiscardCount(s.crib, playerId) < 2
  }

  /** A discard: the card leaves the hand for the end of the crib; with four
      cards in the crib play begins with player 0, otherwise the opponent
      discards next unless already counted twice (by the crib before this
      discard). */
  function AfterDiscard(s: GameState, playerId: nat, cardIndex: nat): (r: GameState)
    requires ValidState(s) && playerId < 2
    requires DiscardAccepted(s, playerId) ==> cardIndex < |s.players[playerId].hand|
    ensures ValidState(r)
  {
    if !DiscardAccepted(s, playerId) then s
    else
      var hand := s.players[playerId].hand;
      var newCrib := s.crib + [hand[cardIndex]];
      var complete := |newCrib| == 4;
      s.(players := s.players[playerId := s.players[playerId].(hand := hand[..cardIndex] + hand[cardIndex + 1..])],
         crib := newCrib,
         phase := if complete then Playing else Discarding,
         currentPlayer :=
           if complete then 0
           else if DiscardCount(s.crib, Other(playerId)) < 2 then Other(playerId) else playerId)
  }

  /** A refused discard changes nothing; an accepted one moves exactly the
      chosen card from the hand to the end of the crib. */
  lemma DiscardMovesOneCard(s: GameState, playerId: nat, cardIndex: nat)
    requires ValidState(s) && playerId < 2
    requires DiscardAccepted(s, playerId) ==> cardIndex < |s.players[playerId].hand|
    ensures AfterDiscard(s, playerId, cardIndex) == s <==> !DiscardAccepted(s, playerId)
    ensures DiscardAccepted(s, playerId) ==>
              AfterDiscard(s, playerId, cardIndex).crib == s.crib + [s.players[playerId].hand[cardIndex]]
    ensures DiscardAccepted(s, playerId) ==>
              multiset(AfterDiscard(s, playerId, cardIndex).players[playerId].hand)
              + multiset{s.players[playerId].hand[cardIndex]} == multiset(s.players[playerId].hand)
    ensures AfterDiscard(s, playerId, cardIndex).players[Other(playerId)] == s.players[Other(playerId)]
    ensures AfterDiscard(s, playerId, cardIndex).deck == s.deck
    ensures AfterDiscard(s, playerId, cardIndex).playedCards == s.playedCards
    ensures AfterDiscard(s, playerId, cardIndex).cutCard == s.cutCard
    ensures Cards(AfterDiscard(s, playerId, cardIndex)) == Cards(s)
  {
    if DiscardAccepted(s, playerId) {
      var r := AfterDiscard(s, playerId, cardIndex);
      var hand := s.players[playerId].hand;
      SpliceMultiset(hand, cardIndex);
      assert r.crib == s.crib + [hand[cardIndex]];
      HandMoveKeepsCards(s, r, playerId, cardIndex);
    }
  }

  /** The turn order of the discards: while discarding, the player to move is
      the parity of the crib's length. Such a discard is always accepted, and
      afterwards the order still holds, or the crib is full and play begins
      with player 0. */
  lemma DiscardInTurn(s: GameState, cardIndex: nat)
    requires ValidState(s) && s.phase == Discarding && |s.crib| < 4 && s.currentPlayer == |s.crib| % 2
    requires cardIndex < |s.players[s.currentPlayer].hand|
    ensures DiscardAccepted(s, s.currentPlayer)
    ensures var r := AfterDiscard(s, s.currentPlayer, cardIndex);
            |r.crib| == |s.crib| + 1
            && (if |r.crib| < 4 then r.phase == Discarding && r.currentPlayer == |r.crib| % 2
                else r.phase == Playing && r.currentPlayer == 0)
  {
  }

  /** Two in-turn discards, by player 0 and then player 1, from a crib of
      even length below 4: each hand gives one card, no card is lost, and
      player 0 is to move again, discarding or, with a full crib, playing. */
  lemma DiscardPair(s: GameState, i0: nat, i1: nat)
    requires ValidState(s) && s.phase == Discarding && |s.crib| in {0, 2} && s.currentPlayer == 0
    requires i0 < |s.players[0].hand| && i1 < |s.players[1].hand|
    ensures |AfterDiscard(AfterDiscard(s, 0, i0), 1, i1).crib| == |s.crib| + 2
    ensures AfterDiscard(AfterDiscard(s, 0, i0), 1, i1).currentPlayer == 0
    ensures AfterDiscard(AfterDiscard(s, 0, i0), 1, i1).phase == if |s.crib| == 2 then Playing else Discarding
    ensures |AfterDiscard(AfterDiscard(s, 0, i0), 1, i1).players[0].hand| == |s.players[0].hand| - 1
    ensures |AfterDiscard(AfterDiscard(s, 0, i0), 1, i1).players[1].hand| == |s.players[1].hand| - 1
    ensures Cards(AfterDiscard(AfterDiscard(s, 0, i0), 1, i1)) == Cards(s)
  {
    var s1 := AfterDiscard(s, 0, i0);
    DiscardInTurn(s, i0);
    DiscardMovesOneCard(s, 0, i0);
    DiscardInTurn(s1, i1);
    DiscardMovesOneCard(s1, 1, i1);
  }

  /** The discards of a deal: from a fresh deal, four in-turn discards (0, 1,
      0, 1) fill the crib, take two cards from each hand, and start the play
      with player 0. */
  lemma DiscardRound(s: GameState, i0: nat, i1: nat, i2: nat, i3: nat)
    requires ValidState(s) && s.phase == Discarding && s.crib == [] && s.currentPlayer == 0
    requires i0 < |s.players[0].hand| && i2 < |s.players[0].hand| - 1
    requires i1 < |s.players[1].hand| && i3 < |s.players[1].hand| - 1
    ensures var s2 := AfterDiscard(AfterDiscard(s, 0, i0), 1, i1);
            var s4 := AfterDiscard(AfterDiscard(s2, 0, i2), 1, i3);
            |s4.crib| == 4 && s4.phase == Playing && s4.currentPlayer == 0
            && |s4.players[0].hand| == |s.players[0].hand| - 2
            && |s4.players[1].hand| == |s.players[1].hand| - 2
            && Cards(s4) == Cards(s)
  {
    DiscardPair(s, i0, i1);
    DiscardPair(AfterDiscard(AfterDiscard(s, 0, i0), 1, i1), i2, i3);
  }

  // ---- the play ------------------------------------------------------------

  /** The hand holds a card that keeps the count at 31 or below. */
  function CanPlayAny(hand: seq<Card>, count: int): (b: bool)
    ensures b <==> exists k :: 0 <= k < |hand| && Playable(hand[k], count)
  {
    if hand == [] then false
    else Playable(hand[0], count) || CanPlayAny(hand[1..], count)
  }

  /** The card just played is among the last four cards. */
  lemma RecentHoldsCard(played: seq<Card>, card: Card)
    ensures LastN(played + [card], 4) == LastN(played, 3) + [card]
    ensures 1 <= RankCount(LastN(played + [card], 4), card.rank) <= 4
  {
    LastNAppend(played, card, 3);
    RankCountAppend(LastN(played, 3), card, card.rank);
    RankCountAtMostLength(LastN(played, 3), card.rank);
  }

  /** The pegging points of playing `card` on `played` at `count`: 2 for a new
      count of 15, 2 for 31, and 2 for every other card of its rank among the
      last four cards played, itself included (they need not be adjacent). */
  function PegPoints(played: seq<Card>, card: Card, count: int): (p: nat)
    ensures p % 2 == 0 && p <= 8
  {
    var newCount := count + CardValue(card);
    var recent := LastN(played + [card], 4);
    RecentHoldsCard(played, card);
    (if newCount == 15 then 2 else 0) + (if newCount == 31 then 2 else 0)
    + 2 * (RankCount(recent, card.rank) - 1)
  }

  /** The opponent's play estimate is ten times the pegging points (one pair
      of the play is 20, one count of 15 or 31 is 20), plus 10 minus the card's
      value while fewer than four cards are down. */
  lemma PlayScoreEstimatesPegging(card: Card, count: int, played: seq<Card>)
    ensures PlayScore(card, count, played)
            == 10 * PegPoints(played, card, count) + (if |played| < 4 then 10 - CardValue(card) else 0)
  {
    LastNAppend(played, card, 3);
  }

  /** A card of the same rank two plays back still pairs: after x and then y
      of another rank, a card of x's rank pegs 2 even though it is not adjacent
      to x (when the count reaches neither 15 nor 31). */
  lemma SeparatedPairPegs(x: Card, y: Card, card: Card, count: int)
    requires x.rank == card.rank && y.rank != card.rank
    requires count + CardValue(card) != 15 && count + CardValue(card) != 31
    ensures PegPoints([x, y], card, count) == 2
  {
    var recent := [x, y, card];
    assert LastN([x, y] + [card], 4) == recent;
    assert RankCount([card], card.rank) == 1;
    assert recent[1..][1..] == [card];
    assert RankCount(recent[1..], card.rank) == 1;
    assert RankCount(recent, card.rank) == 2;
  }

  /** A card moved from a player's hand to the crib or the played cards: the
      state still holds the same cards. */
  lemma HandMoveKeepsCards(s: GameState, r: GameState, playerId: nat, cardIndex: nat)
    requires |s.players| == 2 && |r.players| == 2 && playerId < 2
    requires cardIndex < |s.players[playerId].hand|
    requires r.players[playerId].hand
             == s.players[playerId].hand[..cardIndex] + s.players[playerId].hand[cardIndex + 1..]
    requires r.players[Other(playerId)].hand == s.players[Other(playerId)].hand
    requires r.deck == s.deck
    requires multiset(r.crib) + multiset(r.playedCards)
             == multiset(s.crib) + multiset(s.playedCards) + multiset{s.players[playerId].hand[cardIndex]}
    ensures Cards(r) == Cards(s)
  {
    var c := s.players[playerId].hand[cardIndex];
    SpliceMultiset(s.players[playerId].hand, cardIndex);
    var deck := multiset(s.deck);
    var held := multiset(s.players[playerId].hand);
    var kept := multiset(r.players[playerId].hand);
    var other := multiset(s.players[Other(playerId)].hand);
    var piles := multiset(s.crib) + multiset(s.playedCards);
    var piles' := multiset(r.crib) + multiset(r.playedCards);
    MoveBetweenParts(deck, held, kept, other, piles, piles', c);
    if playerId == 0 {
      assert Other(playerId) == 1;
      assert Cards(s) == deck + (held + other) + piles;
      assert Cards(r) == deck + (kept + other) + piles';
    } else {
      assert Other(playerId) == 0;
      assert Cards(s) == deck + (other + held) + piles;
      assert Cards(r) == deck + (other + kept) + piles';
    }
  }

  /** Moving one card from one part of a whole to another keeps the whole. */
  lemma MoveBetweenParts(deck: multiset<Card>, held: multiset<Card>, kept: multiset<Card>,
                         other: multiset<Card>, piles: multiset<Card>, piles': multiset<Card>, c: Card)
    requires kept + multiset{c} == held && piles' == piles + multiset{c}
    ensures deck + (kept + other) + piles' == deck + (held + other) + piles
    ensures deck + (other + kept) + piles' == deck + (other + held) + piles
  {
  }

  /** A score update moves no card. */
  lemma WithPointsKeepsCards(s: GameState, playerId: nat, points: nat)
    requires ValidState(s) && playerId < 2
    ensures Cards(WithPoints(s, playerId, points)) == Cards(s)
  {
    var r := WithPoints(s, playerId, points);
    assert r.players[0].hand == s.players[0].hand && r.players[1].hand == s.players[1].hand;
  }

  /** The card of a play leaves the hand for the end of the played cards, the
      count rises by its value and the opponent is to play; the phase becomes
      counting once both hands are empty. */
  function MoveToPlay(s: GameState, playerId: nat, cardIndex: nat): (r: GameState)
    requires ValidState(s) && playerId < 2 && cardIndex < |s.players[playerId].hand|
    requires s.currentCount + CardValue(s.players[playerId].hand[cardIndex]) <= 31
    ensures ValidState(r)
  {
    var hand := s.players[playerId].hand;
    var card := hand[cardIndex];
    var newHand := hand[..cardIndex] + hand[cardIndex + 1..];
    var allPlayed := newHand == [] && s.players[Other(playerId)].hand == [];
    s.(players := s.players[playerId := s.players[playerId].(hand := newHand)],
       playedCards := s.playedCards + [card],
       currentCount := s.currentCount + CardValue(card),
       currentPlayer := Other(playerId),
       phase := if allPlayed then Counting else s.phase)
  }

  /** Moving the played card keeps every card of the state. */
  lemma MoveToPlayKeepsCards(s: GameState, playerId: nat, cardIndex: nat)
    requires ValidState(s) && playerId < 2 && cardIndex < |s.players[playerId].hand|
    requires s.currentCount + CardValue(s.players[playerId].hand[cardIndex]) <= 31
    ensures Cards(MoveToPlay(s, playerId, cardIndex)) == Cards(s)
  {
    HandMoveKeepsCards(s, MoveToPlay(s, playerId, cardIndex), playerId, cardIndex);
  }

  /** A play: a card that would take the count past 31 changes nothing;
      otherwise the card is moved and its pegging points are added. */
  function AfterPlay(s: GameState, playerId: nat, cardIndex: nat): (r: GameState)
    requires ValidState(s) && playerId < 2 && cardIndex < |s.players[playerId].hand|
    ensures ValidState(r)
  {
    var card := s.players[playerId].hand[cardIndex];
    if s.currentCount + CardValue(card) > 31 then s
    else
      var moved := MoveToPlay(s, playerId, cardIndex);
      var peg := PegPoints(s.playedCards, card, s.currentCount);
      if peg > 0 then WithPoints(moved, playerId, peg) else moved
  }

  /** A play is refused, and changes nothing, exactly when the card would take
      the count past 31. */
  lemma PlayRefusedPastThirtyOne(s: GameState, playerId: nat, cardIndex: nat)
    requires ValidState(s) && playerId < 2 && cardIndex < |s.players[playerId].hand|
    ensures AfterPlay(s, playerId, cardIndex) == s
            <==> s.currentCount + CardValue(s.players[playerId].hand[cardIndex]) > 31
  {
    var card := s.players[playerId].hand[cardIndex];
    if s.currentCount + CardValue(card) <= 31 {
      assert |AfterPlay(s, playerId, cardIndex).playedCards| == |s.playedCards| + 1;
    }
  }

  /** An accepted play moves the card to the end of the played cards, raises
      the count by its value, passes the turn, leaves the opponent alone, and
      raises the player's score by the pegging points (capped); no card is
      created or lost. */
  lemma PlayMovesOneCard(s: GameState, playerId: nat, cardIndex: nat)
    requires ValidState(s) && playerId < 2 && cardIndex < |s.players[playerId].hand|
    requires s.currentCount + CardValue(s.players[playerId].hand[cardIndex]) <= 31
    ensures AfterPlay(s, playerId, cardIndex).playedCards
            == s.playedCards + [s.players[playerId].hand[cardIndex]]
    ensures AfterPlay(s, playerId, cardIndex).currentCount
            == s.currentCount + CardValue(s.players[playerId].hand[cardIndex])
    ensures AfterPlay(s, playerId, cardIndex).currentPlayer == Other(playerId)
    ensures |AfterPlay(s, playerId, cardIndex).players[playerId].hand| == |s.players[playerId].hand| - 1
    ensures multiset(AfterPlay(s, playerId, cardIndex).players[playerId].hand)
            + multiset{s.players[playerId].hand[cardIndex]} == multiset(s.players[playerId].hand)
    ensures var r := AfterPlay(s, playerId, cardIndex);
            r.deck == s.deck && r.crib == s.crib && r.cutCard == s.cutCard
    ensures AfterPlay(s, playerId, cardIndex).players[Other(playerId)] == s.players[Other(playerId)]
    ensures AfterPlay(s, playerId, cardIndex).players[playerId].score
            == Capped(s.players[playerId].score
                      + PegPoints(s.playedCards, s.players[playerId].hand[cardIndex], s.currentCount))
    ensures Cards(AfterPlay(s, playerId, cardIndex)) == Cards(s)
  {
    var card := s.players[playerId].hand[cardIndex];
    var moved := MoveToPlay(s, playerId, cardIndex);
    var peg := PegPoints(s.playedCards, card, s.currentCount);
    SpliceMultiset(s.players[playerId].hand, cardIndex);
    MoveToPlayKeepsCards(s, playerId, cardIndex);
    WithPointsKeepsCards(moved, playerId, peg);
    assert moved.players[Other(playerId)] == s.players[Other(playerId)];
    assert moved.players[playerId].score == s.players[playerId].score;
    if peg > 0 {
      assert AfterPlay(s, playerId, cardIndex) == WithPoints(moved, playerId, peg);
    } else {
      assert AfterPlay(s, playerId, cardIndex) == moved;
    }
  }

  /** The "go": the opponent scores 1; if the opponent can play the turn
      passes to them with the count kept, otherwise the count restarts at 0
      and the same player goes on. The phase becomes counting when neither can
      play and playing otherwise. */
  function AfterGo(s: GameState): (r: GameState)
    requires ValidState(s)
    ensures ValidState(r)
  {
    var current := s.currentPlayer as nat;
    var other := Other(current);
    var otherCanPlay := CanPlayAny(s.players[other].hand, s.currentCount);
    var currentCanPlay := CanPlayAny(s.players[current].hand, s.currentCount);
    WithPoints(s, other, 1).(
      currentCount := if otherCanPlay then s.currentCount else 0,
      currentPlayer := if otherCanPlay then other else current,
      phase := if !otherCanPlay && !currentCanPlay then Counting else Playing)
  }

  /** The "go" moves no card and gives the opponent exactly one point (up to
      the cap); the play ends (counting) exactly when neither hand holds a
      playable card. */
  lemma GoMovesNoCard(s: GameState)
    requires ValidState(s)
    ensures var r := AfterGo(s);
            var other := Other(s.currentPlayer as nat);
            Cards(r) == Cards(s)
            && r.players[other].score == Capped(s.players[other].score + 1)
            && r.players[s.currentPlayer] == s.players[s.currentPlayer]
            && (r.phase == Counting <==>
                  (forall k :: 0 <= k < |s.players[other].hand| ==> !Playable(s.players[other].hand[k], s.currentCount))
                  && forall k :: 0 <= k < |s.players[s.currentPlayer].hand| ==>
                       !Playable(s.players[s.currentPlayer].hand[k], s.currentCount))
  {
    var other := Other(s.currentPlayer as nat);
    var r := AfterGo(s);
    assert r.players == WithPoints(s, other, 1).players;
    assert r.deck == s.deck && r.crib == s.crib && r.playedCards == s.playedCards;
  }

  /** The go point can reach the winning score without ending the game: the
      phase is overwritten with playing or counting after the score update. */
  lemma GoAtWinningScoreKeepsPlaying(s: GameState)
    requires ValidState(s) && s.players[Other(s.currentPlayer as nat)].score == MAX_SCORE - 1
    ensures AfterGo(s).players[Other(s.currentPlayer as nat)].score == MAX_SCORE
    ensures AfterGo(s).phase != GameOver
  {
  }

  // ---- the show ------------------------------------------------------------

  /** The show of one player: player 0's hand is scored and the turn passes to
      player 1; player 1's hand is scored, then the crib, both to player 1, and
      the phase returns to dealing with player 0 first (unless the crib points
      end the game). None when the scorer fails on an empty hand with a cut. */
  function AfterShow(s: GameState, playerId: nat): (r: Option<GameState>)
    requires ValidState(s) && playerId < 2
    ensures r.Some? ==> ValidState(r.value)
    ensures r.None? <==> (s.players[playerId].hand == [] || (playerId == 1 && s.crib == [])) && s.cutCard.Some?
  {
    var handScore := HandScore(s.players[playerId].hand, s.cutCard);
    if handScore.MissingFirstCard? then None
    else if playerId == 0 then Some(WithPoints(s, 0, handScore.points).(currentPlayer := 1))
    else
      var cribScore := HandScore(s.crib, s.cutCard);
      if cribScore.MissingFirstCard? then None
      else Some(WithPoints(WithPoints(s, 1, handScore.points).(phase := Dealing, currentPlayer := 0), 1, cribScore.points))
  }

  /** After the dealer's show the game is over exactly when the dealer's
      score plus the hand and crib points reaches the winning score, whatever
      the phase was; otherwise dealing comes next. */
  lemma DealerShowEndsGame(s: GameState)
    requires ValidState(s) && AfterShow(s, 1).Some?
    ensures var r := AfterShow(s, 1).value;
            var total := s.players[1].score + HandScore(s.players[1].hand, s.cutCard).points
                         + HandScore(s.crib, s.cutCard).points;
            (r.phase == GameOver <==> total >= MAX_SCORE)
            && (r.phase != GameOver ==> r.phase == Dealing && r.players[1].score == total)
            && r.players[0] == s.players[0]
  {
  }

  /** The non-dealer's show adds the hand's points (capped) to player 0 and
      passes the turn to player 1; the dealer's score and the phase are kept
      unless the points end the game. */
  lemma NonDealerShow(s: GameState)
    requires ValidState(s) && AfterShow(s, 0).Some?
    ensures var r := AfterShow(s, 0).value;
            var total := s.players[0].score + HandScore(s.players[0].hand, s.cutCard).points;
            r.players[0].score == Capped(total)
            && r.players[1] == s.players[1]
            && r.currentPlayer == 1
            && (r.phase == GameOver <==> total >= MAX_SCORE || s.phase == GameOver)
            && (r.phase != GameOver ==> r.phase == s.phase)
  {
  }

  /** The show moves no card: hands, crib, stock and played cards stay. */
  lemma ShowKeepsCards(s: GameState, playerId: nat)
    requires ValidState(s) && playerId < 2 && AfterShow(s, playerId).Some?
    ensures Cards(AfterShow(s, playerId).value) == Cards(s)
    ensures Conserved(s) ==> Conserved(AfterShow(s, playerId).value)
  {
    var r := AfterShow(s, playerId).value;
    assert r.players[0].hand == s.players[0].hand && r.players[1].hand == s.players[1].hand;
  }

  /** The show reads the hands the play has emptied: after the last card of
      the play the phase is counting (or the game is over) and scoring the
      non-dealer's hand fails, since the hand is empty and a cut card is set. */
  lemma LastPlayLeavesNothingToShow(s: GameState, playerId: nat)
    requires ValidState(s) && playerId < 2 && s.cutCard.Some?
    requires |s.players[playerId].hand| == 1 && s.players[Other(playerId)].hand == []
    requires s.currentCount + CardValue(s.players[playerId].hand[0]) <= 31
    ensures AfterPlay(s, playerId, 0).phase == Counting || AfterPlay(s, playerId, 0).phase == GameOver
    ensures AfterPlay(s, playerId, 0).players[0].hand == [] && AfterPlay(s, playerId, 0).players[1].hand == []
    ensures AfterShow(AfterPlay(s, playerId, 0), 0).None?
  {
    var moved := MoveToPlay(s, playerId, 0);
    var peg := PegPoints(s.playedCards, s.players[playerId].hand[0], s.currentCount);
    assert moved.phase == Counting;
    assert AfterPlay(s, playerId, 0) == if peg > 0 then WithPoints(moved, playerId, peg) else moved;
    if playerId == 0 {
      assert Other(playerId) == 1;
    } else {
      assert Other(playerId) == 0;
    }
  }

  /** "Play Again" deals with the scores kept: a player who won with the
      winning score still has it, and any later point ends the game at once. */
  lemma PlayAgainKeepsScores(s: GameState, shuffled: seq<Card>, winner: nat, points: nat)
    requires ValidState(s) && |shuffled| == 52 && winner < 2
    requires s.phase == GameOver && s.players[winner].score == MAX_SCORE && points > 0
    ensures AfterDeal(s, shuffled).phase == Discarding
    ensures AfterDeal(s, shuffled).players[winner].score == MAX_SCORE
    ensures WithPoints(AfterDeal(s, shuffled), winner, points).phase == GameOver
  {
  }

  // ---- the component -------------------------------------------------------

  /** The game component: its state and the handlers that replace it. */
  class Game {
    var state: GameState

    /** The handlers keep ValidState, and the cards: none before the first
        deal, the 52 cards of the deck from then on. */
    ghost predicate Valid()
      reads this
    {
      ValidState(state) && CardsKept(state)
    }

    /** The state before the first deal. */
    constructor ()
      ensures Valid()
      ensures state == GameState([],
                                 [Player(0, "Player 1", [], 0, true), Player(1, "Player 2", [], 0, false)],
                                 [], None, Dealing, 0, [], 0)
    {
      state := GameState([],
                         [Player(0, "Player 1", [], 0, true), Player(1, "Player 2", [], 0, false)],
                         [], None, Dealing, 0, [], 0);
    }

    /** Adds points to a player's score, capped at the winning score. */
    method UpdateScore(playerId: nat, points: nat)
      requires Valid() && playerId < 2
      modifies this
      ensures Valid()
      ensures state == WithPoints(old(state), playerId, points)
    {
      var newScore := state.players[playerId].score + points;
      var updatedPlayers := state.players[playerId := state.players[playerId].(
                              score := Capped(newScore))];
      if newScore >= MAX_SCORE {
        state := state.(players := updatedPlayers, phase := GameOver);
      } else {
        state := state.(players := updatedPlayers);
      }
      WithPointsKeepsCards(old(state), playerId, points);
    }

    /** Builds and shuffles a deck (the swap positions js stand for the random
      draws) and deals it. */
    method StartNewGame(js: seq<nat>)
      requires Valid() && ValidDraws(js, 52)
      modifies this
      ensures Valid()
      ensures state == AfterDeal(old(state), FisherYates(FullDeck(), js, 51))
      ensures Conserved(state)
    {
      var deck := CreateDeck();
      var shuffledDeck := ShuffleDeck(deck, js);
      var player1Hand := shuffledDeck[..6];
      var player2Hand := shuffledDeck[6..12];
      var remainingDeck := shuffledDeck[12..];
      ghost var before := state;
      state := state.(deck := remainingDeck,
                      players := [state.players[0].(hand := player1Hand), state.players[1].(hand := player2Hand)],
                      crib := [],
                      cutCard := Some(remainingDeck[0]),
                      phase := Discarding,
                      playedCards := [],
                      currentCount := 0,
                      currentPlayer := 0);
      FisherYatesPermutes(FullDeck(), js, 51);
      DealConservesCards(before, shuffledDeck);
    }

    /** Number of cards the crib counts for a player (positions of its parity). */
    method GetPlayerDiscardCount(playerId: nat) returns (n: nat)
      requires Valid()
      ensures n == DiscardCount(state.crib, playerId)
    {
      n := 0;
      var i := 0;
      while i < |state.crib|
        invariant 0 <= i <= |state.crib|
        invariant n == DiscardCount(state.crib[..i], playerId)
      {
        assert state.crib[..i + 1][..i] == state.crib[..i];
        if i % 2 == playerId {
          n := n + 1;
        }
        i := i + 1;
      }
      assert state.crib[..i] == state.crib;
    }

    /** Moves a card from the current player's hand to the crib. */
    method DiscardToCrib(playerId: nat, cardIndex: nat)
      requires Valid() && playerId < 2
      requires DiscardAccepted(state, playerId) ==> cardIndex < |state.players[playerId].hand|
      modifies this
      ensures Valid()
      ensures state == AfterDiscard(old(state), playerId, cardIndex)
    {
      DiscardMovesOneCard(state, playerId, cardIndex);
      if playerId != state.currentPlayer {
        return;
      }
      var playerDiscardCount := GetPlayerDiscardCount(playerId);
      if playerDiscardCount >= 2 {
        return;
      }
      var playerHand := state.players[playerId].hand;
      var discardedCard := playerHand[cardIndex];
      var newHand := playerHand[..cardIndex] + playerHand[cardIndex + 1..];
      var newCrib := state.crib + [discardedCard];
      var isDiscardingComplete := |newCrib| == 4;
      var otherDiscardCount := GetPlayerDiscardCount(Other(playerId));
      state := state.(players := state.players[playerId := state.players[playerId].(hand := newHand)],
                      crib := newCrib,
                      phase := if isDiscardingComplete then Playing else Discarding,
                      currentPlayer :=
                        if isDiscardingComplete then 0
                        else if otherDiscardCount < 2 then Other(playerId) else playerId);
    }

    /** Plays a card from a player's hand, unless it would take the count past
      31, and pegs its points. */
    method PlayCard(playerId: nat, cardIndex: nat)
      requires Valid() && playerId < 2 && cardIndex < |state.players[playerId].hand|
      modifies this
      ensures Valid()
      ensures state == AfterPlay(old(state), playerId, cardIndex)
    {
      var playerHand := state.players[playerId].hand;
      var playedCard := playerHand[cardIndex];
      var newCount := state.currentCount + CardValue(playedCard);
      if newCount > 31 {
        return;
      }
      MoveToPlayKeepsCards(state, playerId, cardIndex);
      var newPlayedCards := state.playedCards + [playedCard];
      var peggingPoints := ScorePegging(state.playedCards, playedCard, state.currentCount);
      var newHand := playerHand[..cardIndex] + playerHand[cardIndex + 1..];
      var allCardsPlayed := |newHand| == 0 && |state.players[Other(playerId)].hand| == 0;
      state := state.(players := state.players[playerId := state.players[playerId].(hand := newHand)],
                      playedCards := newPlayedCards,
                      currentCount := newCount,
                      currentPlayer := Other(playerId),
                      phase := if allCardsPlayed then Counting else state.phase);
      assert state == MoveToPlay(old(state), playerId, cardIndex);
      if peggingPoints > 0 {
        UpdateScore(playerId, peggingPoints);
      }
    }

    /** The pegging points of a play, added up as the play handler does. */
    static method ScorePegging(played: seq<Card>, card: Card, count: int) returns (peggingPoints: nat)
      ensures peggingPoints == PegPoints(played, card, count)
    {
      var newCount := count + CardValue(card);
      peggingPoints := 0;
      if newCount == 15 {
        peggingPoints := peggingPoints + 2;
      }
      if newCount == 31 {
        peggingPoints := peggingPoints + 2;
      }
      var recentCards := LastN(played + [card], 4);
      RecentHoldsCard(played, card);
      var pairCount := RankCount(recentCards, card.rank) - 1;
      if pairCount > 0 {
        peggingPoints := peggingPoints + pairCount * 2;
      }
    }

    /** Whether a player holds a card that keeps the count at 31 or below. */
    method CanPlayAnyCard(playerId: nat) returns (b: bool)
      requires Valid() && playerId < 2
      ensures b <==> exists k :: 0 <= k < |state.players[playerId].hand|
                                 && Playable(state.players[playerId].hand[k], state.currentCount)
    {
      var playerHand := state.players[playerId].hand;
      b := false;
      for k := 0 to |playerHand|
        invariant b <==> exists m :: 0 <= m < k && Playable(playerHand[m], state.currentCount)
      {
        if state.currentCount + CardValue(playerHand[k]) <= 31 {
          b := true;
        }
      }
    }

    /** The current player cannot play: the opponent scores the go. */
    method HandleGo()
      requires Valid()
      modifies this
      ensures Valid()
      ensures state == AfterGo(old(state))
    {
      var currentPlayer := state.currentPlayer as nat;
      var otherPlayer := Other(currentPlayer);
      var otherPlayerCanPlay := CanPlayAnyCard(otherPlayer);
      var currentPlayerCanPlay := CanPlayAnyCard(currentPlayer);
      UpdateScore(otherPlayer, 1);
      state := state.(currentCount := if otherPlayerCanPlay then state.currentCount else 0,
                      currentPlayer := if otherPlayerCanPlay then otherPlayer else currentPlayer,
                      phase := if !otherPlayerCanPlay && !currentPlayerCanPlay then Counting else Playing);
    }

    /** Scores a player's hand with the cut (and, for player 1, the crib); ok
      is false, and nothing changes, when the scorer fails. */
    method HandleHandScoring(playerId: nat) returns (ok: bool)
      requires Valid() && playerId < 2
      modifies this
      ensures Valid()
      ensures ok == AfterShow(old(state), playerId).Some?
      ensures state == if ok then AfterShow(old(state), playerId).value else old(state)
    {
      var score := CalculateHandScore(state.players[playerId].hand, state.cutCard);
      if score.MissingFirstCard? {
        return false;
      }
      if playerId == 0 {
        UpdateScore(0, score.points);
        state := state.(currentPlayer := 1);
      } else {
        var cribScore := CalculateHandScore(state.crib, state.cutCard);
        if cribScore.MissingFirstCard? {
          return false;
        }
        UpdateScore(1, score.points);
        state := state.(phase := Dealing, currentPlayer := 0);
        UpdateScore(1, cribScore.points);
      }
      ok := true;
    }
  }
}
