# Cribbage rules engine, modelled in Dafny

This project models the core of a two-player cribbage game written as a React
component in TypeScript. The model covers:

- the deck: 52 face-down cards, built suit by suit and shuffled with
  Fisher-Yates;
- the count value of a card;
- the show scorer: fifteens, pairs, runs, flush and nobs (the jack of the cut
  card's suit);
- the computer opponent's two heuristics: which two cards to throw to the crib
  and which card to play;
- the game component's state machine. It deals six cards each, takes two
  discards from each player to the crib, plays cards up to a count of 31 with
  pegging points, scores a "go", and runs the show. A score that reaches 121
  ends the game, except when the point comes from a go: the go handler
  overwrites the phase after the score update (`Game.GoAtWinningScoreKeepsPlaying`).

Modules:

- `GameTypes` (`types.dfy`) holds the records: card, player and game state.
- `Deck` (`deck.dfy`) builds and shuffles the deck.
- `Fifteens`, `Pairs`, `Runs` and `Scoring` (`fifteens.dfy`, `pairs.dfy`,
  `runs.dfy`, `hand_score.dfy`) are the show scorer.
- `Heuristic` (`heuristic.dfy`) is the computer opponent.
- `Game` (`game.dfy`) is the component.

The scorer's loops are methods, each proved equal to a recursive reference
definition. The properties of the scoring are lemmas about those definitions:

- order independence;
- the counts for hands of one rank;
- the 29 hand;
- a flush-only hand.

The component is the class `Game.Game`. It has one `state` field, and each
event handler replaces that field. Every handler is proved to produce a
specification function of the old state (`AfterDeal`, `AfterDiscard`,
`AfterPlay`, `AfterGo`, `AfterShow`, `WithPoints`). The class invariant
`Valid` carries the cards: none before the first deal, and exactly the 52
cards of the deck from then on. The lemmas beside those
functions state what a hand of cribbage keeps:

- exactly the 52 cards of the deck;
- the discard turn order;
- the refusal of a card past 31;
- the scores capped at 121;
- when the game ends.

Two lemmas record behaviour of the component as it is written:

- `Game.LastPlayLeavesNothingToShow`. The play removes cards from the hands,
  and the show scores those same hands. So after the last card of the play,
  scoring the non-dealer's hand meets an empty hand with a cut card present.
  The scorer then reads the suit of a missing first card.
- `Game.PlayAgainKeepsScores`. "Play Again" calls the same handler as "Deal
  Next Hand", which keeps the players' scores. A winner keeps 121, and the
  next point scored ends the game again.

## Model

Five helpers have no row of their own, because their contracts are their
definitions:

- `Fifteens.Prepend`, the spread-push of getCombinations;
- `Fifteens.Singletons`, its `map` for size 1;
- `Fifteens.CombinationsFromHead`, one unfolding of the loop of
  getCombinations;
- `Heuristic.LastN`, which is `slice(-n)`;
- `Scoring.NoFlushScore`, the branch of the hand score without a flush.

What they mean is stated by `Fifteens.CountSumPrepend`,
`Fifteens.SingletonsCount`, `Fifteens.CombinationsFromCount`,
`Heuristic.LastNAppend`, `Game.RecentHoldsCard` and `Scoring.TwentyNineHand`.
`LastN(s, n)` agrees with `slice(-n)` for n >= 1 only, since `slice(-0)` is the
whole array. The source calls it with 3 and 4.

| member | source | states |
|---|---|---|
| Deck.RankIndex | src/utils/gameUtils.ts:3 | the index of a rank in the RANKS order (A low, K high) lies inside RANKS |
| Deck.RankIndexInRanks | src/utils/gameUtils.ts:3 | RANKS at a rank's index is that rank, so indexOf finds every rank |
| Deck.SuitIndex | src/utils/gameUtils.ts:4 | the index of a suit in the SUITS order names that suit |
| Deck.CardValue | src/utils/gameUtils.ts:25-29 | J, Q and K count 10, an ace 1 and a numeral its face value, so every value lies in 1..10 |
| Deck.CreateDeck | src/utils/gameUtils.ts:6-14 | the loop over suits then ranks yields the full deck: 52 face-down cards, card 13*s + r is (SUITS[s], RANKS[r]) |
| Deck.FullDeck | src/utils/gameUtils.ts:6-14 | the suit-major deck, position by position |
| Deck.FullDeckUnique | src/utils/gameUtils.ts:6-14 | only one sequence is a full deck |
| Deck.FullDeckDistinctAndComplete | src/utils/gameUtils.ts:6-14 | a full deck holds every (suit, rank) once, no two positions agree, and no card is face up |
| Deck.DeckPosition | src/utils/gameUtils.ts:8-10 | a deck position splits into a suit index and a rank index with position = 13 * suit + rank |
| Deck.FullDeckAt | src/utils/gameUtils.ts:8-10 | the card at each position has that position's suit and rank and is face down |
| Deck.IndicesRecovered | src/utils/gameUtils.ts:3-4 | RANKS and SUITS have no repeats, so an entry's index is its position |
| Deck.Swap | src/utils/gameUtils.ts:20 | exchanging two entries keeps the length |
| Deck.SwapPermutes | src/utils/gameUtils.ts:20 | exchanging two entries keeps the multiset of cards |
| Deck.FisherYates | src/utils/gameUtils.ts:16-23 | the shuffle from position i downwards, one swap per step with a drawn index in [0, i]; it keeps the length |
| Deck.FisherYatesPermutes | src/utils/gameUtils.ts:16-23 | whatever the draws, the shuffle is a permutation of the deck |
| Deck.ShuffleDeck | src/utils/gameUtils.ts:16-23 | the in-place loop on an array copy returns the Fisher-Yates shuffle of the input, a permutation of it |
| Fifteens.Combinations | src/utils/gameUtils.ts:34-44 | getCombinations itself; it has no contract of its own, and CombinationsCount and CombinationsLength pin it down |
| Fifteens.CombinationsFrom | src/utils/gameUtils.ts:37-42 | the for loop of getCombinations from start position i; no contract of its own, pinned down by CombinationsFromCount and CombinationsFromLength |
| Fifteens.CombinationsLength | src/utils/gameUtils.ts:34-44 | getCombinations returns C(n, size) combinations of n cards |
| Fifteens.CombinationsFromLength | src/utils/gameUtils.ts:37-42 | the loop from start position i returns C(n - i, size) combinations |
| Fifteens.CountSumAppend | src/utils/gameUtils.ts:47-53 | the matches of a concatenation of combination lists add up |
| Fifteens.CountSumPrepend | src/utils/gameUtils.ts:39-41 | putting a card in front matches the target exactly when the rest matches the target minus its value |
| Fifteens.WaysTooMany | src/utils/gameUtils.ts:37 | no subset has more cards than the hand |
| Fifteens.WaysNone | src/utils/gameUtils.ts:47 | the empty subset sums only to 0 |
| Fifteens.SingletonsCount | src/utils/gameUtils.ts:35 | the one-card combinations that hit a total are the one-element subsets that do |
| Fifteens.CombinationsCount | src/utils/gameUtils.ts:34-44 | for every total, as many combinations of a given size hit it as index subsets of that size do |
| Fifteens.CombinationsFromCount | src/utils/gameUtils.ts:37-42 | for every total, as many combinations from the loop at start position i hit it as subsets of the cards from i on do |
| Fifteens.CombinationsFromStep | src/utils/gameUtils.ts:37-42 | for every total, one loop step adds as many matching combinations as there are matching subsets that take card i |
| Fifteens.CalculateFifteens | src/utils/gameUtils.ts:31-55 | the enumeration over sizes 2..n returns twice the number of card subsets (two or more cards) whose values add up to 15 |
| Fifteens.WaysRemove | src/utils/gameUtils.ts:31-55 | the subsets of any card position split into those without it and those with it (one card fewer, its value less) |
| Fifteens.WaysPermutation | src/utils/gameUtils.ts:31-55 | the subset counts depend only on the multiset of cards |
| Fifteens.WaysBetweenPermutation | src/utils/gameUtils.ts:47-53 | the same, summed over a range of sizes |
| Fifteens.FifteensOrderIndependent | src/utils/gameUtils.ts:31-55 | the fifteens score does not depend on the order of the cards |
| Fifteens.UniformWays | src/utils/gameUtils.ts:31-55 | with every card of value v, the k-subsets that sum to t number C(n, k) when t = v*k, and none otherwise |
| Fifteens.EvenValuesOddTarget | src/utils/gameUtils.ts:50-51 | cards of even value never sum to an odd total |
| Fifteens.EvenValuesNoFifteens | src/utils/gameUtils.ts:31-55 | cards of even value score no fifteens |
| Pairs.CalculatePairs | src/utils/gameUtils.ts:57-65 | the double loop returns 2 points per index pair i < j of equal rank |
| Pairs.SameRankPairs | src/utils/gameUtils.ts:57-65 | n cards of one rank make n(n-1)/2 pairs: 2 for a pair, 6 for three and 12 for four of a kind |
| Pairs.DistinctRanksNoPairs | src/utils/gameUtils.ts:57-65 | cards of pairwise different ranks score no pairs |
| Pairs.PairsOrderIndependent | src/utils/gameUtils.ts:57-65 | the pairs score does not depend on the order of the cards |
| Pairs.RankCountMultiset | src/utils/gameUtils.ts:61 | the number of cards of a rank depends only on the multiset |
| Pairs.RankCountRemove | src/utils/gameUtils.ts:61 | removing a card lowers the count of its own rank by one and leaves the others |
| Pairs.PairCountRemove | src/utils/gameUtils.ts:59-63 | removing a card removes exactly the pairs it formed |
| Pairs.RankCountAppend | src/App.tsx:169-171 | appending a card adds one to the count of its rank only |
| Pairs.RankCountAtMostLength | src/App.tsx:169-171 | a rank occurs at most as often as there are cards |
| Pairs.AllOfRank | src/utils/gameUtils.ts:61 | in cards all of one rank, every card counts |
| Pairs.NoneOfRank | src/utils/gameUtils.ts:61 | in cards none of which has the rank, none counts |
| Runs.Insert | src/utils/gameUtils.ts:69 | inserting one card into the sorted list adds one card |
| Runs.InsertPermutes | src/utils/gameUtils.ts:69 | the insertion keeps every card, adding the new one |
| Runs.InsertSorted | src/utils/gameUtils.ts:69 | inserting into a rank-sorted list keeps it sorted |
| Runs.SortByRank | src/utils/gameUtils.ts:69 | the sort by rank index is a permutation of the cards |
| Runs.SortByRankSorted | src/utils/gameUtils.ts:69 | the result is in ascending rank order |
| Runs.ChainFrom | src/utils/gameUtils.ts:72-79 | the chain of +1 steps from a position has between 1 card and the cards left |
| Runs.RunFrom | src/utils/gameUtils.ts:72-79 | the inner loop returns the length of the chain of consecutive ranks starting at i |
| Runs.ThresholdOfMax | src/utils/gameUtils.ts:80-82 | keeping a new chain only when it reaches 3 and beats the best, then zeroing a best below 3, is the threshold of the longest chain |
| Runs.CalculateRuns | src/utils/gameUtils.ts:67-83 | the loops return the runs score: the longest chain in the sorted cards, if it has 3 or more cards, and 0 otherwise |
| Runs.ChainFromIsMaximal | src/utils/gameUtils.ts:73-79 | the chain from a position is consecutive, and no consecutive stretch from there is longer |
| Runs.LongestIsMax | src/utils/gameUtils.ts:71-81 | the longest chain is reached at some start and bounds every chain |
| Runs.RunsIsLongestChain | src/utils/gameUtils.ts:67-83 | the runs score is 0 or the length L of an actual chain, with 3 <= L <= number of cards and L <= 13; every stretch of 3 or more consecutive ranks is at most L |
| Runs.ChainRankSpan | src/utils/gameUtils.ts:74 | along a chain the rank index rises by one per card, so a chain spans at most 13 ranks |
| Runs.NoNeighbouringRanksNoRuns | src/utils/gameUtils.ts:67-83 | when no two cards are one rank apart, the runs score is 0 |
| Scoring.HandScore | src/utils/gameUtils.ts:85-110 | the scorer fails exactly when the hand is empty and a cut card is present |
| Scoring.CalculateHandScore | src/utils/gameUtils.ts:85-110 | the method adds fifteens, pairs and runs over hand plus cut, 4 for a one-suit hand (5 when the cut matches) and 1 for nobs, and fails on an empty hand with a cut |
| Scoring.TenAndFourFivesFifteens | src/utils/gameUtils.ts:31-55 | a ten-card with four fives makes 8 fifteens |
| Scoring.JackAndFourFivesPairs | src/utils/gameUtils.ts:57-65 | a jack with four fives makes 6 pairs |
| Scoring.JackFirst | src/utils/gameUtils.ts:86 | moving the jack in front of the fives keeps the cards scored |
| Scoring.TwentyNineFifteens | src/utils/gameUtils.ts:31-55 | three fives and a jack in hand, with a five cut, make 8 fifteens |
| Scoring.TwentyNinePairs | src/utils/gameUtils.ts:57-65 | the same cards make 6 pairs |
| Scoring.TwentyNineHand | src/utils/gameUtils.ts:85-110 | three fives and the jack of the cut's suit, with a five cut, score 29 |
| Scoring.FlushOnly | src/utils/gameUtils.ts:98-102 | a four-card flush with nothing else scores 4, or 5 when the cut matches the suit |
| Heuristic.EvaluateHand | src/utils/aiUtils.ts:5-7 | the estimate is the show score, and never fails without a cut card |
| Heuristic.KeepFrom | src/utils/aiUtils.ts:17 | the filter keeps every card from k on except those at i and j |
| Heuristic.Remaining | src/utils/aiUtils.ts:17 | dropping positions i < j leaves two fewer cards |
| Heuristic.RemainingIsRest | src/utils/aiUtils.ts:17-18 | the kept cards are the three slices around i and j, and together with the thrown pair they are the whole hand |
| Heuristic.KeepFromAfter | src/utils/aiUtils.ts:17 | past both dropped positions every card is kept |
| Heuristic.KeepFromBetween | src/utils/aiUtils.ts:17 | between the dropped positions the cards up to j are kept, then the rest |
| Heuristic.KeepFromBefore | src/utils/aiUtils.ts:17 | before i the filter keeps the slices around both dropped positions |
| Heuristic.ScoreDiscard | src/utils/aiUtils.ts:17-26 | the loop body's score is twice the kept cards' score plus the thrown pair's score (dealer) or minus it (non-dealer) |
| Heuristic.ScoreRow | src/utils/aiUtils.ts:16-33 | after trying every j > i the search state holds through row i |
| Heuristic.SearchStep | src/utils/aiUtils.ts:28-32 | a strictly better score replaces the best pair, any other leaves it |
| Heuristic.SearchNextRow | src/utils/aiUtils.ts:15-16 | finishing a row moves the search to the next row |
| Heuristic.SearchDone | src/utils/aiUtils.ts:36 | once all rows are done, the result is [] exactly when no pair beats -1, and otherwise the first pair of highest value |
| Heuristic.NoneAboveStep | src/utils/aiUtils.ts:28 | one more pair tried keeps "no pair so far beats the best" |
| Heuristic.NoneAboveNextRow | src/utils/aiUtils.ts:15-16 | the same across a row change |
| Heuristic.NoneAboveIsBelow | src/utils/aiUtils.ts:28-32 | a new strict best is strictly above every earlier pair |
| Heuristic.ChooseBestDiscard | src/utils/aiUtils.ts:10-37 | the result is [] exactly when no pair (i < j) beats -1; otherwise it is a pair i < j of highest value, strictly above every pair tried before it |
| Heuristic.PlayableIndices | src/utils/aiUtils.ts:45-49 | the filtered playable positions number at most the cards |
| Heuristic.PlayableIndicesSound | src/utils/aiUtils.ts:45-49 | every listed position is in the hand, holds a card that keeps the count at 31 or below, and the list is increasing |
| Heuristic.PlayableIndicesCons | src/utils/aiUtils.ts:45-49 | a playable card at the start is listed first, in front of the later positions; given that the later positions are in range, playable and increasing, so is the whole list |
| Heuristic.PlayableIndicesComplete | src/utils/aiUtils.ts:45-49 | every playable position is listed |
| Heuristic.LastNAppend | src/App.tsx:163-169 | the last n+1 cards after appending c are the last n before, then c |
| Heuristic.PlayScore | src/utils/aiUtils.ts:57-71 | a candidate play's estimate (scaled by ten) is never negative |
| Heuristic.ScorePlay | src/utils/aiUtils.ts:57-71 | the loop body computes that estimate |
| Heuristic.BestAmongRaise | src/utils/aiUtils.ts:73-76 | a strictly higher score becomes the best play |
| Heuristic.BestAmongKeep | src/utils/aiUtils.ts:73-76 | any other score leaves the best play |
| Heuristic.BestPlayIsBest | src/utils/aiUtils.ts:56-79 | best among the playable positions means best among the playable cards of the hand, and strictly above every earlier playable card |
| Heuristic.BestOfPlayable | src/utils/aiUtils.ts:53-79 | the loop over the playable positions returns the first of highest estimate |
| Heuristic.ChooseBestPlay | src/utils/aiUtils.ts:40-80 | -1 exactly when no card keeps the count at 31 or below; otherwise a playable index whose estimate is highest among playable cards and strictly above every earlier playable card |
| Game.Capped | src/App.tsx:116 | a score is capped at 121, and it is kept exactly when it does not exceed 121 |
| Game.Other | src/App.tsx:101 | (id + 1) % 2 names the other player |
| Game.WithPoints | src/App.tsx:111-134 | the player's score rises by the points, capped at 121, and the opponent and all else are unchanged; the game is over exactly when the uncapped sum reaches 121 (or was already over); otherwise the phase stays |
| Game.AfterDeal | src/App.tsx:48-68 | the deal of a shuffled deck keeps the state valid |
| Game.DealConservesCards | src/App.tsx:48-68 | a deal gives 6 cards to each player and 40 to the stock with the cut card on top, keeps the scores, and holds each card of the deck exactly once |
| Game.DealSplit | src/App.tsx:50-52 | the two hands and the stock are the whole shuffled deck |
| Game.ConservedCardsUnique | src/utils/gameUtils.ts:6-14 | when the state holds the deck's cards, no card is in two places |
| Game.DistinctAtMostOnce | src/utils/gameUtils.ts:6-14 | a sequence without repeats holds each card at most once |
| Game.SpliceMultiset | src/App.tsx:88 | splice(i, 1) takes exactly the card at i out of the hand |
| Game.DiscardCount | src/App.tsx:70-72 | the crib positions counted for player 0 number (len + 1) / 2, for player 1 len / 2, and for any other id none |
| Game.AfterDiscard | src/App.tsx:74-109 | a discard keeps the state valid |
| Game.DiscardMovesOneCard | src/App.tsx:74-109 | a discard changes nothing exactly when the player is not current or already has two crib positions; otherwise exactly the chosen card moves from the hand to the end of the crib and nothing else moves |
| Game.DiscardInTurn | src/App.tsx:82-101 | while discarding with the current player equal to the crib length mod 2, a discard is accepted; afterwards that order still holds, or the crib has 4 cards and play starts with player 0 |
| Game.DiscardPair | src/App.tsx:82-101 | discards by player 0 then player 1 from a crib of length 0 or 2 take one card from each hand, keep every card, and leave player 0 to move, discarding again or playing once the crib is full |
| Game.DiscardRound | src/App.tsx:74-109 | from a fresh deal, the in-turn discards 0, 1, 0, 1 fill the crib, take two cards from each hand, keep every card, and start the play with player 0 |
| Game.CanPlayAny | src/App.tsx:201-206 | true exactly when some card of the hand keeps the count at 31 or below |
| Game.RecentHoldsCard | src/App.tsx:169-171 | the last four played cards end with the card just played, so its rank occurs 1 to 4 times there |
| Game.PegPoints | src/App.tsx:161-172 | the pegging points are even and at most 8 |
| Game.PlayScoreEstimatesPegging | src/utils/aiUtils.ts:57-71 | the opponent's estimate is ten times the pegging points, plus 10 minus the card's value while fewer than four cards are down |
| Game.SeparatedPairPegs | src/App.tsx:169-172 | a card of the same rank two plays back, with another rank between, still pegs 2 |
| Game.HandMoveKeepsCards | src/App.tsx:87-89 | moving a card from a hand to the crib or the played cards keeps every card of the state |
| Game.MoveBetweenParts | src/App.tsx:87-89 | moving one card between parts keeps the whole multiset |
| Game.WithPointsKeepsCards | src/App.tsx:111-134 | a score update moves no card |
| Game.MoveToPlay | src/App.tsx:174-193 | moving the played card keeps the state valid |
| Game.MoveToPlayKeepsCards | src/App.tsx:174-193 | moving the played card from the hand to the played cards keeps every card of the state |
| Game.AfterPlay | src/App.tsx:153-199 | a play keeps the state valid |
| Game.PlayRefusedPastThirtyOne | src/App.tsx:157-159 | a play changes nothing exactly when the card would take the count past 31 |
| Game.PlayMovesOneCard | src/App.tsx:153-199 | an accepted play appends the card to the played cards, raises the count by its value, passes the turn, removes exactly that card from the hand, leaves the opponent, stock, crib and cut card alone, raises the score by the pegging points (capped), and keeps every card |
| Game.AfterGo | src/App.tsx:208-227 | a go keeps the state valid |
| Game.GoMovesNoCard | src/App.tsx:208-227 | a go moves no card, gives the opponent exactly one point (capped), leaves the current player alone, and ends the play (counting) exactly when neither hand has a playable card |
| Game.GoAtWinningScoreKeepsPlaying | src/App.tsx:213-226 | a go point that reaches 121 does not end the game: the phase is overwritten with playing or counting |
| Game.AfterShow | src/App.tsx:136-151 | the show fails exactly when a cut is set and the hand is empty, or the dealer's crib is empty; otherwise the state stays valid |
| Game.DealerShowEndsGame | src/App.tsx:136-151 | after the dealer's show the game is over exactly when the dealer's score plus hand and crib points reaches 121, otherwise dealing is next with that score; the non-dealer is unchanged |
| Game.NonDealerShow | src/App.tsx:136-144 | the non-dealer's show adds the hand-and-cut points (capped) to player 0 and passes the turn to player 1; the dealer is unchanged, and the game is over exactly when that total reaches 121 or it already was, otherwise the phase stays |
| Game.ShowKeepsCards | src/App.tsx:136-151 | the show moves no card, so a state holding the deck's 52 cards still holds them |
| Game.LastPlayLeavesNothingToShow | src/App.tsx:136-199 | after the last card of the play both hands are empty, the phase is counting (or the game is over), and the non-dealer's show fails |
| Game.PlayAgainKeepsScores | src/App.tsx:48-68 | a new deal after the game ends keeps the winner's 121, and the next point ends the game again |
| Game.Game.constructor | src/App.tsx:32-43 | the initial state: no cards, players "Player 1" and "Player 2" with score 0, player 0 current, phase dealing |
| Game.Game.UpdateScore | src/App.tsx:111-134 | the handler's new state is WithPoints of the old, and it keeps the class invariant, cards included |
| Game.Game.StartNewGame | src/App.tsx:48-68 | with any random draws, the handler deals a Fisher-Yates shuffle of a fresh deck, and the new state holds the deck's 52 cards exactly |
| Game.Game.GetPlayerDiscardCount | src/App.tsx:70-72 | the filter loop counts the crib positions of the player's parity |
| Game.Game.DiscardToCrib | src/App.tsx:74-109 | the handler's new state is AfterDiscard of the old, and it keeps the class invariant, cards included |
| Game.Game.ScorePegging | src/App.tsx:161-172 | the pegging points are added up as PegPoints states |
| Game.Game.PlayCard | src/App.tsx:153-199 | the handler's new state is AfterPlay of the old, and it keeps the class invariant, cards included |
| Game.Game.CanPlayAnyCard | src/App.tsx:201-206 | true exactly when some card of the player's hand keeps the count at 31 or below |
| Game.Game.HandleGo | src/App.tsx:208-227 | the handler's new state is AfterGo of the old, and it keeps the class invariant, cards included |
| Game.Game.HandleHandScoring | src/App.tsx:136-151 | the handler succeeds exactly when AfterShow is defined, and then its new state is AfterShow's; on failure nothing changes; the class invariant, cards included, is kept |

## Left out

- Randomness: `Math.random` in the shuffle is replaced by a parameter `js`, a sequence of swap indices with `js[i]` in `[0, i]`. Every property holds for every such sequence.
- The rendering (JSX, the phase instructions, the disabled and unplayable card styles) is not modelled.
- The effect that deals on mount is not modelled.
- The pending-discard set is not modelled. It only guards double clicks on one card within a render.
- React state batching is modelled as the handler's queued updates applied in order to the latest state. The handler's reads of the render-time state (the hands and crib in `discardToCrib`, `playCard` and `canPlayAnyCard`) are the old state.
- Double invocation of updaters, as in React's strict mode, is not modelled. The nested `updateScore` inside the show's updater would then add the crib points twice.
- `isCurrent` is never updated by the source, so the model never updates it either.
- Heuristic.ChooseBestDiscard: the crib weight 0.5 is a float; every discard score is scaled by 2 so that it stays an integer. The order of candidates is unchanged.
- Heuristic.ChooseBestPlay: the bonus `(10 - value) * 0.1` is scaled by 10 in the same way.
- Game.Game.DiscardToCrib: the model requires an in-range card index whenever the discard is accepted. The source would put `undefined` into the crib.
- Game.Game.PlayCard: the model requires an in-range card index. The source would fail reading the value of `undefined`.
- Game.Game.UpdateScore: points are natural numbers. Every caller adds 0 or more points.
- Game.Game.HandleHandScoring: when the scorer fails, the source raises a TypeError (`hand[0]` is undefined). The model returns `false` and leaves the state unchanged.
- `parseInt` on numeral ranks is modelled by the rank's position in the rank order.
