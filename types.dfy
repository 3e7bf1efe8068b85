/** The card and game-state vocabulary of the cribbage engine. */
module GameTypes {

  datatype Suit = Hearts | Diamonds | Clubs | Spades

  /** Ranks in the order A (low) .. K (high). */
  datatype Rank = Ace | Two | Three | Four | Five | Six | Seven | Eight | Nine | Ten | Jack | Queen | King

  /** `faceUp` is a display flag; no scoring rule reads it. */
  datatype Card = Card(suit: Suit, rank: Rank, faceUp: bool)

  datatype Player = Player(id: int, name: string, hand: seq<Card>, score: int, isCurrent: bool)

  datatype Phase = Dealing | Discarding | Playing | Counting | GameOver

  datatype Option<T> = None | Some(value: T)

  /** The single value the game component keeps and replaces on every action.
      `cutCard` is absent until the first deal. */
  datatype GameState = GameState(
    deck: seq<Card>,
    players: seq<Player>,
    crib: seq<Card>,
    cutCard: Option<Card>,
    phase: Phase,
    currentPlayer: int,
    playedCards: seq<Card>,
    currentCount: int)
}
