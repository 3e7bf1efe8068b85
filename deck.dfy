/** Deck construction, the Fisher-Yates shuffle and the count value of a card. */
module Deck {
  import opened GameTypes

  const RANKS: seq<Rank> := [Ace, Two, Three, Four, Five, Six, Seven, Eight, Nine, Ten, Jack, Queen, King]
  const SUITS: seq<Suit> := [Hearts, Diamonds, Clubs, Spades]

  /** Position of a rank in RANKS (the order used to sort and to detect runs). */
  function RankIndex(r: Rank): (k: nat)
    ensures k < |RANKS|
  {
    match r
    case Ace => 0 case Two => 1 case Three => 2 case Four => 3 case Five => 4
    case Six => 5 case Seven => 6 case Eight => 7 case Nine => 8 case Ten => 9
    case Jack => 10 case Queen => 11 case King => 12
  }

  /** RankIndex finds the rank at the position it names. */
  lemma RankIndexInRanks(r: Rank)
    ensures RANKS[RankIndex(r)] == r
  {
  }

  /** Position of a suit in SUITS. */
  function SuitIndex(s: Suit): (k: nat)
    ensures k < |SUITS| && SUITS[k] == s
  {
    match s
    case Hearts => 0 case Diamonds => 1 case Clubs => 2 case Spades => 3
  }

  /** The value a card adds to a count: an ace 1, a numeral its face value,
      a picture card 10. */
  function CardValue(c: Card): (v: int)
    ensures 1 <= v <= 10
    ensures v == if RankIndex(c.rank) < 10 then RankIndex(c.rank) + 1 else 10
  {
    match c.rank
    case Jack => 10 case Queen => 10 case King => 10
    case Ace => 1
    case Two => 2 case Three => 3 case Four => 4 case Five => 5 case Six => 6
    case Seven => 7 case Eight => 8 case Nine => 9 case Ten => 10
  }

  /** The deck is suit-major, rank-minor over SUITS x RANKS, every card face down. */
  ghost predicate IsFullDeck(deck: seq<Card>)
  {
    && |deck| == 52
    && forall s, r :: 0 <= s < |SUITS| && 0 <= r < |RANKS| ==>
         deck[13 * s + r] == Card(SUITS[s], RANKS[r], false)
  }

  method CreateDeck() returns (deck: seq<Card>)
    ensures IsFullDeck(deck)
    ensures deck == FullDeck()
  {
    deck := [];
    for si := 0 to |SUITS|
      invariant |deck| == 13 * si
      invariant forall s, r :: 0 <= s < si && 0 <= r < |RANKS| ==>
                  deck[13 * s + r] == Card(SUITS[s], RANKS[r], false)
    {
      for ri := 0 to |RANKS|
        invariant |deck| == 13 * si + ri
        invariant forall s, r :: 0 <= s < si && 0 <= r < |RANKS| ==>
                    deck[13 * s + r] == Card(SUITS[s], RANKS[r], false)
        invariant forall r :: 0 <= r < ri ==> deck[13 * si + r] == Card(SUITS[si], RANKS[r], false)
      {
        deck := deck + [Card(SUITS[si], RANKS[ri], false)];
      }
    }
    FullDeckUnique(deck);
  }

  /** Splits a deck position into its suit and rank coordinates. */
  function DeckPosition(i: nat): (p: (nat, nat))
    requires i < 52
    ensures p.0 < |SUITS| && p.1 < |RANKS| && i == 13 * p.0 + p.1
  {
    if i < 13 then (0, i) else if i < 26 then (1, i - 13) else if i < 39 then (2, i - 26) else (3, i - 39)
  }

  /** The one sequence that satisfies IsFullDeck, written position by position. */
  function FullDeck(): (d: seq<Card>)
    ensures IsFullDeck(d)
  {
    var d := seq(52, i requires 0 <= i < 52 => Card(SUITS[DeckPosition(i).0], RANKS[DeckPosition(i).1], false));
    forall s, r | 0 <= s < |SUITS| && 0 <= r < |RANKS|
      ensures d[13 * s + r] == Card(SUITS[s], RANKS[r], false)
    {
      var p := DeckPosition(13 * s + r);
      assert p == (s, r);
    }
    d
  }

  lemma FullDeckUnique(deck: seq<Card>)
    requires IsFullDeck(deck)
    ensures deck == FullDeck()
  {
    forall i | 0 <= i < 52
      ensures deck[i] == FullDeck()[i]
    {
      var p := DeckPosition(i);
      assert deck[13 * p.0 + p.1] == Card(SUITS[p.0], RANKS[p.1], false);
    }
  }

  /** RANKS and SUITS list each value once, so an index is recovered from its entry. */
  lemma IndicesRecovered(s: nat, r: nat)
    requires s < |SUITS| && r < |RANKS|
    ensures SuitIndex(SUITS[s]) == s && RankIndex(RANKS[r]) == r
  {
    if r < 4 { assert r == 0 || r == 1 || r == 2 || r == 3; }
    else if r < 8 { assert r == 4 || r == 5 || r == 6 || r == 7; }
    else { assert r == 8 || r == 9 || r == 10 || r == 11 || r == 12; }
    assert s == 0 || s == 1 || s == 2 || s == 3;
  }

  lemma FullDeckAt(deck: seq<Card>, i: nat)
    requires IsFullDeck(deck) && i < |deck|
    ensures !deck[i].faceUp
    ensures SuitIndex(deck[i].suit) == DeckPosition(i).0 && RankIndex(deck[i].rank) == DeckPosition(i).1
  {
    var p := DeckPosition(i);
    assert deck[13 * p.0 + p.1] == Card(SUITS[p.0], RANKS[p.1], false);
    IndicesRecovered(p.0, p.1);
  }

  /** A full deck holds every (suit, rank) exactly once: no two positions agree
      on both, every combination is present, and every card lies face down. */
  lemma FullDeckDistinctAndComplete(deck: seq<Card>)
    requires IsFullDeck(deck)
    ensures forall i, j :: 0 <= i < j < |deck| ==>
              deck[i].suit != deck[j].suit || deck[i].rank != deck[j].rank
    ensures forall suit: Suit, rank: Rank :: Card(suit, rank, false) in deck
    ensures forall i :: 0 <= i < |deck| ==> !deck[i].faceUp
  {
    forall i, j | 0 <= i < j < |deck|
      ensures deck[i].suit != deck[j].suit || deck[i].rank != deck[j].rank
    {
      FullDeckAt(deck, i);
      FullDeckAt(deck, j);
    }
    forall suit: Suit, rank: Rank
      ensures Card(suit, rank, false) in deck
    {
      var s, r := SuitIndex(suit), RankIndex(rank);
      assert deck[13 * s + r] == Card(SUITS[s], RANKS[r], false);
    }
    forall i | 0 <= i < |deck|
      ensures !deck[i].faceUp
    {
      FullDeckAt(deck, i);
    }
  }

  /** `s` with the elements at i and j exchanged. */
  function Swap(s: seq<Card>, i: nat, j: nat): (r: seq<Card>)
    requires i < |s| && j < |s|
    ensures |r| == |s|
  {
    s[i := s[j]][j := s[i]]
  }

  /** The swap indices stand for the random draws: at step i one index in [0, i]. */
  ghost predicate ValidDraws(js: seq<nat>, n: nat)
  {
    |js| == n && forall k :: 0 <= k < n ==> js[k] <= k
  }

  /** Fisher-Yates from position i downwards: swap i with js[i], then continue at i - 1. */
  function FisherYates(s: seq<Card>, js: seq<nat>, i: int): (r: seq<Card>)
    requires ValidDraws(js, |s|) && i < |s|
    ensures |r| == |s|
    decreases i
  {
    if i <= 0 then s else FisherYates(Swap(s, i, js[i]), js, i - 1)
  }

  lemma SwapPermutes(s: seq<Card>, i: nat, j: nat)
    requires i < |s| && j < |s|
    ensures multiset(Swap(s, i, j)) == multiset(s)
  {
  }

  /** Whatever the draws, the shuffle is a permutation of its input. */
  lemma {:induction false} FisherYatesPermutes(s: seq<Card>, js: seq<nat>, i: int)
    requires ValidDraws(js, |s|) && i < |s|
    ensures multiset(FisherYates(s, js, i)) == multiset(s)
    decreases i
  {
    if i > 0 {
      SwapPermutes(s, i, js[i]);
      FisherYatesPermutes(Swap(s, i, js[i]), js, i - 1);
    }
  }

  /** Dropping the first card of a and a matching card of b keeps the two
      multisets equal. */
  lemma RemoveMatching(a: seq<Card>, b: seq<Card>, i: nat)
    requires multiset(a) == multiset(b) && a != [] && i < |b| && b[i] == a[0]
    ensures multiset(a[1..]) == multiset(b[..i] + b[i + 1..])
  {
    assert b == b[..i] + [b[i]] + b[i + 1..];
    assert a == [a[0]] + a[1..];
    assert multiset(b) == multiset(b[..i]) + multiset{b[i]} + multiset(b[i + 1..]);
    assert multiset(a) == multiset{a[0]} + multiset(a[1..]);
    assert multiset(b[..i] + b[i + 1..]) == multiset(b[..i]) + multiset(b[i + 1..]);
    assert multiset{a[0]} + multiset(a[1..]) == multiset{a[0]} + multiset(b[..i] + b[i + 1..]);
    assert multiset(a[1..]) == multiset(a) - multiset{a[0]};
    assert multiset(b[..i] + b[i + 1..]) == multiset(b) - multiset{b[i]};
  }

  /** With a card other than the first removed, the first card stays in front
      and the rest is the tail with that card removed. */
  lemma RemoveLater(s: seq<Card>, i: nat)
    requires 0 < i < |s|
    ensures (s[..i] + s[i + 1..])[0] == s[0]
    ensures (s[..i] + s[i + 1..])[1..] == s[1..][..i - 1] + s[1..][i - 1 + 1..]
  {
  }

  /** Shuffles a copy of `deck` in place; the argument itself is a value and
      cannot change. The result is a permutation of the argument. */
  method ShuffleDeck(deck: seq<Card>, js: seq<nat>) returns (shuffled: seq<Card>)
    requires ValidDraws(js, |deck|)
    ensures shuffled == FisherYates(deck, js, |deck| - 1)
    ensures |shuffled| == |deck| && multiset(shuffled) == multiset(deck)
  {
    var newDeck := new Card[|deck|](k requires 0 <= k < |deck| => deck[k]);
    assert newDeck[..] == deck;
    var i := |deck| - 1;
    while i > 0
      invariant -1 <= i < |deck|
      invariant newDeck.Length == |deck|
      invariant FisherYates(newDeck[..], js, i) == FisherYates(deck, js, |deck| - 1)
    {
      var j := js[i];
      ghost var before := newDeck[..];
      newDeck[i], newDeck[j] := newDeck[j], newDeck[i];
      assert newDeck[..] == Swap(before, i, j);
      i := i - 1;
    }
    shuffled := newDeck[..];
    FisherYatesPermutes(deck, js, |deck| - 1);
  }
}
