/** The deck: 52 cards built suit by suit (hearts, diamonds, clubs, spades),
    ranks 2 to 14 within each suit; cards are dealt by popping from the end. */
module Decks {
  import opened Seqs
  import opened Cards
  import opened Results

  const SuitOrder: seq<Suit> := [Hearts, Diamonds, Clubs, Spades]

  function SuitIndex(s: Suit): (i: nat)
    ensures i < |SuitOrder| && SuitOrder[i] == s
  {
    match s
    case Hearts => 0
    case Diamonds => 1
    case Clubs => 2
    case Spades => 3
  }

  /** Where the card of suit `s` and rank `rank` lies in a fresh deck. */
  function Position(s: Suit, rank: int): nat
    requires ValidRank(rank)
  {
    SuitIndex(s) * 13 + (rank - 2)
  }

  /** A fresh, unshuffled deck: one freshly built card for every suit and
      rank, each at its position. */
  function FreshDeck(): (d: seq<Card>)
    ensures |d| == 52
    ensures forall s: Suit, rank: int {:trigger Position(s, rank)} :: ValidRank(rank) ==>
              Position(s, rank) < 52 && d[Position(s, rank)] == NewCard(s, rank)
  {
    seq(52, i requires 0 <= i < 52 => NewCard(SuitOrder[i / 13], i % 13 + 2))
  }

  /** Every card of a fresh deck has a valid rank and lies at its own
      position, so no suit and rank occurs twice. */
  lemma FreshDeckPositions(i: nat)
    requires i < 52
    ensures var c := FreshDeck()[i];
            ValidRank(c.rank) && Position(c.suit, c.rank) == i && c == NewCard(c.suit, c.rank)
  {
    var s := SuitOrder[i / 13];
    var rank := i % 13 + 2;
    assert Position(s, rank) == i;
  }

  lemma FreshDeckDistinct(i: nat, j: nat)
    requires i < 52 && j < 52 && i != j
    ensures FreshDeck()[i].suit != FreshDeck()[j].suit || FreshDeck()[i].rank != FreshDeck()[j].rank
  {
    FreshDeckPositions(i);
    FreshDeckPositions(j);
  }

  /** The positions of the wild cards in a fresh deck: the four deuces and
      the Jacks of hearts and of spades. */
  lemma FreshDeckWildPositions()
    ensures (set i | 0 <= i < 52 && FreshDeck()[i].wild) == {0, 9, 13, 26, 39, 48}
  {
    forall i | 0 <= i < 52
      ensures FreshDeck()[i].wild <==> i in {0, 9, 13, 26, 39, 48}
    {
      FreshDeckPositions(i);
    }
  }

  /** A fresh deck holds exactly six wild cards. */
  lemma FreshDeckWildCount()
    ensures |set i | 0 <= i < 52 && FreshDeck()[i].wild| == 6
  {
    FreshDeckWildPositions();
  }

  datatype Deck = Deck(cards: seq<Card>)

  /** `Deck()` and `Deck.reset()`, without the shuffle. */
  function Reset(): (d: Deck)
    ensures d.cards == FreshDeck()
  {
    Deck(FreshDeck())
  }

  /** `Deck.deal(n)`: pops `n` cards off the end, so the last card of the
      deck is dealt first; popping from an emptied deck raises `IndexError`. */
  function Deal(d: Deck, n: nat): (r: Result<(seq<Card>, Deck)>)
    ensures r.Ok? <==> n <= |d.cards|
    ensures r.Err? ==> r.error == IndexError
    ensures r.Ok? ==> var (dealt, rest) := r.value;
              && |dealt| == n
              && rest.cards == d.cards[..|d.cards| - n]
              && (forall k :: 0 <= k < n ==> dealt[k] == d.cards[|d.cards| - 1 - k])
              && multiset(dealt) + multiset(rest.cards) == multiset(d.cards)
  {
    if n > |d.cards| then Err(IndexError)
    else
      var cut := |d.cards| - n;
      assert d.cards == d.cards[..cut] + d.cards[cut..];
      ReverseMultiset(d.cards[cut..]);
      Ok((Reverse(d.cards[cut..]), Deck(d.cards[..cut])))
  }

  /** Putting the dealt cards back in the order they were popped restores
      the deck. */
  lemma DealPutBack(d: Deck, n: nat)
    requires n <= |d.cards|
    ensures var (dealt, rest) := Deal(d, n).value;
            rest.cards + Reverse(dealt) == d.cards
  {
    var (dealt, rest) := Deal(d, n).value;
    assert rest.cards + Reverse(dealt) == d.cards;
  }

  /** The dealt cards are the last `n` cards of the deck. */
  lemma DealtAreLast(d: Deck, n: nat)
    requires n <= |d.cards|
    ensures multiset(Deal(d, n).value.0) == multiset(d.cards[|d.cards| - n..])
  {
    var cut := |d.cards| - n;
    assert Deal(d, n).value.0 == Reverse(d.cards[cut..]);
    ReverseMultiset(d.cards[cut..]);
  }

  /** Dealing `n` cards and then `m` more deals what one deal of `n + m`
      cards would, and leaves the same deck. */
  lemma DealTwice(d: Deck, n: nat, m: nat)
    requires n + m <= |d.cards|
    ensures var (first, rest) := Deal(d, n).value;
            var (second, left) := Deal(rest, m).value;
            first + second == Deal(d, n + m).value.0 && left == Deal(d, n + m).value.1
  {
    var (first, rest) := Deal(d, n).value;
    var (second, left) := Deal(rest, m).value;
    var (both, remaining) := Deal(d, n + m).value;
    assert first + second == both;
    assert left.cards == remaining.cards;
  }
}
