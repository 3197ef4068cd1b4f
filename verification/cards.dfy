/** A playing card: suit, rank 2..14 (11..14 are Jack, Queen, King, Ace),
    a stored wild flag and the display label `rank` followed by the suit name. */
module Cards {

  datatype Suit = Hearts | Diamonds | Clubs | Spades

  /** The suit names the game writes into labels. */
  function SuitName(s: Suit): string {
    match s
    case Hearts => "hearts"
    case Diamonds => "diamonds"
    case Clubs => "clubs"
    case Spades => "spades"
  }

  predicate ValidRank(rank: int) {
    2 <= rank <= 14
  }

  /** The wild flag is a field rather than a derived value: a card that replaces
      a wild card is marked wild whatever its suit and rank. */
  datatype Card = Card(suit: Suit, rank: int, wild: bool)

  /** A freshly built card: the deuces and the red-and-black one-eyed Jacks
      (hearts and spades) are wild, every other card is not. */
  function NewCard(suit: Suit, rank: int): (c: Card)
    ensures c.suit == suit && c.rank == rank
    ensures c.wild <==> rank == 2 || (rank == 11 && (suit == Hearts || suit == Spades))
    ensures (3 <= rank <= 10 || 12 <= rank <= 14) ==> !c.wild
    ensures rank == 11 && (suit == Diamonds || suit == Clubs) ==> !c.wild
  {
    Card(suit, rank, rank == 2 || (rank == 11 && (suit == Hearts || suit == Spades)))
  }

  predicate IsDigit(ch: char) {
    '0' <= ch <= '9'
  }

  predicate AllDigits(s: string) {
    forall i :: 0 <= i < |s| ==> IsDigit(s[i])
  }

  /** Decimal numeral of a natural number, most significant digit first. */
  function NatDecimal(n: nat): (s: string)
    ensures |s| > 0 && AllDigits(s)
  {
    var d := (n % 10 + '0' as int) as char;
    if n < 10 then [d] else NatDecimal(n / 10) + [d]
  }

  /** Python's `str` on an integer. */
  function Decimal(n: int): string {
    if n < 0 then "-" + NatDecimal(-n) else NatDecimal(n)
  }

  /** Reads a string of digits back as a number (Python's `int` on digits). */
  function ParseNat(s: string): nat
    requires AllDigits(s)
  {
    if |s| == 0 then 0
    else ParseNat(s[..|s| - 1]) * 10 + (s[|s| - 1] as int - '0' as int)
  }

  /** Reading a numeral back gives the number it was written from. */
  lemma {:induction false} ParseNatDecimal(n: nat)
    ensures ParseNat(NatDecimal(n)) == n
  {
    var s := NatDecimal(n);
    if n >= 10 {
      ParseNatDecimal(n / 10);
      assert s[..|s| - 1] == NatDecimal(n / 10);
    }
  }

  /** The label a card shows: its rank in decimal followed by its suit name. */
  function Label(c: Card): string {
    Decimal(c.rank) + SuitName(c.suit)
  }

  /** What the game sends to a client for each card: label and wild flag. */
  function View(hand: seq<Card>): (v: seq<(string, bool)>)
    ensures |v| == |hand|
    ensures forall i :: 0 <= i < |hand| ==> v[i] == (Label(hand[i]), hand[i].wild)
  {
    if |hand| == 0 then [] else [(Label(hand[0]), hand[0].wild)] + View(hand[1..])
  }

  /** A digit string followed by a suit name splits in only one place. */
  lemma DigitsThenName(d1: string, n1: string, d2: string, n2: string)
    requires AllDigits(d1) && AllDigits(d2)
    requires |n1| > 0 && !IsDigit(n1[0]) && |n2| > 0 && !IsDigit(n2[0])
    requires d1 + n1 == d2 + n2
    ensures d1 == d2 && n1 == n2
  {
    var l := d1 + n1;
    assert d1 == l[..|d1|] && d2 == l[..|d2|];
    assert n1 == l[|d1|..] && n2 == l[|d2|..];
  }

  /** Labels identify cards: two cards of non-negative rank (in particular the
      52 cards of the deck) with the same label have the same suit and rank. */
  lemma LabelInjective(c1: Card, c2: Card)
    requires c1.rank >= 0 && c2.rank >= 0
    requires Label(c1) == Label(c2)
    ensures c1.suit == c2.suit && c1.rank == c2.rank
  {
    DigitsThenName(NatDecimal(c1.rank), SuitName(c1.suit), NatDecimal(c2.rank), SuitName(c2.suit));
    ParseNatDecimal(c1.rank);
    ParseNatDecimal(c2.rank);
  }
}
