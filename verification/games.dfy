/** The game state between rounds: the players in joining order, their
    hands, bets and scores kept in insertion-ordered dictionaries, the deck
    and the round counters; and the operations that change one of them. */
module Games {
  import opened Seqs
  import opened Cards
  import opened Results
  import opened Dicts
  import opened Sorting
  import opened Decks

  /** A bet's direction as a client sends it: "high", "low", or anything
      else, which includes the reset value "none". */
  datatype Direction = High | Low | NoDirection

  datatype Bet = Bet(amount: int, direction: Direction)

  /** The bet every player holds before betting: `(0, "none")`. */
  const NoBet := Bet(0, NoDirection)

  datatype Game = Game(
    players: seq<string>,
    hands: Dict<seq<Card>>,
    bets: Dict<Bet>,
    scores: Dict<int>,
    started: bool,
    deck: Deck,
    rounds: int,
    roundsLeft: int)

  /** `Game()`: no players, an unstarted game, a fresh deck. */
  function NewGame(): (g: Game)
    ensures |g.players| == 0 && !g.started && g.rounds == 0 && g.roundsLeft == 0
    ensures g.hands.values == map[] && g.bets.values == map[] && g.scores.values == map[]
    ensures g.deck.cards == FreshDeck()
  {
    Game([], Empty(), Empty(), Empty(), false, Reset(), 0, 0)
  }

  /** Every player listed once, and each of the three dictionaries holds
      exactly the players. This is the shape the join path keeps, since it
      turns away a name already taken. */
  predicate WellFormed(g: Game) {
    && Distinct(g.players)
    && Valid(g.hands) && Valid(g.bets) && Valid(g.scores)
    && (forall i :: 0 <= i < |g.players| ==>
          g.players[i] in g.hands.values && g.players[i] in g.bets.values && g.players[i] in g.scores.values)
    && (forall u :: u in g.hands.values ==> u in g.players)
    && (forall u :: u in g.bets.values ==> u in g.players)
    && (forall u :: u in g.scores.values ==> u in g.players)
  }

  /** `add_player`: appends the name and gives it an empty hand, no bet and
      a zero score, whatever it held before. */
  function AddPlayer(g: Game, u: string): (r: Game)
    ensures r.players == g.players + [u]
    ensures r.hands.values == g.hands.values[u := []]
    ensures r.bets.values == g.bets.values[u := NoBet]
    ensures r.scores.values == g.scores.values[u := 0]
    ensures r.started == g.started && r.deck == g.deck && r.rounds == g.rounds && r.roundsLeft == g.roundsLeft
  {
    g.(players := g.players + [u], hands := Put(g.hands, u, []), bets := Put(g.bets, u, NoBet),
       scores := Put(g.scores, u, 0))
  }

  /** Appending a name keeps a list of distinct names distinct exactly when
      the name is new. */
  lemma AppendDistinct(s: seq<string>, u: string)
    requires Distinct(s)
    ensures Distinct(s + [u]) <==> u !in s
  {
    var t := s + [u];
    if u in s {
      var i :| 0 <= i < |s| && s[i] == u;
      assert t[i] == t[|s|];
    } else {
      forall i, j | 0 <= i < j < |t| ensures t[i] != t[j] {
        if j == |s| {
          assert t[i] == s[i];
        } else {
          assert t[i] == s[i] && t[j] == s[j];
        }
      }
    }
  }

  /** After the join every player has an entry in each dictionary. */
  lemma AddPlayerEntries(g: Game, u: string)
    requires WellFormed(g)
    ensures var r := AddPlayer(g, u);
            forall i :: 0 <= i < |r.players| ==>
              r.players[i] in r.hands.values && r.players[i] in r.bets.values && r.players[i] in r.scores.values
  {
    var r := AddPlayer(g, u);
    forall i | 0 <= i < |r.players|
      ensures r.players[i] in r.hands.values && r.players[i] in r.bets.values && r.players[i] in r.scores.values
    {
      if i < |g.players| {
        assert r.players[i] == g.players[i];
      }
    }
  }

  /** After the join every dictionary entry belongs to a player. */
  lemma AddPlayerOwners(g: Game, u: string)
    requires WellFormed(g)
    ensures var r := AddPlayer(g, u);
            && (forall v :: v in r.hands.values ==> v in r.players)
            && (forall v :: v in r.bets.values ==> v in r.players)
            && (forall v :: v in r.scores.values ==> v in r.players)
  {
    var r := AddPlayer(g, u);
    forall v | v in r.hands.values || v in r.bets.values || v in r.scores.values
      ensures v in r.players
    {
      if v == u {
        assert r.players[|g.players|] == u;
      } else {
        assert v in g.hands.values || v in g.bets.values || v in g.scores.values;
        assert v in g.players;
        assert v in g.players + [u];
      }
    }
  }

  /** Adding a new name keeps the game well formed; adding a name already
      present lists it twice. */
  lemma AddPlayerWellFormed(g: Game, u: string)
    requires WellFormed(g)
    ensures WellFormed(AddPlayer(g, u)) <==> u !in g.players
  {
    AppendDistinct(g.players, u);
    AddPlayerEntries(g, u);
    AddPlayerOwners(g, u);
  }

  /** Python's `list.remove`: drops the first occurrence, and the other
      names keep their order. */
  function RemoveName(s: seq<string>, u: string): (r: seq<string>)
    requires u in s
    ensures |r| == |s| - 1
    ensures multiset(r) == multiset(s) - multiset{u}
    ensures forall i :: 0 <= i < |s| && s[i] == u && u !in s[..i] ==> r == s[..i] + s[i + 1..]
  {
    if s[0] == u then
      FirstAtHead(s, u);
      s[1..]
    else
      var t := RemoveName(s[1..], u);
      RemoveNameCons(s, u, t);
      RemoveNameConsCount(s, u, t);
      [s[0]] + t
  }

  /** A name at the head occurs first nowhere else. */
  lemma FirstAtHead(s: seq<string>, u: string)
    requires |s| > 0 && s[0] == u
    ensures forall i :: 0 <= i < |s| && s[i] == u && u !in s[..i] ==> i == 0
    ensures multiset(s[1..]) == multiset(s) - multiset{u}
  {
    assert s == [s[0]] + s[1..];
    forall i | 0 < i < |s| ensures s[0] in s[..i] {
      assert s[..i][0] == s[0];
    }
  }

  /** The recursive step of `RemoveName` past a head that stays, on
      counts. */
  lemma RemoveNameConsCount(s: seq<string>, u: string, t: seq<string>)
    requires |s| > 0 && s[0] != u && u in s[1..]
    requires multiset(t) == multiset(s[1..]) - multiset{u}
    ensures multiset([s[0]] + t) == multiset(s) - multiset{u}
  {
    assert s == [s[0]] + s[1..];
  }

  /** The recursive step of `RemoveName` past a head that stays. */
  lemma RemoveNameCons(s: seq<string>, u: string, t: seq<string>)
    requires |s| > 0 && s[0] != u
    requires forall j :: 0 <= j < |s[1..]| && s[1..][j] == u && u !in s[1..][..j] ==> t == s[1..][..j] + s[1..][j + 1..]
    ensures forall i :: 0 <= i < |s| && s[i] == u && u !in s[..i] ==> [s[0]] + t == s[..i] + s[i + 1..]
  {
    forall i | 0 <= i < |s| && s[i] == u && u !in s[..i]
      ensures [s[0]] + t == s[..i] + s[i + 1..]
    {
      CutCons(s, i);
      assert s[1..][i - 1] == u;
      assert forall x :: x in s[1..i] ==> x in s[..i];
    }
  }

  lemma {:induction false} RemoveNameAppended(s: seq<string>, u: string)
    requires u !in s
    ensures RemoveName(s + [u], u) == s
    decreases |s|
  {
    var t := s + [u];
    if |s| == 0 {
      assert t == [u];
    } else {
      assert s[0] in s;
      assert t[0] == s[0] && t[1..] == s[1..] + [u];
      RemoveNameAppended(s[1..], u);
      assert s == [s[0]] + s[1..];
    }
  }

  /** `remove_player`: `ValueError` when the name is not a player,
      `KeyError` when one of the dictionaries lacks it; otherwise the first
      occurrence leaves the list and the name leaves all three dictionaries,
      with everyone else keeping their place in each. */
  function RemovePlayer(g: Game, u: string): (r: Result<Game>)
    ensures r.Ok? <==> u in g.players && u in g.hands.values && u in g.bets.values && u in g.scores.values
    ensures u !in g.players ==> r == Err(ValueError)
    ensures u in g.players && r.Err? ==> r.error == KeyError
    ensures r.Ok? ==> && multiset(r.value.players) == multiset(g.players) - multiset{u}
                      && r.value.hands.values == g.hands.values - {u}
                      && r.value.bets.values == g.bets.values - {u}
                      && r.value.scores.values == g.scores.values - {u}
                      && r.value.started == g.started && r.value.deck == g.deck
                      && r.value.rounds == g.rounds && r.value.roundsLeft == g.roundsLeft
    ensures r.Ok? ==> forall i :: 0 <= i < |g.players| && g.players[i] == u && u !in g.players[..i] ==>
                        r.value.players == g.players[..i] + g.players[i + 1..]
    ensures r.Ok? && Distinct(g.hands.keys) ==> forall i :: 0 <= i < |g.hands.keys| && g.hands.keys[i] == u ==>
                        r.value.hands.keys == g.hands.keys[..i] + g.hands.keys[i + 1..]
    ensures r.Ok? && Distinct(g.bets.keys) ==> forall i :: 0 <= i < |g.bets.keys| && g.bets.keys[i] == u ==>
                        r.value.bets.keys == g.bets.keys[..i] + g.bets.keys[i + 1..]
    ensures r.Ok? && Distinct(g.scores.keys) ==> forall i :: 0 <= i < |g.scores.keys| && g.scores.keys[i] == u ==>
                        r.value.scores.keys == g.scores.keys[..i] + g.scores.keys[i + 1..]
  {
    if u !in g.players then Err(ValueError)
    else
      var players := RemoveName(g.players, u);
      match Pop(g.hands, u)
      case Err(e) => Err(e)
      case Ok(hands) =>
        match Pop(g.bets, u)
        case Err(e) => Err(e)
        case Ok(bets) =>
          match Pop(g.scores, u)
          case Err(e) => Err(e)
          case Ok(scores) => Ok(g.(players := players, hands := hands, bets := bets, scores := scores))
  }

  /** Removing a player who just joined gives back the game from before the
      join. */
  lemma RemoveUndoesAdd(g: Game, u: string)
    requires WellFormed(g) && u !in g.players
    ensures RemovePlayer(AddPlayer(g, u), u) == Ok(g)
  {
    var a := AddPlayer(g, u);
    assert u !in g.hands.values && u !in g.bets.values && u !in g.scores.values;
    RemoveNameAppended(g.players, u);
    PopUndoesPut(g.hands, u, []);
    PopUndoesPut(g.bets, u, NoBet);
    PopUndoesPut(g.scores, u, 0);
  }

  /** `can_start`: at least two players. */
  predicate CanStart(g: Game) {
    |g.players| >= 2
  }

  /** `start`. */
  function Start(g: Game): (r: Game)
    ensures r.started && r == g.(started := true)
  {
    g.(started := true)
  }

  /** `set_rounds`, on an already parsed number. */
  function SetRounds(g: Game, n: int): (r: Game)
    ensures r.rounds == n && r.roundsLeft == n
    ensures r == g.(rounds := n, roundsLeft := n)
  {
    g.(rounds := n, roundsLeft := n)
  }

  function RankOf(c: Card): int {
    c.rank
  }

  /** `deal_cards`: pops five cards, sorts them by rank (stably, so cards
      of one rank stay in the order they were popped), stores them as the
      player's hand and answers its labels and wild flags. A deck with fewer
      than five cards raises `IndexError`. */
  function DealCards(g: Game, u: string): (r: Result<(Game, seq<(string, bool)>)>)
    ensures r.Ok? <==> |g.deck.cards| >= 5
    ensures r.Err? ==> r.error == IndexError
    ensures r.Ok? ==> var (g', view) := r.value;
              && u in g'.hands.values
              && var hand := g'.hands.values[u];
              && |hand| == 5
              && SortedBy(hand, RankOf)
              && multiset(hand) == multiset(g.deck.cards[|g.deck.cards| - 5..])
              && g'.deck.cards == g.deck.cards[..|g.deck.cards| - 5]
              && view == View(hand)
              && g'.hands.values == g.hands.values[u := hand]
              && g' == g.(hands := g'.hands, deck := g'.deck)
  {
    match Deal(g.deck, 5)
    case Err(e) => Err(e)
    case Ok((dealt, rest)) =>
      DealtAreLast(g.deck, 5);
      var hand := SortBy(dealt, RankOf);
      Ok((g.(hands := Put(g.hands, u, hand), deck := rest), View(hand)))
  }

  /** Cards of one rank keep the order in which they were popped: the
      hand is the dealt cards stably sorted by rank. */
  lemma DealCardsStable(g: Game, u: string, v: int)
    requires |g.deck.cards| >= 5
    ensures var hand := DealCards(g, u).value.0.hands.values[u];
            var popped := Reverse(g.deck.cards[|g.deck.cards| - 5..]);
            WithKey(hand, RankOf, v) == WithKey(popped, RankOf, v)
  {
    var (dealt, rest) := Deal(g.deck, 5).value;
    assert dealt == Reverse(g.deck.cards[|g.deck.cards| - 5..]);
    SortByStable(dealt, RankOf, v);
  }

  /** A card the player may swap: its label is the one named and it is
      wild. */
  predicate Swappable(c: Card, target: string) {
    Label(c) == target && c.wild
  }

  /** The loop of `replace_wild`: the first swappable card gives way to
      `swapIn`, every other card stays. */
  function ReplaceFirst(hand: seq<Card>, target: string, swapIn: Card): (r: seq<Card>)
    ensures |r| == |hand|
  {
    if |hand| == 0 then []
    else if Swappable(hand[0], target) then [swapIn] + hand[1..]
    else [hand[0]] + ReplaceFirst(hand[1..], target, swapIn)
  }

  /** Without a swappable card the hand is unchanged. */
  lemma {:induction false} ReplaceFirstNoMatch(hand: seq<Card>, target: string, swapIn: Card)
    requires forall i :: 0 <= i < |hand| ==> !Swappable(hand[i], target)
    ensures ReplaceFirst(hand, target, swapIn) == hand
  {
    if |hand| > 0 {
      assert !Swappable(hand[0], target);
      ReplaceFirstNoMatch(hand[1..], target, swapIn);
      assert hand == [hand[0]] + hand[1..];
    }
  }

  /** With the first swappable card at `i`, exactly position `i` changes. */
  lemma {:induction false} ReplaceFirstAt(hand: seq<Card>, target: string, swapIn: Card, i: nat)
    requires i < |hand| && Swappable(hand[i], target)
    requires forall j :: 0 <= j < i ==> !Swappable(hand[j], target)
    ensures ReplaceFirst(hand, target, swapIn) == hand[i := swapIn]
  {
    if i > 0 {
      var rest := hand[1..];
      assert !Swappable(hand[0], target);
      assert ReplaceFirst(hand, target, swapIn) == [hand[0]] + ReplaceFirst(rest, target, swapIn);
      forall j | 0 <= j < i - 1 ensures !Swappable(rest[j], target) {
        assert rest[j] == hand[j + 1];
      }
      assert rest[i - 1] == hand[i];
      ReplaceFirstAt(rest, target, swapIn, i - 1);
      UpdatePastHead(hand, i, swapIn);
    }
  }

  /** Replacing a card past the head is replacing it in the tail. */
  lemma UpdatePastHead(hand: seq<Card>, i: nat, c: Card)
    requires 0 < i < |hand|
    ensures hand[i := c] == [hand[0]] + hand[1..][i - 1 := c]
  {
    var r := [hand[0]] + hand[1..][i - 1 := c];
    assert forall j :: 0 <= j < |hand| ==> r[j] == hand[i := c][j];
  }

  function WildCount(hand: seq<Card>): nat {
    if |hand| == 0 then 0 else (if hand[0].wild then 1 else 0) + WildCount(hand[1..])
  }

  /** Swapping a wild card for a card marked wild leaves the number of wild
      cards in the hand as it was. */
  lemma {:induction false} ReplaceFirstKeepsWildCount(hand: seq<Card>, target: string, swapIn: Card)
    requires swapIn.wild
    ensures WildCount(ReplaceFirst(hand, target, swapIn)) == WildCount(hand)
  {
    if |hand| > 0 && !Swappable(hand[0], target) {
      ReplaceFirstKeepsWildCount(hand[1..], target, swapIn);
      var r := ReplaceFirst(hand, target, swapIn);
      assert r[1..] == ReplaceFirst(hand[1..], target, swapIn);
    } else if |hand| > 0 {
      var r := ReplaceFirst(hand, target, swapIn);
      assert r[1..] == hand[1..];
    }
  }

  /** `replace_wild`, on an already parsed replacement of suit `suit` and
      rank `rank`: the new card is marked wild and takes the place of the
      player's first wild card labelled `target`; the answer is the hand's
      labels and wild flags. A name without a hand raises `KeyError`. */
  function ReplaceWild(g: Game, u: string, suit: Suit, rank: int, target: string): (r: Result<(Game, seq<(string, bool)>)>)
    ensures r.Ok? <==> u in g.hands.values
    ensures r.Err? ==> r.error == KeyError
    ensures r.Ok? ==> var (g', view) := r.value;
              && (Valid(g.hands) ==> g'.hands.keys == g.hands.keys)
              && g'.hands.values == g.hands.values[u := ReplaceFirst(g.hands.values[u], target, Card(suit, rank, true))]
              && view == View(g'.hands.values[u])
              && g' == g.(hands := g'.hands)
  {
    match Get(g.hands, u)
    case Err(e) => Err(e)
    case Ok(hand) =>
      var hand' := ReplaceFirst(hand, target, Card(suit, rank, true));
      Ok((g.(hands := Put(g.hands, u, hand')), View(hand')))
  }

  /** `make_bet`: records `(amount, direction)` for the name, adding an
      entry for a name that had none. */
  function MakeBet(g: Game, u: string, amount: int, direction: Direction): (r: Game)
    ensures r.bets.values == g.bets.values[u := Bet(amount, direction)]
    ensures u in g.bets.keys ==> r.bets.keys == g.bets.keys
    ensures r == g.(bets := r.bets)
  {
    g.(bets := Put(g.bets, u, Bet(amount, direction)))
  }

  /** A bet by a player keeps the game well formed; a bet under any other
      name adds a stray entry. */
  lemma MakeBetWellFormed(g: Game, u: string, amount: int, direction: Direction)
    requires WellFormed(g)
    ensures WellFormed(MakeBet(g, u, amount, direction)) <==> u in g.players
  {
  }

  /** `all_bets_in`: no recorded bet has amount zero. */
  predicate AllBetsIn(g: Game) {
    forall u :: u in g.bets.values ==> g.bets.values[u].amount != 0
  }

  /** `reset_game`: back to the state of a new game (the deck unshuffled). */
  function ResetGame(g: Game): (r: Game)
    ensures r == NewGame()
  {
    g.(players := [], hands := Empty(), bets := Empty(), scores := Empty(), started := false,
       deck := Reset(), rounds := 0, roundsLeft := 0)
  }
}
