/** What settling a round does to each player, for a well-formed game. */
module SettlementLaws {
  import opened Seqs
  import opened Cards
  import opened Results
  import opened Dicts
  import opened Sorting
  import opened Decks
  import opened TieBreak
  import opened WinnerLaws
  import opened IndexMixup
  import opened SurvivorLookup
  import opened Games
  import opened Settlement

  /** A player's gain (the bet) if among the winners, else the loss. */
  function Delta(g: Game, winners: seq<string>, u: string): int
    requires u in g.bets.values
  {
    if u in winners then g.bets.values[u].amount else -g.bets.values[u].amount
  }

  predicate Covered(ps: seq<string>, g: Game) {
    forall i :: 0 <= i < |ps| ==> ps[i] in g.bets.values && ps[i] in g.scores.values
  }

  /** The game after the loop's first step. */
  function StepGame(ps: seq<string>, winners: seq<string>, g: Game): (g1: Game)
    requires |ps| > 0 && Covered(ps, g)
    ensures Covered(ps[1..], g1)
  {
    var u := ps[0];
    var g1 := g.(scores := Put(g.scores, u, g.scores.values[u] + Delta(g, winners, u)),
                 bets := Put(g.bets, u, NoBet),
                 hands := Put(g.hands, u, []));
    assert forall i :: 0 <= i < |ps[1..]| ==> ps[1..][i] == ps[i + 1];
    g1
  }

  lemma ScoreLoopStep(ps: seq<string>, winners: seq<string>, g: Game, change: map<string, int>)
    requires |ps| > 0 && Covered(ps, g)
    ensures ScoreLoop(ps, winners, g, change) ==
            ScoreLoop(ps[1..], winners, StepGame(ps, winners, g), change[ps[0] := Delta(g, winners, ps[0])])
  {
    var u := ps[0];
    assert u in g.bets.values && u in g.scores.values;
    var delta := Delta(g, winners, u);
    var g1 := g.(scores := Put(g.scores, u, g.scores.values[u] + delta),
                 bets := Put(g.bets, u, NoBet),
                 hands := Put(g.hands, u, []));
    assert StepGame(ps, winners, g) == g1;
    assert ScoreLoop(ps, winners, g, change) == ScoreLoop(ps[1..], winners, g1, change[u := delta]);
  }

  /** A player the loop visits once ends with the old score plus the gain
      or loss, a matching entry in the changes, no bet and no hand. */
  lemma {:induction false} ScoreLoopVisited(ps: seq<string>, winners: seq<string>, g: Game,
                                           change: map<string, int>, u: string)
    requires Distinct(ps) && Covered(ps, g) && u in ps
    ensures var (g', ch) := ScoreLoop(ps, winners, g, change).value;
            && u in g'.scores.values && u in g.scores.values && u in g.bets.values
            && g'.scores.values[u] == g.scores.values[u] + Delta(g, winners, u)
            && u in ch && ch[u] == Delta(g, winners, u)
            && u in g'.bets.values && g'.bets.values[u] == NoBet
            && u in g'.hands.values && g'.hands.values[u] == []
  {
    DistinctTail(ps);
    ScoreLoopStep(ps, winners, g, change);
    var g1 := StepGame(ps, winners, g);
    var change1 := change[ps[0] := Delta(g, winners, ps[0])];
    if u == ps[0] {
      ScoreLoopUnvisited(ps[1..], winners, g1, change1, u);
    } else {
      ScoreLoopVisited(ps[1..], winners, g1, change1, u);
    }
  }

  /** A name the loop does not visit keeps its score, bet, hand and entry
      in the changes. */
  lemma {:induction false} ScoreLoopUnvisited(ps: seq<string>, winners: seq<string>, g: Game,
                                             change: map<string, int>, u: string)
    requires Covered(ps, g) && u !in ps
    ensures var (g', ch) := ScoreLoop(ps, winners, g, change).value;
            && (u in g'.scores.values <==> u in g.scores.values)
            && (u in g.scores.values ==> g'.scores.values[u] == g.scores.values[u])
            && (u in g'.bets.values <==> u in g.bets.values)
            && (u in g.bets.values ==> g'.bets.values[u] == g.bets.values[u])
            && (u in g'.hands.values <==> u in g.hands.values)
            && (u in g.hands.values ==> g'.hands.values[u] == g.hands.values[u])
            && (u in ch <==> u in change)
            && (u in change ==> ch[u] == change[u])
  {
    if |ps| > 0 {
      ScoreLoopStep(ps, winners, g, change);
      ScoreLoopUnvisited(ps[1..], winners, StepGame(ps, winners, g),
                         change[ps[0] := Delta(g, winners, ps[0])], u);
    }
  }

  /** Every bettor is a player with a hand, a bet and a score. */
  lemma BettorIsPlayer(g: Game, dir: Direction, u: string)
    requires WellFormed(g) && u in Bettors(g, dir)
    ensures u in g.players && u in g.hands.values && u in g.bets.values && u in g.scores.values
  {
    var i :| 0 <= i < |g.players| && g.players[i] == u;
  }

  lemma PlayersCovered(g: Game)
    requires WellFormed(g)
    ensures Covered(g.players, g)
  {
  }

  /** Every bettor of a direction holds a hand. */
  lemma BettorsHaveHands(g: Game, dir: Direction)
    requires WellFormed(g)
    ensures forall i :: 0 <= i < |Bettors(g, dir)| ==> Bettors(g, dir)[i] in g.hands.values
  {
    forall i | 0 <= i < |Bettors(g, dir)| ensures Bettors(g, dir)[i] in g.hands.values {
      BettorIsPlayer(g, dir, Bettors(g, dir)[i]);
    }
  }

  /** Finding the round's winners raises only when more than two players
      bet in one direction: every bettor holds a hand, and the tie-break
      raises only on more than two tied hands. */
  lemma RoundWinnersOk(g: Game)
    requires WellFormed(g) && BettorsHoldFive(g)
    ensures RoundWinners(g).Err? ==> |Bettors(g, High)| > 2 || |Bettors(g, Low)| > 2
  {
    BettorsHaveHands(g, High);
    BettorsHaveHands(g, Low);
    BettorsFive(g, High);
    BettorsFive(g, Low);
  }

  /** In a well-formed game whose bettors hold five cards each, settling
      succeeds exactly when the round's winners are found, which is
      certain with at most two bettors in each direction. */
  lemma UpdateScoresOk(g: Game)
    requires WellFormed(g) && BettorsHoldFive(g)
    ensures UpdateScores(g).Ok? <==> RoundWinners(g).Ok?
    ensures UpdateScores(g).Err? ==> |Bettors(g, High)| > 2 || |Bettors(g, Low)| > 2
  {
    RoundWinnersOk(g);
    if RoundWinners(g).Ok? {
      WinnersFoundSettles(g);
    }
  }

  /** Once the round's winners are found, the scoring loop and the final
      sort find every entry they look up. */
  lemma WinnersFoundSettles(g: Game)
    requires WellFormed(g) && BettorsHoldFive(g) && RoundWinners(g).Ok?
    ensures UpdateScores(g).Ok?
  {
    var winners := RoundWinners(g).value;
    PlayersCovered(g);
    var (g1, change) := ScoreLoop(g.players, winners, g, map[]).value;
    forall u | u in Bettors(g, High) + Bettors(g, Low)
      ensures u in g1.scores.values
    {
      if u in Bettors(g, High) {
        BettorIsPlayer(g, High, u);
      } else {
        BettorIsPlayer(g, Low, u);
      }
      ScoreLoopVisited(g.players, winners, g, map[], u);
    }
  }

  /** The loop only assigns to names already in the dictionaries, so the
      key orders stay as they were. */
  lemma {:induction false} ScoreLoopKeys(ps: seq<string>, winners: seq<string>, g: Game, change: map<string, int>)
    requires Covered(ps, g) && Valid(g.bets) && Valid(g.scores) && Valid(g.hands)
    requires forall i :: 0 <= i < |ps| ==> ps[i] in g.hands.values
    ensures var g' := ScoreLoop(ps, winners, g, change).value.0;
            && g'.bets.keys == g.bets.keys && g'.scores.keys == g.scores.keys && g'.hands.keys == g.hands.keys
            && Valid(g'.bets) && Valid(g'.scores) && Valid(g'.hands)
  {
    if |ps| > 0 {
      ScoreLoopStep(ps, winners, g, change);
      var g1 := StepGame(ps, winners, g);
      StepGameKeys(ps, winners, g);
      ScoreLoopKeys(ps[1..], winners, g1, change[ps[0] := Delta(g, winners, ps[0])]);
    }
  }

  /** The loop's first step keeps the key orders and the names it has still
      to visit. */
  lemma StepGameKeys(ps: seq<string>, winners: seq<string>, g: Game)
    requires |ps| > 0 && Covered(ps, g) && Valid(g.bets) && Valid(g.scores) && Valid(g.hands)
    requires forall i :: 0 <= i < |ps| ==> ps[i] in g.hands.values
    ensures var g1 := StepGame(ps, winners, g);
            && g1.bets.keys == g.bets.keys && g1.scores.keys == g.scores.keys && g1.hands.keys == g.hands.keys
            && Valid(g1.bets) && Valid(g1.scores) && Valid(g1.hands)
            && forall i :: 0 <= i < |ps[1..]| ==> ps[1..][i] in g1.hands.values
  {
    assert forall i :: 0 <= i < |ps[1..]| ==> ps[1..][i] == ps[i + 1];
  }

  /** The pieces `update_scores` is made of, for a game where it succeeds. */
  lemma UpdateScoresParts(g: Game)
    requires WellFormed(g) && BettorsHoldFive(g) && RoundWinners(g).Ok?
    ensures UpdateScores(g).Ok?
    ensures var (g', out) := UpdateScores(g).value;
            var (g1, change) := ScoreLoop(g.players, RoundWinners(g).value, g, map[]).value;
            g'.scores == g1.scores && g'.bets == g1.bets && g'.hands == g1.hands && out.change == change
  {
    UpdateScoresOk(g);
    var winners := RoundWinners(g).value;
    var (g1, change) := ScoreLoop(g.players, winners, g, map[]).value;
    assert UpdateScores(g) == Finish(g, g1, change);
  }

  /** Each player ends the round with the old score plus the change
      reported for them. */
  lemma SettledScore(g: Game, u: string)
    requires WellFormed(g) && BettorsHoldFive(g) && u in g.players
    requires RoundWinners(g).Ok?
    ensures UpdateScores(g).Ok?
    ensures var (g', out) := UpdateScores(g).value;
            && u in g'.scores.values && u in out.change && u in g.scores.values
            && g'.scores.values[u] == g.scores.values[u] + out.change[u]
  {
    UpdateScoresParts(g);
    PlayersCovered(g);
    ScoreLoopVisited(g.players, RoundWinners(g).value, g, map[], u);
  }

  /** The change reported for a player is the amount of their bet if they
      are among the round's winners and minus that amount otherwise. */
  lemma SettledChange(g: Game, u: string)
    requires WellFormed(g) && BettorsHoldFive(g) && u in g.players && u in g.bets.values
    requires RoundWinners(g).Ok?
    ensures UpdateScores(g).Ok?
    ensures var out := UpdateScores(g).value.1;
            u in out.change && out.change[u] == Delta(g, RoundWinners(g).value, u)
  {
    UpdateScoresParts(g);
    PlayersCovered(g);
    ScoreLoopVisited(g.players, RoundWinners(g).value, g, map[], u);
  }

  /** Each player's bet is back to `(0, "none")` and their hand is empty. */
  lemma SettledCleared(g: Game, u: string)
    requires WellFormed(g) && BettorsHoldFive(g) && u in g.players
    requires RoundWinners(g).Ok?
    ensures UpdateScores(g).Ok?
    ensures var g' := UpdateScores(g).value.0;
            && u in g'.bets.values && g'.bets.values[u] == NoBet
            && u in g'.hands.values && g'.hands.values[u] == []
  {
    UpdateScoresParts(g);
    PlayersCovered(g);
    var winners := RoundWinners(g).value;
    ScoreLoopVisited(g.players, winners, g, map[], u);
  }

  /** Settling keeps the game well formed and leaves no bet standing. */
  lemma SettledWellFormed(g: Game)
    requires WellFormed(g) && BettorsHoldFive(g)
    requires RoundWinners(g).Ok?
    ensures UpdateScores(g).Ok?
    ensures var g' := UpdateScores(g).value.0;
            && WellFormed(g')
            && forall u :: u in g'.bets.values ==> g'.bets.values[u] == NoBet
  {
    UpdateScoresParts(g);
    PlayersCovered(g);
    var winners := RoundWinners(g).value;
    ScoreLoopKeys(g.players, winners, g, map[]);
    var g' := UpdateScores(g).value.0;
    forall u | u in g'.bets.values ensures g'.bets.values[u] == NoBet {
      assert u in g'.bets.keys;
      SettledCleared(g, u);
    }
  }

  /** Right after a settlement the bets are not all in, unless nobody
      plays: every player has to bet again. */
  lemma SettledBetsNotIn(g: Game)
    requires WellFormed(g) && BettorsHoldFive(g) && |g.players| > 0
    requires RoundWinners(g).Ok?
    ensures UpdateScores(g).Ok? && !AllBetsIn(UpdateScores(g).value.0)
  {
    SettledWellFormed(g);
    var g' := UpdateScores(g).value.0;
    assert g'.players[0] in g'.bets.values;
  }

  /** Setting the number of rounds and starting change nothing else, and
      the next settlement uses up one of those rounds: the game stays
      started, the number of rounds stays `n` and `n - 1` are left. */
  lemma RoundsCountDown(g: Game, n: int)
    requires WellFormed(g) && BettorsHoldFive(g)
    requires RoundWinners(g).Ok?
    ensures var g0 := Start(SetRounds(g, n));
            && WellFormed(g0) && BettorsHoldFive(g0)
            && UpdateScores(g0).Ok?
            && var g' := UpdateScores(g0).value.0;
               g'.started && g'.rounds == n && g'.roundsLeft == n - 1 && g'.players == g.players
  {
    var g0 := Start(SetRounds(g, n));
    assert WellFormed(g0) && BettorsHoldFive(g0);
    UpdateScoresOk(g0);
  }

  /** Picking out of a list without repeats: `xs[i]` is picked exactly
      when `i` is among the positions. */
  lemma SelectDistinct(xs: seq<string>, idx: seq<nat>, i: nat)
    requires Distinct(xs) && i < |xs|
    requires forall k :: 0 <= k < |idx| ==> idx[k] < |xs|
    ensures xs[i] in Select(xs, idx) <==> i in idx
  {
    var r := Select(xs, idx);
    if xs[i] in r {
      var k :| 0 <= k < |r| && r[k] == xs[i];
      assert xs[idx[k]] == xs[i];
    }
    if i in idx {
      var k :| 0 <= k < |idx| && idx[k] == i;
      assert r[k] == xs[i];
    }
  }

  /** The round's winners are the high group's winners, then the low
      group's. */
  lemma GroupsOk(g: Game)
    requires WellFormed(g) && BettorsHoldFive(g) && RoundWinners(g).Ok?
    ensures DirectionWinners(g, High).Ok?
    ensures DirectionWinners(g, Low).Ok?
    ensures RoundWinners(g).value == DirectionWinners(g, High).value
                                     + DirectionWinners(g, Low).value
  {
    BettorsFive(g, High);
    BettorsFive(g, Low);
  }

  /** A player is among the round's winners exactly when they win within
      the group of their own direction; a player who bet neither high nor
      low never wins. */
  lemma WinsInOwnGroup(g: Game, u: string)
    requires WellFormed(g) && BettorsHoldFive(g) && u in g.bets.values
    requires RoundWinners(g).Ok?
    ensures g.bets.values[u].direction == NoDirection ==> u !in RoundWinners(g).value
    ensures g.bets.values[u].direction == High ==>
              DirectionWinners(g, High).Ok? &&
              (u in RoundWinners(g).value <==> u in DirectionWinners(g, High).value)
    ensures g.bets.values[u].direction == Low ==>
              DirectionWinners(g, Low).Ok? &&
              (u in RoundWinners(g).value <==> u in DirectionWinners(g, Low).value)
  {
    GroupsOk(g);
  }

  /** Within the group of one direction, when its tie-break does not
      raise, the bettor at position `i` wins exactly when `return_winners`
      as written picks `i` out of the group's hands. */
  lemma GroupWinnerAt(g: Game, dir: Direction, i: nat)
    requires WellFormed(g) && BettorsHoldFive(g) && dir != NoDirection && i < |Bettors(g, dir)|
    requires DirectionWinners(g, dir).Ok?
    ensures HandsOf(Bettors(g, dir), g.hands.values).Ok?
    ensures FiveCards(HandsOf(Bettors(g, dir), g.hands.values).value)
    ensures Bettors(g, dir)[i] in DirectionWinners(g, dir).value <==>
            i in ReturnWinnersAsWritten(HandsOf(Bettors(g, dir), g.hands.values).value, dir == High)
  {
    BettorsHaveHands(g, dir);
    BettorsFive(g, dir);
    var names := Bettors(g, dir);
    var hs := HandsOf(names, g.hands.values).value;
    var idx := ReturnWinnersAsWritten(hs, dir == High);
    SelectDistinct(names, idx, i);
  }

  /** The only bettor of a direction wins their group, and gains the bet
      whenever the round settles. */
  lemma SoleBettorWins(g: Game, dir: Direction, u: string)
    requires WellFormed(g) && BettorsHoldFive(g) && dir != NoDirection && Bettors(g, dir) == [u]
    ensures u in g.bets.values && DirectionWinners(g, dir) == Ok([u])
    ensures RoundWinners(g).Ok? ==>
              && u in RoundWinners(g).value
              && UpdateScores(g).Ok? && u in UpdateScores(g).value.1.change
              && UpdateScores(g).value.1.change[u] == g.bets.values[u].amount
  {
    SoleBettorGroup(g, dir, u);
    if RoundWinners(g).Ok? {
      WinsInOwnGroup(g, u);
      SettledChange(g, u);
    }
  }

  /** A group of one bettor: the tie-break never runs, and its only
      member wins. */
  lemma SoleBettorGroup(g: Game, dir: Direction, u: string)
    requires WellFormed(g) && BettorsHoldFive(g) && dir != NoDirection && Bettors(g, dir) == [u]
    ensures u in g.bets.values && DirectionWinners(g, dir) == Ok([u])
  {
    assert u in Bettors(g, dir);
    BettorIsPlayer(g, dir, u);
    BettorsFive(g, dir);
    assert Bettors(g, dir)[0] == u;
    OneNameGroup(u, g.hands.values, dir == High);
  }

  /** One name holding five cards wins the group it forms alone. */
  lemma OneNameGroup(u: string, hands: map<string, seq<Card>>, high: bool)
    requires u in hands && |hands[u]| == 5
    ensures GroupWinners([u], hands, high) == Ok([u])
  {
  }

  lemma FirstTwoDiffer(r: seq<string>)
    ensures |r| >= 2 && Distinct(r) ==> r[0] != r[1]
  {
  }

  lemma OnlyMember(r: seq<string>, a: string)
    requires Distinct(r) && a in r
    requires forall x :: x in r ==> x == a
    ensures r == [a]
  {
    forall i | 0 <= i < |r| ensures r[i] == a {
      assert r[i] in r;
    }
    FirstTwoDiffer(r);
  }

  /** The end-to-end round of two players where one bets high and the other
      low: each is alone in their group, so both win and both gain their
      bet. */
  lemma OppositeBettorsBothGain(g: Game)
    requires WellFormed(g) && BettorsHoldFive(g) && |g.players| == 2
    requires g.players[0] in g.bets.values && g.players[1] in g.bets.values
    requires g.bets.values[g.players[0]].direction == High
    requires g.bets.values[g.players[1]].direction == Low
    ensures UpdateScores(g).Ok?
    ensures var change := UpdateScores(g).value.1.change;
            && g.players[0] in change && change[g.players[0]] == g.bets.values[g.players[0]].amount
            && g.players[1] in change && change[g.players[1]] == g.bets.values[g.players[1]].amount
  {
    var a, b := g.players[0], g.players[1];
    LoneBettor(g, High, a, b);
    LoneBettor(g, Low, b, a);
    RoundWinnersOk(g);
    SoleBettorWins(g, High, a);
    SoleBettorWins(g, Low, b);
  }

  /** Of two players betting in different directions, each is the only
      bettor of their direction. */
  lemma LoneBettor(g: Game, dir: Direction, w: string, other: string)
    requires WellFormed(g)
    requires forall i :: 0 <= i < |g.players| ==> g.players[i] == w || g.players[i] == other
    requires w in g.bets.values && g.bets.values[w].direction == dir
    requires other in g.bets.values && g.bets.values[other].direction != dir
    ensures Bettors(g, dir) == [w]
  {
    var r := Bettors(g, dir);
    forall x | x in r
      ensures x == w
    {
      BettorIsPlayer(g, dir, x);
      var i :| 0 <= i < |g.players| && g.players[i] == x;
    }
    assert w in g.bets.keys;
    OnlyMember(r, w);
  }

  /** Bettors of one direction with equal new scores are listed in the
      order of the bets dictionary. */
  lemma GroupTiesKeepOrder(g: Game, v: int)
    requires WellFormed(g) && BettorsHoldFive(g)
    requires RoundWinners(g).Ok?
    ensures UpdateScores(g).Ok?
    ensures var (g', out) := UpdateScores(g).value;
            var key := ByScoreDescending(g'.scores.values);
            && WithKey(out.high, key, v) == WithKey(Bettors(g, High), key, v)
            && WithKey(out.low, key, v) == WithKey(Bettors(g, Low), key, v)
  {
    UpdateScoresOk(g);
    var winners := RoundWinners(g).value;
    var (g1, change) := ScoreLoop(g.players, winners, g, map[]).value;
    assert UpdateScores(g) == Finish(g, g1, change);
    var (g', out) := UpdateScores(g).value;
    var key := ByScoreDescending(g'.scores.values);
    assert out.high == SortBy(Bettors(g, High), key) && out.low == SortBy(Bettors(g, Low), key);
    SortByStable(Bettors(g, High), key, v);
    SortByStable(Bettors(g, Low), key, v);
  }

  /** Three players betting high on an Ace-9, a King-9 and an Ace-10
      flush, in that order: the tie-break as written raises `KeyError`, and
      so does settling the round. */
  lemma ThreeFlushBettorsRaise(g: Game, s: Suit, t: Suit, u: Suit)
    requires BettorsHoldFive(g) && |Bettors(g, High)| == 3
    requires forall i :: 0 <= i < 3 ==> Bettors(g, High)[i] in g.hands.values
    requires g.hands.values[Bettors(g, High)[0]] == AceNineFlush(s)
    requires g.hands.values[Bettors(g, High)[1]] == KingNineFlush(t)
    requires g.hands.values[Bettors(g, High)[2]] == AceTenFlush(u)
    ensures DirectionWinners(g, High) == Err(KeyError)
    ensures UpdateScores(g) == Err(KeyError)
  {
    ThreeFlushesRaise(s, t, u);
    HandsOfThree(Bettors(g, High), g.hands.values, AceNineFlush(s), KingNineFlush(t), AceTenFlush(u));
    DirectionRaises(g, High);
  }

  /** Three players holding a King-high flush, a Queen-high hand and an
      Ace-high flush, in that order, all bet high: `return_winners` as
      written names nobody, so none of them wins the group. */
  lemma MixupBettorsLose(names: seq<string>, hands: map<string, seq<Card>>, s: Suit, t: Suit, u: Suit, v: Suit)
    requires u != v
    requires |names| == 3 && forall i :: 0 <= i < 3 ==> names[i] in hands
    requires hands[names[0]] == KingFlush(s) && hands[names[1]] == QueenHigh(u, v) && hands[names[2]] == AceFlush(t)
    ensures GroupWinners(names, hands, true) == Ok([])
  {
    var hs := [KingFlush(s), QueenHigh(u, v), AceFlush(t)];
    MixupRaisesNothing(s, t, u, v);
    HandsOfThree(names, hands, hs[0], hs[1], hs[2]);
    assert Pick(names, hs, true) == Ok([]);
  }

  /** The hands of three named players, in their order. */
  lemma HandsOfThree(names: seq<string>, hands: map<string, seq<Card>>, h0: seq<Card>, h1: seq<Card>, h2: seq<Card>)
    requires |names| == 3 && forall i :: 0 <= i < 3 ==> names[i] in hands
    requires hands[names[0]] == h0 && hands[names[1]] == h1 && hands[names[2]] == h2
    ensures HandsOf(names, hands) == Ok([h0, h1, h2])
  {
    var hs := HandsOf(names, hands).value;
    assert hs[0] == h0 && hs[1] == h1 && hs[2] == h2;
    assert hs == [h0, h1, h2];
  }

  /** When the tie-break of one direction raises, finding the round's
      winners and settling raise `KeyError` too. */
  lemma DirectionRaises(g: Game, dir: Direction)
    requires BettorsHoldFive(g) && dir != NoDirection && |Bettors(g, dir)| > 0
    requires HandsOf(Bettors(g, dir), g.hands.values).Ok?
    requires FiveCards(HandsOf(Bettors(g, dir), g.hands.values).value)
    requires ReturnWinnersRaising(HandsOf(Bettors(g, dir), g.hands.values).value, dir == High).Err?
    ensures DirectionWinners(g, dir) == Err(KeyError)
    ensures RoundWinners(g) == Err(KeyError)
    ensures UpdateScores(g) == Err(KeyError)
  {
    var names := Bettors(g, dir);
    var hs := HandsOf(names, g.hands.values).value;
    assert Pick(names, hs, dir == High) == Err(KeyError);
    BettorsFive(g, dir);
    assert GroupWinners(names, g.hands.values, dir == High) == Err(KeyError);
  }
}
