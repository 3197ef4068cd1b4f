/** Settling a round (`update_scores`): the bettors of each direction are
    ranked against each other, the winners gain their bet and everyone else
    loses theirs, bets and hands are cleared, one round is used up and the
    deck is rebuilt. */
module Settlement {
  import opened Seqs
  import opened Cards
  import opened Results
  import opened Dicts
  import opened Sorting
  import opened Decks
  import opened TieBreak
  import opened SurvivorLookup
  import opened Games

  /** The names, in the order of `keys`, whose bet has direction `dir`. */
  function BettorsIn(keys: seq<string>, bets: map<string, Bet>, dir: Direction): (r: seq<string>)
    ensures forall u :: u in r <==> u in keys && u in bets && bets[u].direction == dir
    ensures Distinct(keys) ==> Distinct(r)
  {
    if |keys| == 0 then []
    else
      var rest := BettorsIn(keys[1..], bets, dir);
      assert keys == [keys[0]] + keys[1..];
      assert Distinct(keys) ==> Distinct(keys[1..]) && keys[0] !in keys[1..] by {
        if Distinct(keys) {
          forall i, j | 0 <= i < j < |keys[1..]| ensures keys[1..][i] != keys[1..][j] {
            assert keys[1..][i] == keys[i + 1] && keys[1..][j] == keys[j + 1];
          }
        }
      }
      if keys[0] in bets && bets[keys[0]].direction == dir then
        assert Distinct(keys) ==> Distinct([keys[0]] + rest) by {
          if Distinct(keys) {
            forall i, j | 0 <= i < j < |[keys[0]] + rest| ensures ([keys[0]] + rest)[i] != ([keys[0]] + rest)[j] {
              assert ([keys[0]] + rest)[j] == rest[j - 1];
              if i > 0 {
                assert ([keys[0]] + rest)[i] == rest[i - 1];
              }
            }
          }
        }
        [keys[0]] + rest
      else rest
  }

  /** `r` lists its names in the order they have in `keys`: of any two
      entries of `r`, the earlier one stands earlier in `keys`. */
  predicate InKeyOrder(r: seq<string>, keys: seq<string>) {
    forall i, j, p, q :: 0 <= i < j < |r| && 0 <= p < |keys| && 0 <= q < |keys| && keys[p] == r[i] && keys[q] == r[j] ==> p < q
  }

  lemma InKeyOrderAt(r: seq<string>, keys: seq<string>, i: int, j: int, p: int, q: int)
    requires InKeyOrder(r, keys)
    requires 0 <= i < j < |r| && 0 <= p < |keys| && 0 <= q < |keys| && keys[p] == r[i] && keys[q] == r[j]
    ensures p < q
  {
  }

  /** Names drawn from the tail of `keys`, in its order, are in the order
      of `keys`, with or without the head in front. */
  lemma InKeyOrderStep(rest: seq<string>, keys: seq<string>, tail: seq<string>, kept: bool)
    requires |keys| > 0 && tail == keys[1..] && Distinct(keys)
    requires InKeyOrder(rest, tail) && forall x :: x in rest ==> x in tail
    ensures InKeyOrder(if kept then [keys[0]] + rest else rest, keys)
  {
    var r := if kept then [keys[0]] + rest else rest;
    DistinctTail(keys);
    forall i, j, p, q | 0 <= i < j < |r| && 0 <= p < |keys| && 0 <= q < |keys| && keys[p] == r[i] && keys[q] == r[j]
      ensures p < q
    {
      var i', j' := if kept then i - 1 else i, if kept then j - 1 else j;
      assert r[j] == rest[j'] && rest[j'] in tail;
      assert q > 0 && tail[q - 1] == keys[q];
      if kept && i == 0 {
        assert keys[p] == keys[0];
      } else {
        assert r[i] == rest[i'] && rest[i'] in tail;
        assert p > 0 && tail[p - 1] == keys[p];
        InKeyOrderAt(rest, tail, i', j', p - 1, q - 1);
      }
    }
  }

  /** The bettors come in the order their names have in `keys`. */
  lemma {:induction false} BettorsInOrder(keys: seq<string>, bets: map<string, Bet>, dir: Direction)
    requires Distinct(keys)
    ensures InKeyOrder(BettorsIn(keys, bets, dir), keys)
  {
    if |keys| > 0 {
      var tail := keys[1..];
      DistinctTail(keys);
      BettorsInOrder(tail, bets, dir);
      var kept := keys[0] in bets && bets[keys[0]].direction == dir;
      InKeyOrderStep(BettorsIn(tail, bets, dir), keys, tail, kept);
    }
  }

  /** `high_bets` / `low_bets`: the bettors of one direction in the bets
      dictionary's order. */
  function Bettors(g: Game, dir: Direction): (r: seq<string>)
    ensures forall u :: u in r <==> u in g.bets.keys && u in g.bets.values && g.bets.values[u].direction == dir
    ensures Valid(g.bets) ==> Distinct(r)
    ensures Valid(g.bets) ==> InKeyOrder(r, g.bets.keys)
  {
    if Valid(g.bets) then BettorsInOrder(g.bets.keys, g.bets.values, dir); BettorsIn(g.bets.keys, g.bets.values, dir)
    else BettorsIn(g.bets.keys, g.bets.values, dir)
  }

  /** The hands of the named players, or `KeyError` for a name without one. */
  function HandsOf(names: seq<string>, hands: map<string, seq<Card>>): (r: Result<seq<seq<Card>>>)
    ensures r.Ok? <==> forall i :: 0 <= i < |names| ==> names[i] in hands
    ensures r.Err? ==> r.error == KeyError
    ensures r.Ok? ==> |r.value| == |names| && forall i :: 0 <= i < |names| ==> r.value[i] == hands[names[i]]
  {
    if forall i :: 0 <= i < |names| ==> names[i] in hands then
      Ok(seq(|names|, i requires 0 <= i < |names| => hands[names[i]]))
    else Err(KeyError)
  }

  /** Every player betting high or low holds five cards, as after a deal. */
  predicate BettorsHoldFive(g: Game) {
    forall u :: u in g.hands.values && u in g.bets.values && g.bets.values[u].direction != NoDirection ==>
      |g.hands.values[u]| == 5
  }

  lemma HandsOfFive(names: seq<string>, hands: map<string, seq<Card>>)
    requires forall i :: 0 <= i < |names| && names[i] in hands ==> |hands[names[i]]| == 5
    requires HandsOf(names, hands).Ok?
    ensures FiveCards(HandsOf(names, hands).value)
  {
  }

  /** The names at the positions `return_winners` picks out of `hs`, or
      the `KeyError` its tie-break raises when more than two hands tie. */
  function Pick(names: seq<string>, hs: seq<seq<Card>>, high: bool): (r: Result<seq<string>>)
    requires |names| == |hs| > 0 && FiveCards(hs)
    ensures r.Err? ==> r.error == KeyError && 2 < |Tied(hs, high)| <= |hs|
    ensures r.Ok? ==> r.value == Select(names, ReturnWinnersAsWritten(hs, high))
    ensures r.Ok? ==> forall u :: u in r.value ==> u in names
    ensures |hs| == 1 ==> r == Ok(names)
  {
    var res := ReturnWinnersRaising(hs, high);
    if res.Err? then Err(KeyError)
    else
      SelectedNames(names, res.value);
      if |hs| == 1 then
        SingleHandRaisesNothing(hs, high);
        SelectSingle(names);
        Ok(Select(names, res.value))
      else Ok(Select(names, res.value))
  }

  /** Picking position 0 out of one name gives that name. */
  lemma SelectSingle(names: seq<string>)
    requires |names| == 1
    ensures Select(names, [0]) == names
  {
    var zero: seq<nat> := [0];
    assert Select(names, zero)[0] == names[0];
  }

  /** Names picked at positions within the list are names of the list. */
  lemma SelectedNames(names: seq<string>, idx: seq<nat>)
    requires forall k :: 0 <= k < |idx| ==> idx[k] < |names|
    ensures forall u :: u in Select(names, idx) ==> u in names
  {
    var picked := Select(names, idx);
    assert forall k :: 0 <= k < |picked| ==> picked[k] in names;
  }

  /** The winners among the bettors `names` of one direction: the names at
      the positions `return_winners` as written picks out of their hands.
      `KeyError` for a bettor without a hand, and from the tie-break when
      more than two of them tie. */
  function GroupWinners(names: seq<string>, hands: map<string, seq<Card>>, high: bool): (r: Result<seq<string>>)
    requires forall i :: 0 <= i < |names| && names[i] in hands ==> |hands[names[i]]| == 5
    ensures r.Err? ==> r.error == KeyError
    ensures r.Ok? ==> forall i :: 0 <= i < |names| ==> names[i] in hands
    ensures r.Err? && (forall i :: 0 <= i < |names| ==> names[i] in hands) ==> |names| > 2
    ensures r.Ok? ==> forall u :: u in r.value ==> u in names
    ensures r.Ok? && |names| > 0 ==>
              HandsOf(names, hands).Ok? && FiveCards(HandsOf(names, hands).value) &&
              r.value == Select(names, ReturnWinnersAsWritten(HandsOf(names, hands).value, high))
    ensures |names| == 0 ==> r == Ok([])
  {
    if |names| == 0 then Ok([])
    else
      match HandsOf(names, hands)
      case Err(e) => Err(e)
      case Ok(hs) =>
        HandsOfFive(names, hands);
        Pick(names, hs, high)
  }

  /** The score a name has, for sorting; only read for names that have one. */
  function ScoreOf(scores: map<string, int>, u: string): int {
    if u in scores then scores[u] else 0
  }

  /** The sort key of `sort(key=score, reverse=True)`: higher scores first,
      ties in their original order. */
  function ByScoreDescending(scores: map<string, int>): string -> int {
    u => -ScoreOf(scores, u)
  }

  /** One pass of the scoring loop over the remaining `players`: a winner
      gains the amount of their bet and anyone else loses it, the bet is
      reset to `(0, "none")` and the hand emptied. `KeyError` for a player
      without a bet or a score. */
  function ScoreLoop(players: seq<string>, winners: seq<string>, g: Game, change: map<string, int>)
    : (r: Result<(Game, map<string, int>)>)
    ensures r.Ok? <==> forall i :: 0 <= i < |players| ==> players[i] in g.bets.values && players[i] in g.scores.values
    ensures r.Err? ==> r.error == KeyError
    ensures r.Ok? ==> r.value.0 == g.(hands := r.value.0.hands, bets := r.value.0.bets, scores := r.value.0.scores)
    decreases |players|
  {
    if |players| == 0 then Ok((g, change))
    else
      var u := players[0];
      if u !in g.bets.values || u !in g.scores.values then Err(KeyError)
      else
        var amount := g.bets.values[u].amount;
        var delta := if u in winners then amount else -amount;
        var g' := g.(scores := Put(g.scores, u, g.scores.values[u] + delta),
                     bets := Put(g.bets, u, NoBet),
                     hands := Put(g.hands, u, []));
        ScoreLoop(players[1..], winners, g', change[u := delta])
  }

  /** What `update_scores` answers: the scores after the round, every
      player's hand as it was shown, the high and the low bettors each
      sorted by their new score (highest first), and each player's gain or
      loss. */
  datatype Outcome = Outcome(
    scores: Dict<int>,
    shown: Dict<seq<(string, bool)>>,
    high: seq<string>,
    low: seq<string>,
    change: map<string, int>)

  /** The hands as shown before they are cleared, in the hands dictionary's
      order. */
  function Shown(hands: Dict<seq<Card>>): (r: Dict<seq<(string, bool)>>)
    ensures r.keys == hands.keys
    ensures forall u :: u in r.values <==> u in hands.values
    ensures forall u :: u in hands.values ==> r.values[u] == View(hands.values[u])
  {
    Dict(hands.keys, map u | u in hands.values :: View(hands.values[u]))
  }

  lemma BettorsFive(g: Game, dir: Direction)
    requires BettorsHoldFive(g) && dir != NoDirection
    ensures var names := Bettors(g, dir);
            forall i :: 0 <= i < |names| && names[i] in g.hands.values ==> |g.hands.values[names[i]]| == 5
  {
    var names := Bettors(g, dir);
    forall i | 0 <= i < |names| && names[i] in g.hands.values
      ensures |g.hands.values[names[i]]| == 5
    {
      assert names[i] in names;
    }
  }

  /** The winners among the bettors of one direction, ranked against each
      other: the highest hands for a high bet, the lowest for a low one. */
  function DirectionWinners(g: Game, dir: Direction): (r: Result<seq<string>>)
    requires BettorsHoldFive(g) && dir != NoDirection
    ensures r.Err? ==> r.error == KeyError
    ensures r.Ok? ==> forall u :: u in r.value ==> u in Bettors(g, dir)
  {
    BettorsFive(g, dir);
    GroupWinners(Bettors(g, dir), g.hands.values, dir == High)
  }

  /** The round's winners: the high bettors' winners, then the low
      bettors'. */
  function RoundWinners(g: Game): (r: Result<seq<string>>)
    requires BettorsHoldFive(g)
    ensures r.Err? ==> r.error == KeyError
    ensures r.Ok? ==> forall u :: u in r.value ==> u in Bettors(g, High) || u in Bettors(g, Low)
  {
    match DirectionWinners(g, High)
    case Err(e) => Err(e)
    case Ok(highWinners) =>
      match DirectionWinners(g, Low)
      case Err(e) => Err(e)
      case Ok(lowWinners) => Ok(highWinners + lowWinners)
  }

  /** The end of `update_scores`, after the scoring loop produced `g1` and
      the changes: use up a round, rebuild the deck and sort each group by
      the new scores. `KeyError` when a bettor has no score to sort by. */
  function Finish(g: Game, g1: Game, change: map<string, int>): (r: Result<(Game, Outcome)>)
    ensures r.Err? ==> r.error == KeyError
    ensures r.Ok? ==> var (g', out) := r.value;
              && g' == g1.(roundsLeft := g1.roundsLeft - 1, deck := Reset())
              && out.scores == g'.scores && out.change == change
              && out.shown == Shown(g.hands)
              && multiset(out.high) == multiset(Bettors(g, High))
              && multiset(out.low) == multiset(Bettors(g, Low))
              && SortedBy(out.high, ByScoreDescending(g'.scores.values))
              && SortedBy(out.low, ByScoreDescending(g'.scores.values))
  {
    var highs := Bettors(g, High);
    var lows := Bettors(g, Low);
    if exists u :: u in highs + lows && u !in g1.scores.values then Err(KeyError)
    else
      var g2 := g1.(roundsLeft := g1.roundsLeft - 1, deck := Reset());
      var key := ByScoreDescending(g2.scores.values);
      Ok((g2, Outcome(g2.scores, Shown(g.hands), SortBy(highs, key), SortBy(lows, key), change)))
  }

  /** `update_scores`: `KeyError` when a bettor has no hand, or a player no
      bet or score. Otherwise the players, the started flag and the number
      of rounds stay, one round is used up, the deck is rebuilt, and each
      direction's bettors come back as a reordering of themselves with the
      highest new score first. */
  function UpdateScores(g: Game): (r: Result<(Game, Outcome)>)
    requires BettorsHoldFive(g)
    ensures r.Err? ==> r.error == KeyError
    ensures r.Ok? ==> RoundWinners(g).Ok?
    ensures r.Ok? ==> var (g', out) := r.value;
              && g'.players == g.players && g'.started == g.started && g'.rounds == g.rounds
              && g'.roundsLeft == g.roundsLeft - 1
              && g'.deck.cards == FreshDeck()
              && out.scores == g'.scores
              && out.shown == Shown(g.hands)
              && multiset(out.high) == multiset(Bettors(g, High))
              && multiset(out.low) == multiset(Bettors(g, Low))
              && SortedBy(out.high, ByScoreDescending(g'.scores.values))
              && SortedBy(out.low, ByScoreDescending(g'.scores.values))
  {
    match RoundWinners(g)
    case Err(e) => Err(e)
    case Ok(winners) =>
      match ScoreLoop(g.players, winners, g, map[])
      case Err(e) => Err(e)
      case Ok((g1, change)) => Finish(g, g1, change)
  }
}
