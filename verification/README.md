# andys-poker round engine in Dafny

This project models the round engine of andys-poker, a multiplayer
high/low poker game. It covers:

- the card (`backend/card.py`);
- the hand evaluator: five-card classification, tie-breaking and
  winner selection (`backend/hand_evaluator.py`);
- the game: joining and leaving, dealing, swapping wild cards, betting,
  settling a round and the end-of-game payout
  (`backend/game_logic.py`), together with its deck.

All of it is written as pure functions over immutable values. The
Python program mutates one `Game` object in place. Here each mutating
method becomes a function from the old `Game` to the new one.

Python exceptions are modelled as `Result` values: `Err(KeyError)`,
`Err(IndexError)`, `Err(ValueError)` or `Err(ZeroDivisionError)`.
Dictionaries keep their insertion order (`Dicts.Dict`), because
`update_scores` and `break_ties` depend on it. `collections.Counter` is
an ordered list of entries (`Counters.Counter`), because `most_common(1)`
breaks ties by insertion order. `list.sort(key=…)` is a stable insertion
sort (`Sorting.SortBy`).

Modules, in dependency order:

- `Results`: the `Result` type.
- `Seqs`: sequence helpers (max/min, ascending sort, lexicographic order).
- `Sorting`: stable sort by an integer key.
- `Cards`: the card and its label.
- `Decks`: the deck.
- `Dicts`: insertion-ordered dictionaries.
- `Counters`: the rank counter.
- `Evaluator`: `is_flush`, `is_straight` and `evaluate_hand`.
- `TieBreak`: `break_ties` and `return_winners`.
- `TieBreakLaws` and `WinnerLaws`: what the tie-break and winner
  selection compute, stated independently.
- `IndexMixup` and `SurvivorLookup`: the two tie-break defects of the
  source, shown on concrete hands.
- `Games`: the `Game` state and its simple operations.
- `Settlement` and `SettlementLaws`: `update_scores`.
- `Payout` and `PayoutLaws`: `distribute_money`.

Where the Python code does not do what it evidently means to do, the
model follows the code:

- `return_winners` as written reads the tie-break's positions against the
  wrong list.
- `break_ties` looks survivors up by position, and raises `KeyError`
  once a hand other than the last has dropped out.
- `distribute_money` divides by zero when every score is equal.

Each defect has a member modelling the code as written, a corrected
member, and a lemma on concrete inputs that shows the difference (see
"## Findings"). `update_scores` is modelled as written: it calls
`return_winners` exactly as the code does
(`SurvivorLookup.ReturnWinnersRaising`), including the tie-break's
`KeyError`. The corrected `TieBreak.BreakTies` and `TieBreak.ReturnWinners`
are characterised on their own in `TieBreakLaws` and `WinnerLaws`, and
the as-written members are proved to agree with them wherever they do
not misbehave.

## Model

| member | source | states |
|---|---|---|
| Cards.NewCard | backend/card.py:3-7 | A new card keeps its suit and rank. It is wild exactly when it is a deuce or the Jack of hearts or of spades. |
| Cards.ParseNatDecimal | backend/card.py:6 | Reading a card label's decimal rank back as a number gives the rank it was written from. |
| Cards.LabelInjective | backend/card.py:6 | Two cards of non-negative rank with the same `card_string` have the same suit and rank. |
| Cards.View | backend/game_logic.py:51 | Each card of a hand is shown as its label and wild flag, position by position. |
| Decks.FreshDeck | backend/game_logic.py:177-179 | A fresh deck has 52 cards. Each suit/rank pair sits at position suit index × 13 + rank − 2, and each card is built as `Card(suit, rank)` builds it. |
| Decks.FreshDeckDistinct | backend/game_logic.py:7-8 | No two cards of a fresh deck share both suit and rank. |
| Decks.FreshDeckWildCount | backend/game_logic.py:179 | A fresh deck holds exactly six wild cards, at positions 0, 9, 13, 26, 39 and 48. |
| Decks.Deal | backend/game_logic.py:184-185 | Dealing `n` cards succeeds exactly when the deck has at least `n` cards, and otherwise raises `IndexError`. The deck keeps its first part. The dealt cards are the removed tail, last card first, and no card is lost or gained. |
| Decks.DealPutBack | backend/game_logic.py:184-185 | Putting the dealt cards back in reverse order restores the deck. |
| Decks.DealTwice | backend/game_logic.py:184-185 | Dealing `n` and then `m` cards deals the same cards, and leaves the same deck, as one deal of `n + m`. |
| Decks.Reset | backend/game_logic.py:187-188 | A reset deck is the fresh 52-card deck. |
| Dicts.Put | backend/game_logic.py:27-29 | Assigning a key sets its value. A new key is appended to the key order and an existing key keeps its place. Well-formedness is preserved. |
| Dicts.Get | backend/game_logic.py:69 | A lookup succeeds exactly when the key is present, and otherwise raises `KeyError`. |
| Dicts.Pop | backend/game_logic.py:33-35 | `pop` succeeds exactly when the key is present, and otherwise raises `KeyError`. The key leaves both the values and the key order, and every other key stays. When keys are distinct, the remaining keys keep their order. |
| Dicts.PopUndoesPut | backend/game_logic.py:25-35 | Popping a key that was just added to a dictionary without it gives back the original dictionary. |
| Counters.CounterOf | backend/hand_evaluator.py:53 | `Counter(xs)` counts each value exactly as often as it occurs in `xs`. Its keys are the values present and its counts add up to `len(xs)`. |
| Counters.Add | backend/hand_evaluator.py:53 | Counting one more `x` raises the count of `x` by one and leaves every other count alone. A first `x` gets a new last entry; otherwise the entry of `x` stays in place. |
| Counters.CounterOrder | backend/hand_evaluator.py:53 | The entries of `Counter(xs)` are in the order of their keys' first occurrences in `xs`. |
| Counters.MostCommonEarliest | backend/hand_evaluator.py:142 | `Counter(xs).most_common(1)` names a value of `xs` with the largest count, and of all such values the one that occurs first in `xs`. |
| Counters.MostCommonAt | backend/hand_evaluator.py:142 | `most_common(1)` reports an entry of maximal count, and no earlier entry reaches that count (first-inserted wins ties). |
| Counters.Pop | backend/hand_evaluator.py:155 | Popping a present key removes exactly that key. All other counts are kept, and the remaining entries are the original ones in their original order. |
| Counters.CountShape | backend/hand_evaluator.py:54-74 | On a five-card counter, each `values()` test of `evaluate_hand` is equivalent to a condition on the number of different ranks and the largest count. |
| Evaluator.ValueOrder | backend/hand_evaluator.py:6-17 | The ten category values are distinct and ordered straight flush > five of a kind > … > high card. |
| Evaluator.IsFlushIffOneSuit | backend/hand_evaluator.py:19-23 | `is_flush` holds exactly when the hand is non-empty and every card has the first card's suit. |
| Evaluator.IsStraightIffRun | backend/hand_evaluator.py:25-36 | `is_straight` holds exactly when the hand's ranks are the wheel 2-3-4-5-A or a run of consecutive ranks from the least rank. |
| Evaluator.StraightHasNoPair | backend/hand_evaluator.py:25-36 | A straight never repeats a rank. |
| Evaluator.MaxCountIsLargest | backend/hand_evaluator.py:53 | The counter's largest count is the largest number of cards that share a rank. |
| Evaluator.EvaluateHandShape | backend/hand_evaluator.py:44-77 | Each category holds exactly when its independent shape description holds. The description uses the number of different ranks, the size of the most common rank, and whether the hand is a flush and/or a straight. |
| TieBreak.StraightWinners | backend/hand_evaluator.py:85-95 | Straight-type ties are won by exactly the hands whose top rank is the best (highest for a high bet, lowest for a low one), listed in ascending order. |
| TieBreak.FlushStep | backend/hand_evaluator.py:113-120 | One flush round keeps exactly the hands whose top rank is the best one. Each kept hand gives up exactly one card of the best rank and keeps its other cards: its multiset is the old one minus one copy of `best`. |
| TieBreak.PairedStep | backend/hand_evaluator.py:151-155 | One paired round keeps exactly the hands whose most common rank is the best one. Each loses that rank's entry and keeps every other count. |
| TieBreak.FlushElim | backend/hand_evaluator.py:99-123 | The flush loop ends with a non-empty ascending list of surviving hands. |
| TieBreak.PairedElim | backend/hand_evaluator.py:135-159 | The paired loop ends with a non-empty ascending list of surviving hands. |
| TieBreak.PairedSameKinds | backend/hand_evaluator.py:128 | Hands of one paired category have counters of the same size, so the paired loop's "no cards left" test is the same for all survivors. |
| TieBreak.BreakTies | backend/hand_evaluator.py:79-159 | On hands of one category, `break_ties` answers a non-empty ascending list of valid indices. |
| TieBreak.Tied | backend/hand_evaluator.py:164-173 | The tied hands are exactly those whose category value is the extreme one (max for high, min for low). They share one category. |
| TieBreak.ReturnWinners | backend/hand_evaluator.py:162-176 | Winners are a non-empty ascending list of hands, all with the extreme category value. |
| TieBreak.ReturnWinnersAsWritten | backend/hand_evaluator.py:162-176 | The as-written winners are ascending and all have the extreme category value, but the list may be empty. |
| TieBreakLaws.BreakTiesStraight | backend/hand_evaluator.py:85-95 | For straights, straight flushes and fives of a kind, index `i` wins exactly when its top rank is at least as good as every hand's. |
| TieBreakLaws.FlushElimTop | backend/hand_evaluator.py:99-123 | The flush loop keeps exactly the hands whose ranks, read from highest to lowest, are lexicographically best among the survivors. |
| TieBreakLaws.PairedElimTop | backend/hand_evaluator.py:135-159 | The paired loop keeps exactly the hands whose sequence of most common ranks is lexicographically best among the survivors. |
| TieBreakLaws.BreakTiesFlush | backend/hand_evaluator.py:97-123 | For flushes and high cards, index `i` wins exactly when its descending ranks are lexicographically at least as good as every hand's. |
| TieBreakLaws.BreakTiesPaired | backend/hand_evaluator.py:128-159 | For paired categories, index `i` wins exactly when its most-common-rank sequence is lexicographically at least as good as every hand's. |
| TieBreakLaws.TwinsTie | backend/hand_evaluator.py:79-159 | Two hands of one category with the same ranks tie, so both indices come back. For paired hands the ranks must also be in the same order. |
| TieBreakLaws.DealtTwinsTie | backend/game_logic.py:48-50 | Two dealt (rank-sorted) hands of one category with the same rank values always tie. |
| WinnerLaws.ReturnWinnersIff | backend/hand_evaluator.py:162-176 | Hand `i` wins exactly when its category value is the extreme one and, if it shares that value, the tie-break picks its position among the tied hands. |
| WinnerLaws.ReturnWinnersMapsBack | backend/hand_evaluator.py:171-176 | The tied hand at position `k` of the tied list wins exactly when it is the only tied hand or the tie-break picks `k`. |
| WinnerLaws.UniqueExtremeWins | backend/hand_evaluator.py:175-176 | A hand alone at the extreme category value is the sole winner in both versions. |
| WinnerLaws.SingleHandWins | backend/hand_evaluator.py:162-176 | A single hand always wins. |
| WinnerLaws.AsWrittenOnPrefix | backend/hand_evaluator.py:173-174 | When the tied hands are the first ones of the list, the as-written and corrected versions agree. |
| WinnerLaws.AsWrittenOnTwoHands | backend/hand_evaluator.py:173-174 | With one or two hands, the as-written and corrected versions agree. |
| IndexMixup.AsWrittenDropsWinner | backend/hand_evaluator.py:174 | If hands 0 and 2 tie on a flush or high-card category, hand 1 is worse and hand 2 has the higher top rank, then the as-written version names no winner for a high bet while the corrected one names hand 2. |
| IndexMixup.MixupExample | backend/hand_evaluator.py:174 | For a King-high flush, a Queen-high hand and an Ace-high flush with a high bet, the as-written version answers `[]` and the corrected one answers `[2]`. |
| SurvivorLookup.FlushElimAsWritten | backend/hand_evaluator.py:99-123 | The flush loop as written raises only `KeyError`, and otherwise answers what the survivor-walking loop answers. |
| SurvivorLookup.PairedElimAsWritten | backend/hand_evaluator.py:135-159 | The paired loop as written raises only `KeyError`, and otherwise answers what the survivor-walking loop answers. |
| SurvivorLookup.BreakTiesAsWritten | backend/hand_evaluator.py:79-159 | `break_ties` as written raises only `KeyError`, and otherwise answers what the survivor-walking version answers. |
| SurvivorLookup.RaisesPastTwo | backend/hand_evaluator.py:113-120 | `break_ties` as written raises only on more than two hands. |
| SurvivorLookup.BreakTiesTwoHands | backend/hand_evaluator.py:113-120 | With at most two hands, `break_ties` as written never raises. |
| SurvivorLookup.MiddleDroppedRaises | backend/hand_evaluator.py:113-117 | When the middle of three hands drops out in the first round and cards are left, the next round's lookup of index 1 raises `KeyError`. |
| SurvivorLookup.ReturnWinnersRaising | backend/hand_evaluator.py:162-176 | `return_winners` as written, including the tie-break's error: it raises `KeyError` only when more than two hands tie, and otherwise answers the as-written winner list. |
| SurvivorLookup.MixupRaisesNothing | backend/hand_evaluator.py:162-176 | For a King-high flush, a Queen-high hand and an Ace-high flush with a high bet, only two hands tie, nothing is raised, and `return_winners` as written answers `[]`. |
| SurvivorLookup.SingleHandRaisesNothing | backend/hand_evaluator.py:175-176 | For a single hand, `return_winners` raises nothing and answers `[0]`. |
| SurvivorLookup.AllThreeTied | backend/hand_evaluator.py:164-173 | Three hands of one category are all tied. |
| SurvivorLookup.ThreeTiedRaise | backend/hand_evaluator.py:171-174 | When three hands tie and the tie-break raises, `return_winners` raises the same error. |
| SurvivorLookup.ThreeFlushesRaise | backend/hand_evaluator.py:162-176 | `return_winners` on Ace-9, King-9 and Ace-10 flushes with a high bet raises `KeyError`. |
| SurvivorLookup.ThreeFlushExample | backend/hand_evaluator.py:113-120 | For Ace-9, King-9 and Ace-10 flushes with a high bet, `break_ties` as written raises `KeyError`, while the survivor-walking version names hand 2. |
| Games.NewGame | backend/game_logic.py:12-23 | A new game has no players, empty dictionaries, zero rounds, is not started and holds the fresh deck. |
| Games.AddPlayer | backend/game_logic.py:25-29 | Joining appends the name and gives it an empty hand, bet `(0, "none")` and score 0. Nothing else changes. |
| Games.AddPlayerWellFormed | backend/game_logic.py:25-29 | On a well-formed game, joining keeps it well formed exactly when the name is new. |
| Games.RemoveName | backend/game_logic.py:32 | `players.remove(u)` takes out exactly the first occurrence of `u`; everyone else keeps their place. |
| Games.RemovePlayer | backend/game_logic.py:31-35 | Leaving raises `ValueError` for a non-player and `KeyError` for a missing dictionary entry. Otherwise the first occurrence leaves the list and the name leaves all three dictionaries. Everyone else keeps their place in the list and, when keys are distinct, in each dictionary. |
| Games.RemoveUndoesAdd | backend/game_logic.py:25-35 | Removing a player who just joined a well-formed game gives back the game from before the join. |
| Games.DealCards | backend/game_logic.py:48-51 | Dealing needs five cards or raises `IndexError`. The player's hand becomes the deck's last five cards sorted by rank, those cards leave the deck, and the answer shows the hand. |
| Games.DealCardsStable | backend/game_logic.py:50 | Cards of one rank keep the order in which they were popped. |
| Games.ReplaceFirstAt | backend/game_logic.py:68-72 | With the first wild card labelled `target` at position `i`, exactly position `i` is replaced. |
| Games.ReplaceFirstNoMatch | backend/game_logic.py:68-72 | Without a wild card labelled `target`, the hand is unchanged. |
| Games.ReplaceFirstKeepsWildCount | backend/game_logic.py:66-72 | Swapping in a card marked wild leaves the hand's number of wild cards unchanged. |
| Games.ReplaceWild | backend/game_logic.py:54-74 | A name without a hand raises `KeyError`. Otherwise only that player's hand changes, its first matching wild card is replaced by the new wild card, and the answer shows the hand. |
| Games.MakeBet | backend/game_logic.py:76-77 | A bet records `(amount, direction)` for the name, keeps the key order for an existing name, and changes nothing else. |
| Games.MakeBetWellFormed | backend/game_logic.py:76-77 | On a well-formed game, a bet keeps the game well formed exactly when the better is a player. |
| Games.ResetGame | backend/game_logic.py:164-173 | Resetting gives the state of a new game, whatever came before. |
| Settlement.Bettors | backend/game_logic.py:83-84 | The bettors of a direction are exactly the bet holders with that direction, without repeats, and of any two bettors the earlier one comes earlier in the bets dictionary's key order. |
| Settlement.BettorsInOrder | backend/game_logic.py:83-84 | Filtering a list of keys without repeats keeps their order: of any two bettors, the earlier one stands earlier among the keys. |
| Settlement.Pick | backend/game_logic.py:89-91 | The winners of a group are the names at the positions `return_winners` as written picks out of their hands. `KeyError` is raised only when more than two hands tie. A lone bettor wins. |
| Settlement.GroupWinners | backend/game_logic.py:88-95 | A direction's winners are the bettors at the positions `return_winners` as written picks out of their hands. `KeyError` is raised when a bettor has no hand, or when every bettor has one, more than two bet and the tie-break raises. Nobody betting means no winners. |
| Settlement.Shown | backend/game_logic.py:98 | The shown hands have the same keys, in the same order, each mapped to its labels and wild flags. |
| Settlement.ScoreLoop | backend/game_logic.py:99-110 | The scoring loop fails exactly when some player lacks a bet or a score, and then raises `KeyError`. It touches only hands, bets and scores. |
| Settlement.UpdateScores | backend/game_logic.py:82-124 | Settling keeps players, started flag and rounds and uses up one round. It rebuilds the deck and returns each direction's bettors reordered with the highest new score first. It raises only `KeyError`, and settles only when the round's winners are found. |
| SettlementLaws.ScoreLoopVisited | backend/game_logic.py:99-110 | A player the loop visits ends with old score ± bet (+ for a winner), a matching change entry, bet `(0, "none")` and an empty hand. |
| SettlementLaws.ScoreLoopUnvisited | backend/game_logic.py:99-110 | A name the loop does not visit keeps its score, bet, hand and change entry. |
| SettlementLaws.RoundWinnersOk | backend/game_logic.py:86-95 | In a well-formed game whose bettors hold five cards, finding the winners raises only when more than two players bet in one direction. |
| SettlementLaws.UpdateScoresOk | backend/game_logic.py:82-124 | In a well-formed game whose bettors hold five cards, settling succeeds exactly when the round's winners are found, and so can fail only with more than two bettors in one direction. |
| SettlementLaws.WinnersFoundSettles | backend/game_logic.py:97-124 | Once the round's winners are found, the scoring loop and the final sort find every entry they look up, and settling succeeds. |
| SettlementLaws.SettledScore | backend/game_logic.py:99-107 | Each player's new score is the old score plus the reported change. |
| SettlementLaws.SettledChange | backend/game_logic.py:101-107 | The reported change is `+bet` for a round winner and `-bet` otherwise. |
| SettlementLaws.SettledCleared | backend/game_logic.py:109-110 | After settling, each player's bet is `(0, "none")` and their hand is empty. |
| SettlementLaws.SettledWellFormed | backend/game_logic.py:99-111 | Settling keeps the game well formed and leaves every bet at `(0, "none")`. |
| SettlementLaws.SettledBetsNotIn | backend/game_logic.py:79-80 | Right after settling, `all_bets_in` is false whenever anyone plays. |
| SettlementLaws.RoundsCountDown | backend/game_logic.py:40-45 | After `set_rounds(n)` and `start`, the next settlement leaves the game started, `rounds == n` and `rounds_left == n - 1`. |
| SettlementLaws.WinsInOwnGroup | backend/game_logic.py:86-95 | A player is a round winner exactly when they win within their own direction's group. A player betting neither way never wins. |
| SettlementLaws.GroupWinnerAt | backend/game_logic.py:88-95 | When the group's tie-break does not raise, the bettor at position `i` wins exactly when `return_winners` as written picks `i` out of the group's hands. |
| SettlementLaws.SoleBettorWins | backend/game_logic.py:88-95 | The only bettor of a direction wins their group, and gains the bet whenever the round settles. |
| SettlementLaws.OppositeBettorsBothGain | backend/game_logic.py:82-110 | With two players betting opposite directions, both win and both gain their bet. |
| SettlementLaws.GroupTiesKeepOrder | backend/game_logic.py:113-115 | Bettors of one direction with equal new scores keep the bets dictionary's order. |
| SettlementLaws.DirectionRaises | backend/game_logic.py:88-95 | When the tie-break of one direction raises, finding that direction's winners, finding the round's winners and settling all raise `KeyError`. |
| SettlementLaws.MixupBettorsLose | backend/game_logic.py:88-91 | Three high bettors holding a King-high flush, a Queen-high hand and an Ace-high flush, in bet order: nobody in the group wins. |
| SettlementLaws.ThreeFlushBettorsRaise | backend/game_logic.py:82-95 | Three high bettors holding an Ace-9, a King-9 and an Ace-10 flush, in bet order: settling the round raises `KeyError`. |
| Sorting.SortByStable | backend/game_logic.py:114 | The stable sort keeps the elements of each key value in their input order. |
| Sorting.SortBySorted | backend/game_logic.py:134 | A list already in key order is left as it is. |
| Payout.WinnerCount | backend/game_logic.py:131 | The number of payees is half the number of players, rounded up. |
| Payout.Rank | backend/game_logic.py:134 | The ranking is a permutation of the players sorted by descending score. |
| Payout.Measure | backend/game_logic.py:135-156 | Winners followed by losers make up the ranking, with the rounded-up half as winners. Both sides are non-empty and each has one part per member. |
| Payout.Prepare | backend/game_logic.py:131-139 | Ranking raises `KeyError` when a player has no score and `IndexError` with fewer than two players, and succeeds otherwise. |
| Payout.DistributeMoneyAsWritten | backend/game_logic.py:129-161 | When the payout as written succeeds, or raises anything but `ZeroDivisionError`, it answers what the guarded payout answers. Once every player has a score and there are at least two players, its only possible error is `ZeroDivisionError`; `PayoutLaws.AsWrittenFailsOnEqualScores` and `PayoutLaws.AsWrittenAgreesUnlessEqual` show it is raised exactly when all scores are equal. |
| Payout.DistributeMoney | backend/game_logic.py:129-161 | The guarded payout succeeds exactly when every player has a score and there are at least two players. It never raises `ZeroDivisionError`. On success the game's players are replaced by the ranking and nothing else changes; the first half of the ranking, rounded up, has an entry of what they are owed, in ranking order, and every remaining player has an entry of what they owe, in ranking order. |
| PayoutLaws.RankedDescending | backend/game_logic.py:134 | Scores never go up along the ranking. |
| PayoutLaws.MeasureNonNegative | backend/game_logic.py:144-156 | No winner's or loser's part is negative. |
| PayoutLaws.TotalsZeroIffEqual | backend/game_logic.py:143-156 | Both totals the payout divides by are zero exactly when all scores are equal. |
| PayoutLaws.AsWrittenAgreesUnlessEqual | backend/game_logic.py:129-161 | Unless all scores are equal, the as-written and guarded payouts agree, including on their errors. |
| PayoutLaws.AsWrittenFailsOnEqualScores | backend/game_logic.py:148 | With at least two players and all scores equal, the as-written payout raises `ZeroDivisionError`. |
| PayoutLaws.EqualScoresPayNothing | backend/game_logic.py:129-161 | With all scores equal, the guarded payout succeeds and every amount is zero. |
| PayoutLaws.UnplayedPairDividesByZero | backend/game_logic.py:25-29 | If two players join and the game is paid out before any round, the as-written payout raises `ZeroDivisionError` and the guarded one pays nothing. |
| PayoutLaws.PayoutConserves | backend/game_logic.py:139-158 | The winners' entries total top score minus bottom score, the losers' entries total the same, and no amount is negative. |
| PayoutLaws.RankStable | backend/game_logic.py:134 | The sort is stable: among players with the same score, the ranking keeps the order in which they joined. |
| PayoutLaws.OwedProportional | backend/game_logic.py:144-148 | Any two winners' entries are in the ratio of their leads over the last-ranked player. |
| PayoutLaws.OwesProportional | backend/game_logic.py:153-158 | Any two losers' entries are in the ratio of their gaps below the first-ranked player. |
| Payout.AsDictDistinct | backend/game_logic.py:144-148 | Filing entries under distinct names into a dictionary, one assignment each, gives those names as keys in order, each with its entry's amount. |
| PayoutLaws.PayoutDicts | backend/game_logic.py:142-161 | When no player is listed twice, the dictionaries `win` and `lose` hold exactly the payout's entries: the winners' and losers' names in ranking order, each with its amount. |
| PayoutLaws.RepeatedNameCollapses | backend/game_logic.py:144-148 | Players `a`, `a` and `b` scoring 10, 10 and 0: the loop gives each of the two entries of `a` 5, the dictionary keeps one key `a` with 5, and `b` owes 10. |
| PayoutLaws.TenAndZero | backend/game_logic.py:129-161 | With scores 10 and 0, in both versions the first player is owed 10 and the second owes 10. |

## Left out

- `backend/app.py` (the Flask/Socket.IO server, rooms and messages) is not part of this model.
- Shuffling (`random.shuffle` in `Game()`, `update_scores` and `reset_game`) is left out: decks are unshuffled, and a shuffled deck can be given to `Deal` directly.
- The game id `gid` and the evaluator object are left out: they carry no behaviour.
- `get_state` is left out: it only copies the state into lists.
- Parsing is left out, because it needs Python's string-to-int coercion:
  - `replace_wild` reading "Rank of Suit" (lines 56-65);
  - `set_rounds` calling `int()`;
  - `update_scores` calling `int()` on the bet.
  The model takes already-parsed values.
- Payout amounts are exact rationals: rounding to cents and "{:.2f}" formatting are left out.
- Payout.DistributeMoney: answers one entry per ranked player where the program answers dictionaries keyed by name. The two agree when no name is listed twice (`PayoutLaws.PayoutDicts`). `add_player` does allow a repeated name, and then the dictionary keeps one key for it (`PayoutLaws.RepeatedNameCollapses`).
- PayoutLaws.PayoutConserves: totals the entries, not the dictionaries. With a repeated name the program's winners are owed less than the losers owe, as `PayoutLaws.RepeatedNameCollapses` shows.
- PayoutLaws.OwedProportional: relates entries; the dictionaries hold the same amounts when no name is listed twice (`PayoutLaws.PayoutDicts`).
- PayoutLaws.OwesProportional: relates entries; the dictionaries hold the same amounts when no name is listed twice (`PayoutLaws.PayoutDicts`).
- Card ranks are unbounded integers, and no Python type errors are modelled.
- Aliasing is left out: in Python, the hands passed to the evaluator share card objects with the game. The model has values only.
- Partial updates are left out: after a Python exception part of the state may already be changed. The model returns only the error.
- Bet directions other than "high" and "low" are all `NoDirection`, because the source only compares against those two strings.
- `Games.CanStart` and `Games.AllBetsIn` are plain predicates with no separate contract. `AllBetsIn` is used in `SettlementLaws.SettledBetsNotIn`.
- `Games.Start` and `Games.SetRounds` have contracts that only restate their one-field updates. What they mean is stated by `SettlementLaws.RoundsCountDown`.
- `TieBreak.FlushElim` / `TieBreak.PairedElim` walk the surviving indices rather than `range(len(...))`. That is the intended reading; the as-written loop is `SurvivorLookup.FlushElimAsWritten` / `SurvivorLookup.PairedElimAsWritten`.
- The lemmas about a settled round (`SettlementLaws.SettledScore`, `SettledChange`, `SettledCleared`, `SettledWellFormed`, `SettledBetsNotIn`, `RoundsCountDown`, `WinsInOwnGroup`, `GroupTiesKeepOrder`) require that the round's winners are found. When the tie-break raises, nothing is settled; that case is stated by `SettlementLaws.UpdateScoresOk` and `SettlementLaws.DirectionRaises`.
- Hands of any size other than five cards are out of scope for `break_ties` and `return_winners`, because every hand in play is dealt with five cards.
- Tie-breaking for paired categories depends on the order `Counter.most_common` breaks ties in, and that order follows the hand's card order. The model keeps this order dependence, and states it in `TieBreakLaws.TwinsTie` instead of hiding it.
- TieBreak.FlushElim: the contract states only that the result is a non-empty ascending set of survivors. Which hands survive is stated separately by `TieBreakLaws.FlushElimTop`.
- TieBreak.PairedElim: the contract states only that the result is a non-empty ascending set of survivors. Which hands survive is stated separately by `TieBreakLaws.PairedElimTop`.

## Findings

| source | as written | input that shows it | evidently intended | confidence | as-written member | corrected member |
|---|---|---|---|---|---|---|
| backend/hand_evaluator.py:174 | `break_ties` answers positions in the sub-list of tied hands, and these are compared with positions in the full list. | Hands [King-high flush, Queen-high non-flush, Ace-high flush] with a high bet: hands 0 and 2 tie, and `break_ties` answers `[1]`. | The Ace-high flush, hand 2, wins, as `WinnerLaws.ReturnWinnersIff` proves of the corrected version; the as-written code answers `[]`. | not executed | IndexMixup.MixupExample | TieBreak.ReturnWinners |
| backend/game_logic.py:139-158 | Every share is divided by the side's total, and both totals are zero when all scores are equal. | Two players join and the game is paid out at once: both scores are 0. | Nobody is owed or owes anything, as `PayoutLaws.EqualScoresPayNothing` proves of the guarded version; the as-written code raises `ZeroDivisionError`. | not executed | PayoutLaws.UnplayedPairDividesByZero | Payout.DistributeMoney |
| backend/hand_evaluator.py:113-120 | The elimination loop looks hands up by `range(len(high_cards))`, so once a middle hand has dropped out, index 1 is looked up again. | Ace-9-7-5-3, King-9-7-5-3 and Ace-10-7-5-3 flushes with a high bet. | The Ace-10 flush, hand 2, wins, the lexicographically best hand, as `TieBreakLaws.BreakTiesFlush` proves of the survivor-walking version; the as-written code raises `KeyError`, and so does `update_scores` (`SettlementLaws.ThreeFlushBettorsRaise`). | not executed | SurvivorLookup.ThreeFlushExample | TieBreak.BreakTies |
