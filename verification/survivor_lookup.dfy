/** The two elimination loops of `break_ties` as written walk
    `for i in range(len(high_cards))` and look every `i` up in the dictionary
    of survivors. After a round has dropped a hand that was not the last one,
    the survivors are no longer the indices `0 .. len - 1`, and the lookup of a
    dropped index raises `KeyError`. The loops in `TieBreak` walk the surviving
    indices instead; below, the loops as written are shown to agree with them
    whenever they do not raise, never to raise with two hands, and to raise on
    three flushes where the middle one loses first. */
module SurvivorLookup {
  import opened Seqs
  import opened Cards
  import opened Results
  import opened Counters
  import opened Evaluator
  import opened TieBreak
  import opened WinnerLaws
  import opened IndexMixup

  /** The survivors are exactly the indices `0 .. |m| - 1`, so every lookup
      `high_cards[i]` for `i in range(len(high_cards))` finds its entry. */
  predicate Dense<T>(m: map<nat, T>) {
    forall i: nat :: i < |m| ==> i in m
  }

  /** The flush / high-card loop as written: a round over survivors that are
      not the first indices raises `KeyError`. */
  function FlushElimAsWritten(m: map<nat, seq<int>>, n: nat, high: bool): (r: Result<seq<nat>>)
    requires |m| > 0
    requires forall i :: i in m ==> i < n
    requires SameWidth(m)
    ensures r.Err? ==> r.error == KeyError
    ensures r.Ok? ==> r.value == FlushElim(m, n, high)
    decreases Width(m)
  {
    if Settled(m, n) then Ok(KeysBelow(m, n))
    else if !Dense(m) then Err(KeyError)
    else FlushElimAsWritten(FlushRound(m, n, high), n, high)
  }

  /** The paired loop as written, with the same lookup. */
  function PairedElimAsWritten(m: map<nat, Counter>, n: nat, high: bool): (r: Result<seq<nat>>)
    requires |m| > 0
    requires forall i :: i in m ==> i < n && Valid(m[i])
    requires SameWidth(m)
    ensures r.Err? ==> r.error == KeyError
    ensures r.Ok? ==> r.value == PairedElim(m, n, high)
    decreases Width(m)
  {
    if Settled(m, n) then Ok(KeysBelow(m, n))
    else if !Dense(m) then Err(KeyError)
    else PairedElimAsWritten(PairedRound(m, n, high), n, high)
  }

  /** The flush / high-card branch of `break_ties` as written. */
  function FlushWinnersAsWritten(hands: seq<seq<Card>>, high: bool): (r: Result<seq<nat>>)
    requires |hands| > 0 && FiveCards(hands)
    ensures r.Err? ==> r.error == KeyError
    ensures r.Ok? ==> r.value == FlushWinners(hands, high)
  {
    var m := RankMap(hands);
    assert SameWidth(m);
    assert 0 in m.Keys;
    FlushElimAsWritten(m, |hands|, high)
  }

  /** The paired branch of `break_ties` as written. */
  function PairedWinnersAsWritten(hands: seq<seq<Card>>, high: bool): (r: Result<seq<nat>>)
    requires |hands| > 0 && SameKinds(hands)
    ensures r.Err? ==> r.error == KeyError
    ensures r.Ok? ==> r.value == PairedWinners(hands, high)
  {
    var m := CounterMap(hands);
    assert SameWidth(m);
    assert 0 in m.Keys;
    PairedElimAsWritten(m, |hands|, high)
  }

  /** `break_ties` as written. */
  function BreakTiesAsWritten(hands: seq<seq<Card>>, high: bool): (r: Result<seq<nat>>)
    requires |hands| > 0 && FiveCards(hands) && SameCategory(hands)
    ensures r.Err? ==> r.error == KeyError
    ensures r.Ok? ==> r.value == BreakTies(hands, high)
  {
    var category := EvaluateHand(hands[0]);
    if category in {StraightFlush, Straight, FiveOfAKind} then
      Ok(StraightWinners(hands, high))
    else if category in {Flush, HighCard} then
      FlushWinnersAsWritten(hands, high)
    else
      PairedSameKinds(hands);
      PairedWinnersAsWritten(hands, high)
  }

  // ---------------------------------------------------------------------
  // Two hands: the survivors always stay the first indices.
  // ---------------------------------------------------------------------

  /** Survivors among the indices 0 and 1: two of them are both. */
  lemma BothOfTwo<T>(m: map<nat, T>)
    requires forall i :: i in m ==> i < 2
    ensures |m| <= 2
    ensures |m| > 1 ==> Dense(m)
  {
    if 0 !in m && 1 !in m {
      assert m.Keys == {};
    } else if 0 !in m {
      assert m.Keys == {1};
    } else if 1 !in m {
      assert m.Keys == {0};
    } else {
      assert m.Keys == {0, 1};
      assert |m| == 2;
    }
  }

  /** Survivors among 0 and 1, including 0, are the first indices. */
  lemma DenseOfTwo<T>(m: map<nat, T>)
    requires 0 in m && forall i :: i in m ==> i < 2
    ensures Dense(m)
  {
    BothOfTwo(m);
    forall i: nat | i < |m|
      ensures i in m
    {
      assert i == 0 || |m| > 1;
    }
  }

  lemma {:induction false} FlushTwoHands(m: map<nat, seq<int>>, n: nat, high: bool)
    requires |m| > 0
    requires forall i :: i in m ==> i < n && i < 2
    requires SameWidth(m) && Dense(m)
    ensures FlushElimAsWritten(m, n, high).Ok?
    decreases Width(m)
  {
    if !Settled(m, n) {
      var next := FlushRound(m, n, high);
      BothOfTwo(next);
      if !Settled(next, n) {
        FlushTwoHands(next, n, high);
      }
    }
  }

  lemma {:induction false} PairedTwoHands(m: map<nat, Counter>, n: nat, high: bool)
    requires |m| > 0
    requires forall i :: i in m ==> i < n && i < 2 && Valid(m[i])
    requires SameWidth(m) && Dense(m)
    ensures PairedElimAsWritten(m, n, high).Ok?
    decreases Width(m)
  {
    if !Settled(m, n) {
      var next := PairedRound(m, n, high);
      BothOfTwo(next);
      if !Settled(next, n) {
        PairedTwoHands(next, n, high);
      }
    }
  }

  /** With at most two hands the flush branch as written never raises. */
  lemma FlushBranchTwoHands(hands: seq<seq<Card>>, high: bool)
    requires 0 < |hands| <= 2 && FiveCards(hands)
    ensures FlushWinnersAsWritten(hands, high).Ok?
  {
    var m := RankMap(hands);
    assert SameWidth(m);
    assert 0 in m.Keys;
    DenseOfTwo(m);
    FlushTwoHands(m, |hands|, high);
  }

  /** With at most two hands the paired branch as written never raises. */
  lemma PairedBranchTwoHands(hands: seq<seq<Card>>, high: bool)
    requires 0 < |hands| <= 2 && SameKinds(hands)
    ensures PairedWinnersAsWritten(hands, high).Ok?
  {
    var m := CounterMap(hands);
    forall i | i in m
      ensures i < |hands| && i < 2 && Valid(m[i])
    {
      assert m[i] == CounterOf(Ranks(hands[i]));
    }
    assert SameWidth(m);
    assert 0 in m.Keys;
    DenseOfTwo(m);
    PairedTwoHands(m, |hands|, high);
  }

  /** With at most two hands `break_ties` as written never raises, and so
      answers as intended. */
  lemma BreakTiesTwoHands(hands: seq<seq<Card>>, high: bool)
    requires 0 < |hands| <= 2 && FiveCards(hands) && SameCategory(hands)
    ensures BreakTiesAsWritten(hands, high) == Ok(BreakTies(hands, high))
  {
    var category := EvaluateHand(hands[0]);
    if category in {Flush, HighCard} {
      FlushBranchTwoHands(hands, high);
    } else if category !in {StraightFlush, Straight, FiveOfAKind} {
      PairedSameKinds(hands);
      PairedBranchTwoHands(hands, high);
    }
  }

  /** `break_ties` as written raises only `KeyError`, and only on more than
      two hands; otherwise it answers what the version walking the
      survivors answers. */
  lemma RaisesPastTwo(hands: seq<seq<Card>>, high: bool)
    requires |hands| > 0 && FiveCards(hands) && SameCategory(hands)
    ensures BreakTiesAsWritten(hands, high).Err? ==> BreakTiesAsWritten(hands, high).error == KeyError && |hands| > 2
    ensures BreakTiesAsWritten(hands, high).Ok? ==> BreakTiesAsWritten(hands, high).value == BreakTies(hands, high)
  {
    if |hands| <= 2 {
      BreakTiesTwoHands(hands, high);
    }
  }

  /** On the hands of the index mix-up only two hands tie, so
      `return_winners` as written raises nothing and names no winner. */
  lemma MixupRaisesNothing(s: Suit, t: Suit, u: Suit, v: Suit)
    requires u != v
    ensures FiveCards([KingFlush(s), QueenHigh(u, v), AceFlush(t)])
    ensures |Tied([KingFlush(s), QueenHigh(u, v), AceFlush(t)], true)| == 2
    ensures ReturnWinnersRaising([KingFlush(s), QueenHigh(u, v), AceFlush(t)], true) == Ok([])
  {
    MixupExample(s, t, u, v);
  }

  /** A single hand wins, and nothing is raised. */
  lemma SingleHandRaisesNothing(hands: seq<seq<Card>>, high: bool)
    requires |hands| == 1 && FiveCards(hands)
    ensures ReturnWinnersRaising(hands, high) == Ok([0])
  {
    SingleHandWins(hands, high);
  }

  /** No more hands are tied than there are hands. */
  lemma TiedWithin(hands: seq<seq<Card>>, high: bool)
    requires |hands| > 0 && FiveCards(hands)
    ensures |Tied(hands, high)| <= |hands|
  {
    var tied := Tied(hands, high);
    AscendingAtLeastPosition(tied);
    assert tied[|tied| - 1] >= |tied| - 1;
  }

  /** `return_winners` exactly as written, the version `update_scores`
      calls: `break_ties` as written runs on the tied hands and its
      `KeyError` propagates, and its answer is compared with positions in
      the full list. It raises only when more than two hands are tied, and
      otherwise answers what `ReturnWinnersAsWritten` answers. */
  function ReturnWinnersRaising(hands: seq<seq<Card>>, high: bool): (r: Result<seq<nat>>)
    requires |hands| > 0 && FiveCards(hands)
    ensures r.Err? ==> r.error == KeyError && 2 < |Tied(hands, high)| <= |hands|
    ensures r.Ok? ==> r.value == ReturnWinnersAsWritten(hands, high)
  {
    var tied := Tied(hands, high);
    TiedWithin(hands, high);
    if |tied| > 1 then
      var sub := Select(hands, tied);
      RaisesPastTwo(sub, high);
      match BreakTiesAsWritten(sub, high)
      case Err(e) => Err(e)
      case Ok(winners) => Ok(KeepMembers(tied, winners))
    else Ok(tied)
  }

  // ---------------------------------------------------------------------
  // Three flushes: the middle one drops out first, and the next round fails.
  // ---------------------------------------------------------------------

  /** A list led by its largest element: that element is the maximum, and
      removing it leaves the rest. */
  lemma HeadIsMax(s: seq<int>)
    requires |s| > 0 && forall i :: 0 <= i < |s| ==> s[i] <= s[0]
    ensures Max(s) == s[0] && RemoveFirst(s, s[0]) == s[1..]
  {
  }

  /** Five ranks led by the largest. */
  lemma HeadOfFive(s: seq<int>)
    requires |s| == 5 && s[1] <= s[0] && s[2] <= s[0] && s[3] <= s[0] && s[4] <= s[0]
    ensures Max(s) == s[0] && RemoveFirst(s, s[0]) == s[1..]
  {
    forall i | 0 <= i < |s|
      ensures s[i] <= s[0]
    {
      assert i == 0 || i == 1 || i == 2 || i == 3 || i == 4;
    }
    HeadIsMax(s);
  }

  /** Four ranks led by the largest. */
  lemma HeadOfFour(s: seq<int>)
    requires |s| == 4 && s[1] <= s[0] && s[2] <= s[0] && s[3] <= s[0]
    ensures Max(s) == s[0]
  {
    forall i | 0 <= i < |s|
      ensures s[i] <= s[0]
    {
      assert i == 0 || i == 1 || i == 2 || i == 3;
    }
    HeadIsMax(s);
  }

  /** The survivors in ascending order, once they are known. */
  lemma KeysBelowIs<T>(m: map<nat, T>, n: nat, r: seq<nat>)
    requires StrictlyAscending(r)
    requires forall i :: i in m ==> i < n
    requires forall i :: i in r <==> i in m
    ensures KeysBelow(m, n) == r
  {
    AscendingSameElements(KeysBelow(m, n), r);
  }

  /** Survivors among 0, 1, 2 of one width. */
  lemma WidthOfThree(m: map<nat, seq<int>>)
    requires forall i :: i in m ==> i < 3
    requires 0 in m && (1 in m ==> |m[1]| == |m[0]|) && (2 in m ==> |m[2]| == |m[0]|)
    ensures SameWidth(m)
  {
    forall i, j | i in m && j in m
      ensures |m[i]| == |m[j]|
    {
      assert i == 0 || i == 1 || i == 2;
      assert j == 0 || j == 1 || j == 2;
    }
  }

  /** The survivors 0, 1, 2 are the first three indices. */
  lemma DenseThree(m: map<nat, seq<int>>)
    requires 0 in m && 1 in m && 2 in m && forall i :: i in m ==> i < 3
    ensures |m| == 3 && Dense(m) && KeysBelow(m, 3) == [0, 1, 2]
  {
    assert m.Keys == {0, 1, 2};
    assert |m| == 3 by {
      assert |m.Keys| == |{0, 1, 2}|;
    }
    forall i: nat | i < |m|
      ensures i in m
    {
      assert i == 0 || i == 1 || i == 2;
    }
    KeysBelowIs(m, 3, [0, 1, 2]);
  }

  /** Three survivors 0, 1, 2 with cards left: the loop goes on, and every
      lookup finds its entry. */
  lemma ThreeLeft(m: map<nat, seq<int>>)
    requires 0 in m && 1 in m && 2 in m && forall i :: i in m ==> i < 3
    requires |m[0]| >= 1 && |m[1]| == |m[0]| && |m[2]| == |m[0]|
    ensures |m| == 3 && (forall i :: i in m ==> i < 3 && |m[i]| > 0)
    ensures SameWidth(m) && Dense(m) && !Settled(m, 3)
  {
    WidthOfThree(m);
    DenseThree(m);
    assert KeysBelow(m, 3)[0] == 0;
  }

  /** Survivors 0 and 2 with cards left: the loop goes on, and the lookup of
      index 1 fails. */
  lemma OuterLeft(m: map<nat, seq<int>>)
    requires 0 in m && 2 in m && forall i :: i in m ==> i == 0 || i == 2
    requires |m[0]| >= 1 && |m[2]| == |m[0]|
    ensures |m| == 2 && (forall i :: i in m ==> i < 3 && |m[i]| > 0)
    ensures SameWidth(m) && !Dense(m) && !Settled(m, 3)
  {
    assert m.Keys == {0, 2};
    assert |m| == 2 by {
      assert |m.Keys| == |{0, 2}|;
    }
    WidthOfThree(m);
    assert 1 !in m;
    KeysBelowIs(m, 3, [0, 2]);
    assert KeysBelow(m, 3)[0] == 0;
  }

  /** One survivor, hand 2: the loop stops and names it. */
  lemma LastLeft(m: map<nat, seq<int>>)
    requires 2 in m && forall i :: i in m ==> i == 2
    ensures |m| == 1 && (forall i :: i in m ==> i < 3)
    ensures SameWidth(m) && Settled(m, 3) && KeysBelow(m, 3) == [2]
  {
    assert m.Keys == {2};
    assert |m| == 1 by {
      assert |m.Keys| == |{2}|;
    }
    KeysBelowIs(m, 3, [2]);
  }

  /** The best highest rank of a high bet is the one hand `k` holds, when no
      hand beats it. */
  lemma BestIsAt(m: map<nat, seq<int>>, k: nat)
    requires k in m && forall i :: i in m ==> i < 3 && |m[i]| > 0
    requires forall i :: i in m ==> Max(m[i]) <= Max(m[k])
    ensures FlushBest(m, 3, true) == Max(m[k])
  {
    var best := FlushBest(m, 3, true);
    assert Max(m[k]) <= best;
  }

  /** No hand among 0, 1, 2 beats hand 0 when hands 0 and 2 share the
      highest rank and hand 1 falls short. */
  lemma OuterHoldBest(m: map<nat, seq<int>>)
    requires 0 in m && 1 in m && 2 in m && forall i :: i in m ==> i < 3 && |m[i]| > 0
    requires Max(m[1]) < Max(m[0]) && Max(m[2]) == Max(m[0])
    ensures forall i :: i in m ==> Max(m[i]) <= Max(m[0])
  {
    forall i | i in m
      ensures Max(m[i]) <= Max(m[0])
    {
      assert i == 0 || i == 1 || i == 2;
    }
  }

  /** A round at the rank hands 0 and 2 hold and hand 1 does not. */
  lemma OuterStep(m: map<nat, seq<int>>, best: int)
    requires 0 in m && 1 in m && 2 in m && forall i :: i in m ==> i < 3 && |m[i]| > 0
    requires Max(m[0]) == best && Max(m[2]) == best && Max(m[1]) != best
    ensures var next := FlushStep(m, best);
            && 0 in next && 2 in next && (forall i :: i in next ==> i == 0 || i == 2)
            && next[0] == RemoveFirst(m[0], best)
            && next[2] == RemoveFirst(m[2], best)
  {
    var next := FlushStep(m, best);
    assert 0 in next && 2 in next && 1 !in next;
    forall i | i in next
      ensures i == 0 || i == 2
    {
      assert i in m && i != 1;
    }
  }

  /** The round of the flush loop on three hands whose outer two share the
      best highest rank and whose middle one falls short: hand 1 goes, and
      hands 0 and 2 each give up one card of that rank. */
  lemma MiddleDropsFirst(m: map<nat, seq<int>>)
    requires 0 in m && 1 in m && 2 in m && forall i :: i in m ==> i < 3
    requires |m[0]| >= 2 && |m[1]| == |m[0]| && |m[2]| == |m[0]|
    requires Max(m[1]) < Max(m[0]) && Max(m[2]) == Max(m[0])
    ensures SameWidth(m) && Dense(m) && !Settled(m, 3)
    ensures var next := FlushRound(m, 3, true);
            && 0 in next && 2 in next && (forall i :: i in next ==> i == 0 || i == 2)
            && next[0] == RemoveFirst(m[0], Max(m[0]))
            && next[2] == RemoveFirst(m[2], Max(m[0]))
  {
    ThreeLeft(m);
    OuterHoldBest(m);
    BestIsAt(m, 0);
    OuterStep(m, Max(m[0]));
  }

  /** Three hands whose middle one drops out in the first round, with cards
      left to compare afterwards: the loop as written raises `KeyError`. */
  lemma MiddleDroppedRaises(m: map<nat, seq<int>>)
    requires 0 in m && 1 in m && 2 in m && forall i :: i in m ==> i < 3
    requires |m[0]| >= 2 && |m[1]| == |m[0]| && |m[2]| == |m[0]|
    requires Max(m[1]) < Max(m[0]) && Max(m[2]) == Max(m[0])
    ensures SameWidth(m)
    ensures FlushElimAsWritten(m, 3, true) == Err(KeyError)
  {
    MiddleDropsFirst(m);
    var next := FlushRound(m, 3, true);
    OuterLeft(next);
    assert FlushElimAsWritten(m, 3, true) == FlushElimAsWritten(next, 3, true);
  }

  /** The round on survivors 0 and 2 where hand 2 has the higher highest
      rank: only hand 2 is left. */
  lemma OuterRound(m: map<nat, seq<int>>)
    requires 0 in m && 2 in m && forall i :: i in m ==> i == 0 || i == 2
    requires |m[0]| >= 1 && |m[2]| == |m[0]|
    requires Max(m[0]) < Max(m[2])
    ensures SameWidth(m) && (forall i :: i in m ==> i < 3) && !Settled(m, 3)
    ensures var next := FlushRound(m, 3, true);
            2 in next && forall i :: i in next ==> i == 2
  {
    OuterLeft(m);
    BestIsAt(m, 2);
    var next := FlushStep(m, Max(m[2]));
    assert 2 in next && 0 !in next;
  }

  /** Two hands 0 and 2 left, the second with the higher highest rank: it
      alone survives the round, and the loop names it. */
  lemma HigherOfTwoWins(m: map<nat, seq<int>>)
    requires 0 in m && 2 in m && forall i :: i in m ==> i == 0 || i == 2
    requires |m[0]| >= 1 && |m[2]| == |m[0]|
    requires Max(m[0]) < Max(m[2])
    ensures SameWidth(m) && (forall i :: i in m ==> i < 3)
    ensures FlushElim(m, 3, true) == [2]
  {
    OuterRound(m);
    var next := FlushRound(m, 3, true);
    LastLeft(next);
    assert FlushElim(m, 3, true) == FlushElim(next, 3, true);
  }

  /** Five cards of one suit, all of different ranks, skipping `gap` above
      the least rank and missing the wheel rank `w`, make a flush. */
  lemma SuitedFlush(s: Suit, xs: seq<int>, gap: int, w: int)
    requires |xs| == 5 && |set r | r in xs| == 5
    requires Min(xs) <= gap < Min(xs) + 5 && gap !in xs
    requires w in Wheel && w !in xs
    ensures EvaluateHand(Suited(s, xs)) == Flush
  {
    var h := Suited(s, xs);
    SuitedRanks(s, xs);
    SuitedIsFlush(s, xs);
    GappedFive(h, gap, w);
    FlushCategory(h);
  }

  /** Ace, 9, 7, 5, 3 of one suit. */
  function AceNineFlush(s: Suit): seq<Card> {
    Suited(s, [14, 9, 7, 5, 3])
  }

  /** King, 9, 7, 5, 3 of one suit. */
  function KingNineFlush(s: Suit): seq<Card> {
    Suited(s, [13, 9, 7, 5, 3])
  }

  /** Ace, 10, 7, 5, 3 of one suit. */
  function AceTenFlush(s: Suit): seq<Card> {
    Suited(s, [14, 10, 7, 5, 3])
  }

  /** Five ranks in strictly descending order: the last is the least, and
      all five differ. */
  lemma DescendingFive(a: int, b: int, c: int, d: int, e: int)
    requires a > b > c > d > e
    ensures Min([a, b, c, d, e]) == e
    ensures |set r | r in [a, b, c, d, e]| == 5
  {
    var xs := [a, b, c, d, e];
    assert Min(xs) == e by {
      assert xs[4] == e;
      assert Min(xs) in xs;
    }
    FiveKinds(a, b, c, d, e);
  }

  lemma AceNineIsFlush(s: Suit)
    ensures EvaluateHand(AceNineFlush(s)) == Flush
  {
    DescendingFive(14, 9, 7, 5, 3);
    SuitedFlush(s, [14, 9, 7, 5, 3], 4, 2);
  }

  lemma KingNineIsFlush(s: Suit)
    ensures EvaluateHand(KingNineFlush(s)) == Flush
  {
    DescendingFive(13, 9, 7, 5, 3);
    SuitedFlush(s, [13, 9, 7, 5, 3], 4, 2);
  }

  lemma AceTenIsFlush(s: Suit)
    ensures EvaluateHand(AceTenFlush(s)) == Flush
  {
    DescendingFive(14, 10, 7, 5, 3);
    SuitedFlush(s, [14, 10, 7, 5, 3], 4, 2);
  }

  /** The three hands' ranks, by index. */
  lemma ThreeFlushRankMap(hands: seq<seq<Card>>, s: Suit, t: Suit, u: Suit)
    requires hands == [AceNineFlush(s), KingNineFlush(t), AceTenFlush(u)]
    ensures var m := RankMap(hands);
            && 0 in m && 1 in m && 2 in m && (forall i :: i in m ==> i < 3)
            && m[0] == [14, 9, 7, 5, 3] && m[1] == [13, 9, 7, 5, 3] && m[2] == [14, 10, 7, 5, 3]
  {
    SuitedRanks(s, [14, 9, 7, 5, 3]);
    SuitedRanks(t, [13, 9, 7, 5, 3]);
    SuitedRanks(u, [14, 10, 7, 5, 3]);
  }

  /** The three flushes as a list of hands of one category. */
  lemma ThreeFlushes(hands: seq<seq<Card>>, s: Suit, t: Suit, u: Suit)
    requires hands == [AceNineFlush(s), KingNineFlush(t), AceTenFlush(u)]
    ensures |hands| == 3 && FiveCards(hands) && SameCategory(hands)
    ensures EvaluateHand(hands[0]) == Flush
  {
    AceNineIsFlush(s);
    KingNineIsFlush(t);
    AceTenIsFlush(u);
    ThreeHands(hands[0], hands[1], hands[2]);
    forall i | 0 <= i < |hands|
      ensures EvaluateHand(hands[i]) == Flush
    {
      assert i == 0 || i == 1 || i == 2;
    }
  }

  lemma ThreeFlushTops()
    ensures Max([14, 9, 7, 5, 3]) == 14 && RemoveFirst([14, 9, 7, 5, 3], 14) == [9, 7, 5, 3]
    ensures Max([13, 9, 7, 5, 3]) == 13
    ensures Max([14, 10, 7, 5, 3]) == 14 && RemoveFirst([14, 10, 7, 5, 3], 14) == [10, 7, 5, 3]
    ensures Max([9, 7, 5, 3]) == 9 && Max([10, 7, 5, 3]) == 10
  {
    HeadOfFive([14, 9, 7, 5, 3]);
    HeadOfFive([13, 9, 7, 5, 3]);
    HeadOfFive([14, 10, 7, 5, 3]);
    HeadOfFour([9, 7, 5, 3]);
    HeadOfFour([10, 7, 5, 3]);
  }

  /** The loops on the three flushes' ranks. */
  lemma ThreeFlushLoops(m: map<nat, seq<int>>)
    requires 0 in m && 1 in m && 2 in m && forall i :: i in m ==> i < 3
    requires m[0] == [14, 9, 7, 5, 3] && m[1] == [13, 9, 7, 5, 3] && m[2] == [14, 10, 7, 5, 3]
    ensures SameWidth(m)
    ensures FlushElimAsWritten(m, 3, true) == Err(KeyError)
    ensures FlushElim(m, 3, true) == [2]
  {
    ThreeFlushTops();
    MiddleDroppedRaises(m);
    MiddleDropsFirst(m);
    HigherOfTwoWins(FlushRound(m, 3, true));
  }

  /** Flushes go to the flush branch, in both versions. */
  lemma FlushBranchOf(hands: seq<seq<Card>>, high: bool)
    requires |hands| > 0 && FiveCards(hands) && SameCategory(hands)
    requires EvaluateHand(hands[0]) == Flush
    ensures BreakTiesAsWritten(hands, high) == FlushWinnersAsWritten(hands, high)
    ensures BreakTies(hands, high) == FlushWinners(hands, high)
  {
    assert EvaluateHand(hands[0]) !in {StraightFlush, Straight, FiveOfAKind};
    assert EvaluateHand(hands[0]) in {Flush, HighCard};
  }

  /** Both flush branches run their loop on the hands' ranks. */
  lemma FlushLoopsOf(hands: seq<seq<Card>>, high: bool)
    requires |hands| > 0 && FiveCards(hands)
    ensures 0 in RankMap(hands) && SameWidth(RankMap(hands))
    ensures forall i :: i in RankMap(hands) ==> i < |hands|
    ensures FlushWinnersAsWritten(hands, high) == FlushElimAsWritten(RankMap(hands), |hands|, high)
    ensures FlushWinners(hands, high) == FlushElim(RankMap(hands), |hands|, high)
  {
    var m := RankMap(hands);
    assert SameWidth(m);
    assert 0 in m.Keys;
  }

  /** An Ace-9 flush, a King-9 flush and an Ace-10 flush, in that order, tied
      for a high bet: `break_ties` as written raises `KeyError`, and the
      version walking the survivors names the Ace-10 flush (hand 2). */
  lemma ThreeFlushExample(s: Suit, t: Suit, u: Suit)
    ensures var hands := [AceNineFlush(s), KingNineFlush(t), AceTenFlush(u)];
            && FiveCards(hands) && SameCategory(hands)
            && BreakTiesAsWritten(hands, true) == Err(KeyError)
            && BreakTies(hands, true) == [2]
  {
    var hands := [AceNineFlush(s), KingNineFlush(t), AceTenFlush(u)];
    ThreeFlushes(hands, s, t, u);
    ThreeFlushRankMap(hands, s, t, u);
    ThreeFlushLoops(RankMap(hands));
    FlushBranchOf(hands, true);
    FlushLoopsOf(hands, true);
  }

  /** Strictly ascending positions below 3 that include 0, 1 and 2. */
  lemma AllOfThree(r: seq<nat>)
    requires StrictlyAscending(r) && 0 in r && 1 in r && 2 in r
    requires forall k :: 0 <= k < |r| ==> r[k] < 3
    ensures r == [0, 1, 2]
  {
    var all: seq<nat> := [0, 1, 2];
    forall x | x in r
      ensures x in all
    {
      var k :| 0 <= k < |r| && r[k] == x;
    }
    assert StrictlyAscending(all);
    AscendingSameElements(r, all);
  }

  /** Three hands of one category all tie. */
  lemma AllThreeTied(hands: seq<seq<Card>>, high: bool)
    requires |hands| == 3 && FiveCards(hands) && SameCategory(hands)
    ensures Tied(hands, high) == [0, 1, 2]
  {
    var tied := Tied(hands, high);
    var vals := Values(hands);
    assert vals[1] == vals[0] && vals[2] == vals[0];
    assert Extreme(vals, high) == vals[0];
    assert 0 in tied && 1 in tied && 2 in tied;
    AllOfThree(tied);
  }

  /** The three flushes above, held by three players of one direction:
      `return_winners` as written raises `KeyError`. */
  lemma ThreeFlushesRaise(s: Suit, t: Suit, u: Suit)
    ensures var hands := [AceNineFlush(s), KingNineFlush(t), AceTenFlush(u)];
            && FiveCards(hands)
            && ReturnWinnersRaising(hands, true) == Err(KeyError)
  {
    var hands := [AceNineFlush(s), KingNineFlush(t), AceTenFlush(u)];
    ThreeFlushExample(s, t, u);
    ThreeTiedRaise(hands, true);
  }

  /** Three hands of one category on which `break_ties` as written raises:
      `return_winners` as written hands them all to it, and raises too. */
  lemma ThreeTiedRaise(hands: seq<seq<Card>>, high: bool)
    requires |hands| == 3 && FiveCards(hands) && SameCategory(hands)
    requires BreakTiesAsWritten(hands, high).Err?
    ensures ReturnWinnersRaising(hands, high) == Err(BreakTiesAsWritten(hands, high).error)
  {
    AllThreeTied(hands, high);
    SelectAllOfThree(hands);
  }

  /** Picking positions 0, 1 and 2 out of three gives all three. */
  lemma SelectAllOfThree<T>(xs: seq<T>)
    requires |xs| == 3
    ensures Select(xs, [0, 1, 2]) == xs
  {
    var all: seq<nat> := [0, 1, 2];
    assert forall k :: 0 <= k < 3 ==> all[k] == k;
  }
}
