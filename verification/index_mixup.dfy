/** `return_winners` compares the tie-break's answer, which counts positions
    in the list of tied hands, with positions in the full list of hands.
    When the tied hands are not the first ones of the list the two counts
    disagree: below, the best two hands sit at positions 0 and 2, the
    tie-break answers "the second tied hand" (position 1 of the tied list),
    and the as-written version keeps no one at all, while reading the answer
    back through the tied list names hand 2. */
module IndexMixup {
  import opened Seqs
  import opened Cards
  import opened Evaluator
  import opened TieBreak
  import opened TieBreakLaws
  import opened WinnerLaws

  // ---------------------------------------------------------------------
  // The general shape: three hands, the outer two tie on category.
  // ---------------------------------------------------------------------

  /** The positions holding the largest of three values, the middle one
      below the outer two. */
  lemma OuterPositions(vals: seq<int>, tied: seq<nat>)
    requires |vals| == 3 && vals[0] == vals[2] && vals[1] < vals[0]
    requires StrictlyAscending(tied)
    requires forall i: nat :: i in tied <==> i < 3 && vals[i] == Extreme(vals, true)
    ensures tied == [0, 2]
  {
    assert Extreme(vals, true) == vals[0] by {
      assert Extreme(vals, true) in vals;
    }
    assert 0 in tied && 2 in tied && 1 !in tied;
    AscendingSameElements(tied, [0, 2]);
  }

  /** With the middle hand below the outer two, which share the top value,
      the tied hands for a high bet are 0 and 2. */
  lemma TiedOuter(hands: seq<seq<Card>>)
    requires |hands| == 3 && FiveCards(hands)
    requires Values(hands)[0] == Values(hands)[2] && Values(hands)[1] < Values(hands)[0]
    ensures Tied(hands, true) == [0, 2]
  {
    OuterPositions(Values(hands), Tied(hands, true));
  }

  /** The tied sub-list handed to the tie-break. */
  lemma SelectOuter(hands: seq<seq<Card>>)
    requires |hands| == 3
    ensures Select(hands, [0, 2]) == [hands[0], hands[2]]
  {
  }

  /** A signature whose head is larger is strictly better for a high bet. */
  lemma LargerHeadBetter(d0: seq<int>, d1: seq<int>)
    requires |d0| == |d1| && |d0| > 0 && d0[0] < d1[0]
    ensures AtLeastAsGood(d1, d0, true) && AtLeastAsGood(d1, d1, true)
    ensures !AtLeastAsGood(d0, d1, true)
  {
    HeadDecides(d0, d1);
    AtLeastAsGoodReflexive(d1, true);
  }

  /** Of two hands, the one with the higher top rank is best by ranks for a
      high bet and the other is not. */
  lemma HigherTopBest(sub: seq<seq<Card>>)
    requires |sub| == 2 && |sub[0]| == 5 && |sub[1]| == 5
    requires Max(Ranks(sub[0])) < Max(Ranks(sub[1]))
    ensures BestByRanks(sub, 1, true) && !BestByRanks(sub, 0, true)
  {
    var d0 := Descending(Ranks(sub[0]));
    var d1 := Descending(Ranks(sub[1]));
    DescendingHead(Ranks(sub[0]));
    DescendingHead(Ranks(sub[1]));
    LargerHeadBetter(d0, d1);
    forall j | 0 <= j < |sub|
      ensures AtLeastAsGood(d1, Descending(Ranks(sub[j])), true)
    {
      assert j == 0 || j == 1;
    }
  }

  /** Of two flushes (or two high-card hands), the one with the higher top
      rank alone wins a high bet. */
  lemma HigherTopWins(sub: seq<seq<Card>>)
    requires |sub| == 2 && FiveCards(sub) && SameCategory(sub)
    requires EvaluateHand(sub[0]) in {Flush, HighCard}
    requires Max(Ranks(sub[0])) < Max(Ranks(sub[1]))
    ensures BreakTies(sub, true) == [1]
  {
    HigherTopBest(sub);
    BreakTiesFlush(sub, true);
    SecondOnly(BreakTies(sub, true));
  }

  /** Indices below 2, holding 1 and not 0. */
  lemma SecondOnly(r: seq<nat>)
    requires StrictlyAscending(r) && (forall i :: i in r ==> i < 2)
    requires 1 in r && 0 !in r
    ensures r == [1]
  {
    OnlyElement(r, 1);
  }

  /** No position is both tied and picked. */
  lemma KeepNothing()
    ensures KeepMembers([0, 2], [1]) == []
  {
  }

  /** Once hands 0 and 2 are tied and the tie-break picks the second of
      them, the as-written version keeps no one and the intended one keeps
      hand 2. */
  lemma SecondTiedPicked(hands: seq<seq<Card>>)
    requires |hands| == 3 && FiveCards(hands)
    requires Tied(hands, true) == [0, 2]
    requires BreakTies(Select(hands, [0, 2]), true) == [1]
    ensures ReturnWinnersAsWritten(hands, true) == []
    ensures ReturnWinners(hands, true) == [2]
  {
    KeepNothing();
    AnswersOnTie(hands, true);
  }

  /** Two hands of one category as a list of two. */
  lemma PairOfHands(h0: seq<Card>, h1: seq<Card>)
    requires |h0| == 5 && |h1| == 5 && EvaluateHand(h0) == EvaluateHand(h1)
    ensures FiveCards([h0, h1]) && SameCategory([h0, h1])
  {
    var hands := [h0, h1];
    forall i | 0 <= i < |hands|
      ensures |hands[i]| == 5
    {
      assert i == 0 || i == 1;
    }
    forall i | 0 <= i < |hands|
      ensures EvaluateHand(hands[i]) == EvaluateHand(hands[0])
    {
      assert i == 0 || i == 1;
    }
  }

  /** Whenever the outer two of three hands share the best category, a
      flush or a high card, and hand 2 has the higher top rank, the
      as-written `return_winners` names no winner for a high bet, and the
      tie-break's answer read back through the tied list names hand 2. */
  lemma AsWrittenDropsWinner(hands: seq<seq<Card>>)
    requires |hands| == 3 && FiveCards(hands)
    requires EvaluateHand(hands[0]) == EvaluateHand(hands[2])
    requires EvaluateHand(hands[0]) in {Flush, HighCard}
    requires Value(EvaluateHand(hands[1])) < Value(EvaluateHand(hands[0]))
    requires Max(Ranks(hands[0])) < Max(Ranks(hands[2]))
    ensures Tied(hands, true) == [0, 2]
    ensures ReturnWinnersAsWritten(hands, true) == []
    ensures ReturnWinners(hands, true) == [2]
  {
    TiedOuter(hands);
    SelectOuter(hands);
    var sub := [hands[0], hands[2]];
    PairOfHands(hands[0], hands[2]);
    assert sub[0] == hands[0] && sub[1] == hands[2];
    HigherTopWins(sub);
    SecondTiedPicked(hands);
  }

  // ---------------------------------------------------------------------
  // A concrete deal of that shape, for any choice of suits.
  // ---------------------------------------------------------------------

  /** Cards of one suit with the given ranks, none of them wild. */
  function Suited(s: Suit, ranks: seq<int>): (h: seq<Card>)
    ensures |h| == |ranks|
    ensures forall i :: 0 <= i < |ranks| ==> h[i] == Card(s, ranks[i], false)
  {
    seq(|ranks|, i requires 0 <= i < |ranks| => Card(s, ranks[i], false))
  }

  /** 3, 5, 7, 9, King of one suit. */
  function KingFlush(s: Suit): seq<Card> {
    Suited(s, [3, 5, 7, 9, 13])
  }

  /** 3, 5, 7, 9, Ace of one suit. */
  function AceFlush(s: Suit): seq<Card> {
    Suited(s, [3, 5, 7, 9, 14])
  }

  /** A 4 of one suit with 6, 8, 10, Queen of another. */
  function QueenHigh(u: Suit, v: Suit): seq<Card> {
    [Card(u, 4, false)] + Suited(v, [6, 8, 10, 12])
  }

  lemma SuitedRanks(s: Suit, ranks: seq<int>)
    ensures Ranks(Suited(s, ranks)) == ranks
  {
    var r := Ranks(Suited(s, ranks));
    assert forall i :: 0 <= i < |ranks| ==> r[i] == ranks[i];
  }

  lemma SuitedIsFlush(s: Suit, ranks: seq<int>)
    requires |ranks| > 0
    ensures IsFlush(Suited(s, ranks))
  {
    IsFlushIffOneSuit(Suited(s, ranks));
  }

  /** A rank gap inside the run from the least rank, and a wheel rank that is
      missing, rule out both kinds of straight. */
  lemma GapsRuleOutRuns(xs: seq<int>, gap: int, w: int)
    requires |xs| > 0
    requires Min(xs) <= gap < Min(xs) + |xs| && gap !in xs
    requires w in Wheel && w !in xs
    ensures multiset(xs) != multiset(Run(Min(xs), |xs|))
    ensures multiset(xs) != multiset(Wheel)
  {
    RunMultiplicity(Min(xs), |xs|, gap);
    assert multiset(xs)[gap] == 0;
    assert multiset(Wheel)[w] > 0;
  }

  lemma NotStraight(h: seq<Card>)
    requires |h| > 0
    requires multiset(Ranks(h)) != multiset(Run(Min(Ranks(h)), |h|))
    requires multiset(Ranks(h)) != multiset(Wheel)
    ensures !IsStraight(h)
  {
    IsStraightIffRun(h);
  }

  /** A hand whose ranks have a gap after the least one and miss a wheel
      rank is no straight. */
  lemma GappedIsNoStraight(h: seq<Card>, xs: seq<int>, gap: int, w: int)
    requires |h| > 0 && Ranks(h) == xs
    requires Min(xs) <= gap < Min(xs) + |xs| && gap !in xs
    requires w in Wheel && w !in xs
    ensures !IsStraight(h)
  {
    GapsRuleOutRuns(xs, gap, w);
    NotStraight(h);
  }

  lemma FlushCategory(h: seq<Card>)
    requires |h| == 5 && IsFlush(h) && !IsStraight(h) && Kinds(h) >= 3
    ensures EvaluateHand(h) == Flush
  {
    EvaluateHandShape(h);
  }

  lemma HighCardCategory(h: seq<Card>)
    requires |h| == 5 && !IsFlush(h) && !IsStraight(h) && Kinds(h) == 5
    ensures EvaluateHand(h) == HighCard
  {
    EvaluateHandShape(h);
  }

  /** No straight, stated on the hand's own ranks. */
  lemma GappedFive(h: seq<Card>, gap: int, w: int)
    requires |h| == 5
    requires Min(Ranks(h)) <= gap < Min(Ranks(h)) + 5 && gap !in Ranks(h)
    requires w in Wheel && w !in Ranks(h)
    ensures !IsStraight(h)
  {
    GappedIsNoStraight(h, Ranks(h), gap, w);
  }

  /** Five ascending ranks: the first is the least, the last the largest,
      and all five differ. */
  lemma AscendingFiveEnds(a: int, b: int, c: int, d: int, e: int)
    requires a < b < c < d < e
    ensures Min([a, b, c, d, e]) == a && Max([a, b, c, d, e]) == e
  {
    var xs := [a, b, c, d, e];
    forall x | x in xs
      ensures a <= x <= e
    {
    }
    assert Min(xs) in xs && Max(xs) in xs;
    assert Min(xs) <= xs[0] && xs[4] <= Max(xs);
  }

  lemma MissingFromFive(x: int, a: int, b: int, c: int, d: int, e: int)
    requires x != a && x != b && x != c && x != d && x != e
    ensures x !in [a, b, c, d, e]
  {
  }

  lemma KingFlushRankList(s: Suit)
    ensures |KingFlush(s)| == 5 && Ranks(KingFlush(s)) == [3, 5, 7, 9, 13]
  {
    assert KingFlush(s) == Suited(s, [3, 5, 7, 9, 13]);
    SuitedRanks(s, [3, 5, 7, 9, 13]);
  }

  lemma KingFlushRanks(s: Suit)
    ensures |KingFlush(s)| == 5 && Min(Ranks(KingFlush(s))) == 3
    ensures 4 !in Ranks(KingFlush(s)) && 2 !in Ranks(KingFlush(s))
  {
    KingFlushRankList(s);
    MissingFromFive(4, 3, 5, 7, 9, 13);
    MissingFromFive(2, 3, 5, 7, 9, 13);
    AscendingFiveEnds(3, 5, 7, 9, 13);
  }

  lemma KingFlushTop(s: Suit)
    ensures Max(Ranks(KingFlush(s))) == 13
  {
    KingFlushRankList(s);
    AscendingFiveEnds(3, 5, 7, 9, 13);
  }

  lemma KingFlushKinds(s: Suit)
    ensures Kinds(KingFlush(s)) == 5
  {
    KingFlushRankList(s);
    FiveKinds(3, 5, 7, 9, 13);
  }

  lemma AceFlushRankList(s: Suit)
    ensures |AceFlush(s)| == 5 && Ranks(AceFlush(s)) == [3, 5, 7, 9, 14]
  {
    assert AceFlush(s) == Suited(s, [3, 5, 7, 9, 14]);
    SuitedRanks(s, [3, 5, 7, 9, 14]);
  }

  lemma AceFlushRanks(s: Suit)
    ensures |AceFlush(s)| == 5 && Min(Ranks(AceFlush(s))) == 3
    ensures 4 !in Ranks(AceFlush(s)) && 2 !in Ranks(AceFlush(s))
  {
    AceFlushRankList(s);
    MissingFromFive(4, 3, 5, 7, 9, 14);
    MissingFromFive(2, 3, 5, 7, 9, 14);
    AscendingFiveEnds(3, 5, 7, 9, 14);
  }

  lemma AceFlushTop(s: Suit)
    ensures Max(Ranks(AceFlush(s))) == 14
  {
    AceFlushRankList(s);
    AscendingFiveEnds(3, 5, 7, 9, 14);
  }

  lemma AceFlushKinds(s: Suit)
    ensures Kinds(AceFlush(s)) == 5
  {
    AceFlushRankList(s);
    FiveKinds(3, 5, 7, 9, 14);
  }

  lemma QueenHighRankList(u: Suit, v: Suit)
    ensures Ranks(QueenHigh(u, v)) == [4, 6, 8, 10, 12]
  {
    var h := QueenHigh(u, v);
    SuitedRanks(v, [6, 8, 10, 12]);
    assert h[1..] == Suited(v, [6, 8, 10, 12]);
    assert Ranks(h) == [4] + Ranks(h[1..]);
  }

  lemma QueenHighRanks(u: Suit, v: Suit)
    ensures |QueenHigh(u, v)| == 5 && 5 !in Ranks(QueenHigh(u, v)) && 2 !in Ranks(QueenHigh(u, v))
  {
    QueenHighRankList(u, v);
  }

  lemma QueenHighLow(u: Suit, v: Suit)
    ensures Min(Ranks(QueenHigh(u, v))) == 4
  {
    QueenHighRankList(u, v);
    AscendingFiveEnds(4, 6, 8, 10, 12);
  }

  lemma QueenHighKinds(u: Suit, v: Suit)
    ensures Kinds(QueenHigh(u, v)) == 5
  {
    QueenHighRankList(u, v);
    FiveKinds(4, 6, 8, 10, 12);
  }

  lemma QueenHighNotFlush(u: Suit, v: Suit)
    requires u != v
    ensures !IsFlush(QueenHigh(u, v))
  {
    var h := QueenHigh(u, v);
    IsFlushIffOneSuit(h);
    assert h[1].suit != h[0].suit;
  }

  lemma KingFlushIsFlush(s: Suit)
    ensures EvaluateHand(KingFlush(s)) == Flush && Max(Ranks(KingFlush(s))) == 13
  {
    KingFlushRanks(s);
    KingFlushTop(s);
    KingFlushKinds(s);
    SuitedIsFlush(s, [3, 5, 7, 9, 13]);
    GappedFive(KingFlush(s), 4, 2);
    FlushCategory(KingFlush(s));
  }

  lemma AceFlushIsFlush(s: Suit)
    ensures EvaluateHand(AceFlush(s)) == Flush && Max(Ranks(AceFlush(s))) == 14
  {
    AceFlushRanks(s);
    AceFlushTop(s);
    AceFlushKinds(s);
    SuitedIsFlush(s, [3, 5, 7, 9, 14]);
    GappedFive(AceFlush(s), 4, 2);
    FlushCategory(AceFlush(s));
  }

  lemma QueenHighIsHighCard(u: Suit, v: Suit)
    requires u != v
    ensures EvaluateHand(QueenHigh(u, v)) == HighCard
  {
    QueenHighRanks(u, v);
    QueenHighLow(u, v);
    QueenHighKinds(u, v);
    QueenHighNotFlush(u, v);
    GappedFive(QueenHigh(u, v), 5, 2);
    HighCardCategory(QueenHigh(u, v));
  }

  lemma ThreeHands(h0: seq<Card>, h1: seq<Card>, h2: seq<Card>)
    requires |h0| == 5 && |h1| == 5 && |h2| == 5
    ensures var hands := [h0, h1, h2];
            |hands| == 3 && FiveCards(hands) && hands[0] == h0 && hands[1] == h1 && hands[2] == h2
  {
    var hands := [h0, h1, h2];
    forall i | 0 <= i < |hands|
      ensures |hands[i]| == 5
    {
      assert i == 0 || i == 1 || i == 2;
    }
  }

  /** Three hands of the shape above, written out. */
  lemma MixupShape(h0: seq<Card>, h1: seq<Card>, h2: seq<Card>)
    requires |h0| == 5 && |h1| == 5 && |h2| == 5
    requires EvaluateHand(h0) == Flush && EvaluateHand(h2) == Flush && EvaluateHand(h1) == HighCard
    requires Max(Ranks(h0)) < Max(Ranks(h2))
    ensures FiveCards([h0, h1, h2])
    ensures Tied([h0, h1, h2], true) == [0, 2]
    ensures ReturnWinnersAsWritten([h0, h1, h2], true) == []
    ensures ReturnWinners([h0, h1, h2], true) == [2]
  {
    ThreeHands(h0, h1, h2);
    AsWrittenDropsWinner([h0, h1, h2]);
  }

  /** A King-high flush, a Queen-high hand and an Ace-high flush, in that
      order, with a high bet: the as-written version names no winner; the
      Ace-high flush (hand 2) is the intended winner. */
  lemma MixupExample(s: Suit, t: Suit, u: Suit, v: Suit)
    requires u != v
    ensures FiveCards([KingFlush(s), QueenHigh(u, v), AceFlush(t)])
    ensures Tied([KingFlush(s), QueenHigh(u, v), AceFlush(t)], true) == [0, 2]
    ensures ReturnWinnersAsWritten([KingFlush(s), QueenHigh(u, v), AceFlush(t)], true) == []
    ensures ReturnWinners([KingFlush(s), QueenHigh(u, v), AceFlush(t)], true) == [2]
  {
    KingFlushIsFlush(s);
    AceFlushIsFlush(t);
    QueenHighIsHighCard(u, v);
    MixupShape(KingFlush(s), QueenHigh(u, v), AceFlush(t));
  }
}
