/** What `return_winners` answers, in terms of the tie-break: the winners are
    the tied hands the tie-break picks, read back through the list of tied
    hands. The as-written version reads the tie-break's answer as indices
    into the full list, which agrees only while the tied hands are a prefix
    of that list. */
module WinnerLaws {
  import opened Seqs
  import opened Cards
  import opened Evaluator
  import opened TieBreak
  import opened TieBreakLaws

  /** Picking out of a strictly ascending list: `xs[k]` is picked exactly
      when `k` is among the positions. */
  lemma SelectMembership(xs: seq<nat>, idx: seq<nat>, k: nat)
    requires StrictlyAscending(xs) && k < |xs|
    requires forall q :: 0 <= q < |idx| ==> idx[q] < |xs|
    ensures xs[k] in Select(xs, idx) <==> k in idx
  {
    var r := Select(xs, idx);
    if xs[k] in r {
      var q :| 0 <= q < |r| && r[q] == xs[k];
      assert xs[idx[q]] == xs[k];
      assert idx[q] == k;
    }
    if k in idx {
      var q :| 0 <= q < |idx| && idx[q] == k;
      assert r[q] == xs[k];
    }
  }

  /** The tie-break's answer read back through the tied list: the tied
      hand at position `k` is kept exactly when the tie-break picks `k`. */
  lemma ResolveMembership(hands: seq<seq<Card>>, tied: seq<nat>, high: bool, k: nat)
    requires |tied| > 0 && StrictlyAscending(tied) && k < |tied|
    requires forall q :: 0 <= q < |tied| ==> tied[q] < |hands|
    requires FiveCards(Select(hands, tied)) && SameCategory(Select(hands, tied))
    ensures tied[k] in Resolve(hands, tied, high) <==> k in BreakTies(Select(hands, tied), high)
  {
    SelectMembership(tied, BreakTies(Select(hands, tied), high), k);
  }

  /** The tied hand at position `k` of the tied list wins exactly when it is
      the only tied hand or the tie-break picks position `k`. */
  lemma ReturnWinnersMapsBack(hands: seq<seq<Card>>, high: bool, k: nat)
    requires |hands| > 0 && FiveCards(hands)
    requires k < |Tied(hands, high)|
    ensures var tied := Tied(hands, high);
            tied[k] in ReturnWinners(hands, high) <==>
              |tied| == 1 || k in BreakTies(Select(hands, tied), high)
  {
    var tied := Tied(hands, high);
    if |tied| > 1 {
      assert ReturnWinners(hands, high) == Resolve(hands, tied, high);
      ResolveMembership(hands, tied, high, k);
    } else {
      assert ReturnWinners(hands, high) == tied;
      assert tied[k] in tied;
    }
  }

  /** A hand wins exactly when its category value is the extreme one and,
      if it shares that value with another hand, the tie-break picks it. */
  lemma ReturnWinnersIff(hands: seq<seq<Card>>, high: bool, i: nat)
    requires |hands| > 0 && FiveCards(hands) && i < |hands|
    ensures var tied := Tied(hands, high);
            i in ReturnWinners(hands, high) <==>
              Values(hands)[i] == Extreme(Values(hands), high)
              && (|tied| == 1 || exists k :: 0 <= k < |tied| && tied[k] == i
                                               && k in BreakTies(Select(hands, tied), high))
  {
    var tied := Tied(hands, high);
    if i in tied {
      var k :| 0 <= k < |tied| && tied[k] == i;
      ReturnWinnersMapsBack(hands, high, k);
      forall k' | 0 <= k' < |tied| && tied[k'] == i
        ensures k' == k
      {
      }
    }
  }

  /** A strictly ascending list holding exactly the one value `i`. */
  lemma OnlyElement(r: seq<nat>, i: nat)
    requires StrictlyAscending(r) && i in r
    requires forall x :: x in r ==> x == i
    ensures r == [i]
  {
    AscendingSameElements(r, [i]);
  }

  /** A hand alone at the extreme category value is the only tied hand. */
  lemma AloneAtExtreme(hands: seq<seq<Card>>, high: bool, i: nat)
    requires |hands| > 0 && FiveCards(hands) && i < |hands|
    requires forall j :: 0 <= j < |hands| && j != i ==>
               if high then Values(hands)[j] < Values(hands)[i] else Values(hands)[j] > Values(hands)[i]
    ensures Tied(hands, high) == [i]
  {
    UniqueExtreme(Values(hands), high, i);
    var tied := Tied(hands, high);
    assert i in tied;
    OnlyElement(tied, i);
  }

  /** A value strictly beyond all others is the extreme, and only its
      position holds it. */
  lemma UniqueExtreme(vals: seq<int>, high: bool, i: nat)
    requires i < |vals|
    requires forall j :: 0 <= j < |vals| && j != i ==> if high then vals[j] < vals[i] else vals[j] > vals[i]
    ensures vals[i] == Extreme(vals, high)
    ensures forall j :: 0 <= j < |vals| && vals[j] == Extreme(vals, high) ==> j == i
  {
    var e := Extreme(vals, high);
    var k :| 0 <= k < |vals| && vals[k] == e;
    if k != i {
      assert false;
    }
  }

  /** With a single tied hand, both versions answer it. */
  lemma SingleTied(hands: seq<seq<Card>>, high: bool)
    requires |hands| > 0 && FiveCards(hands) && |Tied(hands, high)| == 1
    ensures ReturnWinners(hands, high) == Tied(hands, high)
    ensures ReturnWinnersAsWritten(hands, high) == Tied(hands, high)
  {
  }

  /** A hand alone at the extreme category value wins outright, in both
      versions. */
  lemma UniqueExtremeWins(hands: seq<seq<Card>>, high: bool, i: nat)
    requires |hands| > 0 && FiveCards(hands) && i < |hands|
    requires forall j :: 0 <= j < |hands| && j != i ==>
               if high then Values(hands)[j] < Values(hands)[i] else Values(hands)[j] > Values(hands)[i]
    ensures ReturnWinners(hands, high) == [i]
    ensures ReturnWinnersAsWritten(hands, high) == [i]
  {
    AloneAtExtreme(hands, high, i);
    SingleTied(hands, high);
  }

  /** A single hand always wins. */
  lemma SingleHandWins(hands: seq<seq<Card>>, high: bool)
    requires |hands| == 1 && FiveCards(hands)
    ensures ReturnWinners(hands, high) == [0]
    ensures ReturnWinnersAsWritten(hands, high) == [0]
  {
    UniqueExtremeWins(hands, high, 0);
  }

  /** Out of a list of positions that holds each position at its own
      index, keeping the members of `winners` and picking at `winners` give
      the same list. */
  lemma KeepIsSelectOnPrefix(tied: seq<nat>, winners: seq<nat>)
    requires StrictlyAscending(tied) && StrictlyAscending(winners)
    requires forall k :: 0 <= k < |tied| ==> tied[k] == k
    requires forall q :: 0 <= q < |winners| ==> winners[q] < |tied|
    ensures KeepMembers(tied, winners) == Select(tied, winners)
  {
    var kept := KeepMembers(tied, winners);
    var picked := Select(tied, winners);
    SelectAscending(tied, winners);
    forall x | x in picked
      ensures x in kept
    {
      var q :| 0 <= q < |picked| && picked[q] == x;
      assert x == winners[q] && x == tied[x];
    }
    forall x | x in kept
      ensures x in picked
    {
      var q :| 0 <= q < |winners| && winners[q] == x;
      assert picked[q] == x;
    }
    AscendingSameElements(kept, picked);
  }

  /** How both versions answer when more than one hand is tied. */
  lemma AnswersOnTie(hands: seq<seq<Card>>, high: bool)
    requires |hands| > 0 && FiveCards(hands) && |Tied(hands, high)| > 1
    ensures var tied := Tied(hands, high);
            var winners := BreakTies(Select(hands, tied), high);
            && ReturnWinnersAsWritten(hands, high) == KeepMembers(tied, winners)
            && ReturnWinners(hands, high) == Select(tied, winners)
  {
  }

  /** When the tied hands are the first ones of the list, positions in the
      tied list and in the full list coincide, and the as-written version
      answers as intended. */
  lemma AsWrittenOnPrefix(hands: seq<seq<Card>>, high: bool)
    requires |hands| > 0 && FiveCards(hands)
    requires forall k :: 0 <= k < |Tied(hands, high)| ==> Tied(hands, high)[k] == k
    ensures ReturnWinnersAsWritten(hands, high) == ReturnWinners(hands, high)
  {
    var tied := Tied(hands, high);
    if |tied| > 1 {
      KeepIsSelectOnPrefix(tied, BreakTies(Select(hands, tied), high));
      AnswersOnTie(hands, high);
    }
  }

  /** With at most two hands, a tie covers all of them, so the as-written
      version answers as intended. */
  lemma AsWrittenOnTwoHands(hands: seq<seq<Card>>, high: bool)
    requires 0 < |hands| <= 2 && FiveCards(hands)
    ensures ReturnWinnersAsWritten(hands, high) == ReturnWinners(hands, high)
  {
    var tied := Tied(hands, high);
    if |tied| > 1 {
      BothOfTwoPositions(tied);
      AsWrittenOnPrefix(hands, high);
    }
  }

  /** A strictly ascending list of at least two positions below 2 is
      `[0, 1]`. */
  lemma BothOfTwoPositions(r: seq<nat>)
    requires StrictlyAscending(r) && |r| > 1
    requires forall k :: 0 <= k < |r| ==> r[k] < 2
    ensures forall k :: 0 <= k < |r| ==> r[k] == k
  {
    AscendingAtLeastPosition(r);
    assert r[0] < r[1];
  }
}
