/** The hand classifier of the poker evaluator: ten categories with their
    comparison values, the flush and straight tests, and the fixed-order
    classification of a five-card hand. */
module Evaluator {
  import opened Seqs
  import opened Cards
  import opened Counters

  datatype Category =
    | StraightFlush
    | FiveOfAKind
    | FourOfAKind
    | FullHouse
    | Flush
    | Straight
    | ThreeOfAKind
    | TwoPair
    | OnePair
    | HighCard

  /** The comparison value of each category (`hand_rankings`). */
  function Value(c: Category): (v: int)
    ensures 1 <= v <= 10
  {
    match c
    case StraightFlush => 10
    case FiveOfAKind => 9
    case FourOfAKind => 8
    case FullHouse => 7
    case Flush => 6
    case Straight => 5
    case ThreeOfAKind => 4
    case TwoPair => 3
    case OnePair => 2
    case HighCard => 1
  }

  /** Categories are told apart by their values, which follow the precedence
      straight flush > five of a kind > ... > high card. */
  lemma ValueOrder(a: Category, b: Category)
    ensures Value(a) == Value(b) ==> a == b
    ensures Value(StraightFlush) > Value(FiveOfAKind) > Value(FourOfAKind) > Value(FullHouse)
            > Value(Flush) > Value(Straight) > Value(ThreeOfAKind) > Value(TwoPair)
            > Value(OnePair) > Value(HighCard)
  {
  }

  function Ranks(hand: seq<Card>): (r: seq<int>)
    ensures |r| == |hand|
    ensures forall i :: 0 <= i < |hand| ==> r[i] == hand[i].rank
  {
    if |hand| == 0 then [] else [hand[0].rank] + Ranks(hand[1..])
  }

  function SuitSet(hand: seq<Card>): set<Suit> {
    set c | c in hand :: c.suit
  }

  /** `is_flush`: the hand shows exactly one suit. */
  predicate IsFlush(hand: seq<Card>) {
    |SuitSet(hand)| == 1
  }

  /** A flush is a non-empty hand whose cards all share the first card's suit. */
  lemma IsFlushIffOneSuit(hand: seq<Card>)
    ensures IsFlush(hand) <==> |hand| > 0 && forall i :: 0 <= i < |hand| ==> hand[i].suit == hand[0].suit
  {
    var s := SuitSet(hand);
    if |hand| > 0 && forall i :: 0 <= i < |hand| ==> hand[i].suit == hand[0].suit {
      assert s == {hand[0].suit};
    }
    if IsFlush(hand) {
      var x :| x in s;
      assert |s - {x}| == 0;
      assert s == {x};
      forall i | 0 <= i < |hand|
        ensures hand[i].suit == x
      {
        assert hand[i] in hand;
        assert hand[i].suit in s;
      }
    }
  }

  /** The ranks of the wheel A-2-3-4-5 in ascending order. */
  const Wheel: seq<int> := [2, 3, 4, 5, 14]

  /** Adjacent values differ by exactly one. */
  predicate Consecutive(s: seq<int>) {
    |s| <= 1 || (s[1] - s[0] == 1 && Consecutive(s[1..]))
  }

  /** `is_straight`: the sorted ranks are the wheel or climb one step at a time. */
  predicate IsStraight(hand: seq<Card>) {
    var sorted := Sort(Ranks(hand));
    sorted == Wheel || Consecutive(sorted)
  }

  predicate IsStraightFlush(hand: seq<Card>) {
    IsStraight(hand) && IsFlush(hand)
  }

  /** `lo, lo + 1, ..., lo + n - 1`. */
  function Run(lo: int, n: nat): (r: seq<int>)
    ensures |r| == n
    ensures forall i :: 0 <= i < n ==> r[i] == lo + i
    decreases n
  {
    if n == 0 then [] else [lo] + Run(lo + 1, n - 1)
  }

  lemma {:induction false} RunMultiplicity(lo: int, n: nat, x: int)
    ensures multiset(Run(lo, n))[x] == if lo <= x < lo + n then 1 else 0
    decreases n
  {
    if n > 0 {
      RunMultiplicity(lo + 1, n - 1, x);
      assert Run(lo, n) == [lo] + Run(lo + 1, n - 1);
    }
  }

  lemma {:induction false} ConsecutiveIsRun(s: seq<int>)
    requires |s| > 0
    ensures Consecutive(s) <==> s == Run(s[0], |s|)
  {
    if |s| > 1 {
      ConsecutiveIsRun(s[1..]);
      assert Run(s[0], |s|) == [s[0]] + Run(s[0] + 1, |s| - 1);
      assert s == [s[0]] + s[1..];
      if s == Run(s[0], |s|) {
        assert s[1] == s[0] + 1;
      }
    }
  }

  /** The least rank of a hand is the first of its sorted ranks. */
  lemma SortedHeadIsMin(xs: seq<int>)
    requires |xs| > 0
    ensures Sort(xs)[0] == Min(xs)
  {
    var s := Sort(xs);
    assert Min(xs) in multiset(s) by { assert Min(xs) in multiset(xs); }
    AscendingHeadIsLeast(s, Min(xs));
    assert s[0] in multiset(xs) by { assert s[0] in s; }
    assert s[0] in xs;
  }

  lemma SortedRunIsRun(xs: seq<int>)
    requires |xs| > 0
    ensures Consecutive(Sort(xs)) ==> multiset(xs) == multiset(Run(Min(xs), |xs|))
  {
    var s := Sort(xs);
    SortedHeadIsMin(xs);
    ConsecutiveIsRun(s);
    var run := Run(Min(xs), |xs|);
    assert run == Run(s[0], |s|);
    if Consecutive(s) {
      assert s == run;
      assert multiset(s) == multiset(run);
    }
  }

  lemma RunSortsToRun(xs: seq<int>)
    requires |xs| > 0
    ensures multiset(xs) == multiset(Run(Min(xs), |xs|)) ==> Consecutive(Sort(xs))
  {
    var s := Sort(xs);
    var run := Run(Min(xs), |xs|);
    if multiset(xs) == multiset(run) {
      assert Ascending(run);
      SortedUnique(s, run);
      ConsecutiveIsRun(s);
    }
  }

  lemma SortedIsWheelIff(xs: seq<int>)
    ensures Sort(xs) == Wheel <==> multiset(xs) == multiset(Wheel)
  {
    assert Ascending(Wheel);
    if multiset(xs) == multiset(Wheel) {
      SortedUnique(Sort(xs), Wheel);
    }
  }

  /** An independent reading of `is_straight`: the ranks are exactly the
      wheel, or exactly the run of consecutive ranks starting at the least one. */
  lemma IsStraightIffRun(hand: seq<Card>)
    requires |hand| > 0
    ensures IsStraight(hand) <==>
              multiset(Ranks(hand)) == multiset(Wheel)
              || multiset(Ranks(hand)) == multiset(Run(Min(Ranks(hand)), |hand|))
  {
    var xs := Ranks(hand);
    SortedRunIsRun(xs);
    RunSortsToRun(xs);
    SortedIsWheelIff(xs);
  }

  /** The wheel holds each of its ranks once. */
  lemma WheelMultiplicity(x: int)
    ensures multiset(Wheel)[x] <= 1
  {
    assert Wheel == [2] + Run(3, 3) + [14];
    RunMultiplicity(3, 3, x);
  }

  /** A straight never repeats a rank. */
  lemma StraightHasNoPair(hand: seq<Card>)
    requires |hand| > 0 && IsStraight(hand)
    ensures forall x :: Multiplicity(hand, x) <= 1
  {
    var xs := Ranks(hand);
    IsStraightIffRun(hand);
    forall x
      ensures multiset(xs)[x] <= 1
    {
      if multiset(xs) == multiset(Wheel) {
        WheelMultiplicity(x);
      } else {
        RunMultiplicity(Min(xs), |hand|, x);
      }
    }
  }

  /** How many cards of the hand carry rank `r`. */
  function Multiplicity(hand: seq<Card>, r: int): nat {
    multiset(Ranks(hand))[r]
  }

  /** The number of different ranks in the hand. */
  function Kinds(hand: seq<Card>): nat {
    |set r | r in Ranks(hand)|
  }

  /** `evaluate_hand` on a five-card hand: the first test that matches, in
      the order straight flush, five, four, full house, flush, straight,
      three, two pairs, one pair, high card. */
  function EvaluateHand(hand: seq<Card>): Category
    requires |hand| == 5
  {
    if IsStraightFlush(hand) then StraightFlush
    else
      var counts := CounterOf(Ranks(hand));
      if HasCount(counts, 5) then FiveOfAKind
      else if HasCount(counts, 4) then FourOfAKind
      else if HasCount(counts, 3) && HasCount(counts, 2) then FullHouse
      else if IsFlush(hand) then Flush
      else if IsStraight(hand) then Straight
      else if HasCount(counts, 3) then ThreeOfAKind
      else if Tally(counts, 2) == 2 then TwoPair
      else if HasCount(counts, 2) then OnePair
      else HighCard
  }

  /** The multiplicity of each card's rank, card by card. */
  function Multiplicities(hand: seq<Card>): (m: seq<int>)
    ensures |m| == |hand|
    ensures forall i :: 0 <= i < |hand| ==> m[i] == Multiplicity(hand, hand[i].rank)
  {
    seq(|hand|, i requires 0 <= i < |hand| => Multiplicity(hand, hand[i].rank))
  }

  /** The largest number of cards sharing one rank. */
  function Largest(hand: seq<Card>): int
    requires |hand| > 0
  {
    Max(Multiplicities(hand))
  }

  /** The counter of a hand's ranks has one entry per different rank. */
  lemma CounterSizeIsKinds(hand: seq<Card>)
    ensures |CounterOf(Ranks(hand))| == Kinds(hand)
  {
    KeySetSize(CounterOf(Ranks(hand)));
  }

  /** The largest count of a hand's counter is the largest multiplicity. */
  lemma MaxCountIsLargest(hand: seq<Card>)
    requires |hand| > 0
    ensures MaxCount(CounterOf(Ranks(hand))) == Largest(hand)
  {
    var xs := Ranks(hand);
    var c := CounterOf(xs);
    var ms := Multiplicities(hand);
    var m := MostCommonAt(c);
    LookupValid(c, m);
    assert c[m].key in KeySet(c);
    assert c[m].key in xs;
    var i :| 0 <= i < |xs| && xs[i] == c[m].key;
    assert ms[i] == MaxCount(c);
    forall j | 0 <= j < |hand|
      ensures ms[j] <= MaxCount(c)
    {
      assert xs[j] in KeySet(c);
      var k :| 0 <= k < |c| && c[k].key == xs[j];
      LookupValid(c, k);
    }
    assert Max(ms) >= ms[i];
    assert Max(ms) in ms;
  }

  /** A hand without a repeated rank counts every rank once. */
  lemma NoPairCountsOnce(hand: seq<Card>)
    requires forall x :: Multiplicity(hand, x) <= 1
    ensures forall k :: 0 <= k < |CounterOf(Ranks(hand))| ==> CounterOf(Ranks(hand))[k].count == 1
  {
    var c := CounterOf(Ranks(hand));
    forall k | 0 <= k < |c|
      ensures c[k].count == 1
    {
      LookupValid(c, k);
      assert Multiplicity(hand, c[k].key) <= 1;
    }
  }

  /** An independent description of the classification of a five-card hand by
      its shape: how many different ranks it has, how many cards the most
      common rank has, and whether it is a flush and/or a straight. */
  lemma EvaluateHandShape(hand: seq<Card>)
    requires |hand| == 5
    ensures EvaluateHand(hand) == StraightFlush <==> IsStraight(hand) && IsFlush(hand)
    ensures EvaluateHand(hand) == FiveOfAKind <==> Kinds(hand) == 1
    ensures EvaluateHand(hand) == FourOfAKind <==> Kinds(hand) == 2 && Largest(hand) == 4
    ensures EvaluateHand(hand) == FullHouse <==> Kinds(hand) == 2 && Largest(hand) == 3
    ensures EvaluateHand(hand) == Flush <==> IsFlush(hand) && !IsStraight(hand) && Kinds(hand) >= 3
    ensures EvaluateHand(hand) == Straight <==> IsStraight(hand) && !IsFlush(hand)
    ensures EvaluateHand(hand) == ThreeOfAKind <==> !IsFlush(hand) && Kinds(hand) == 3 && Largest(hand) == 3
    ensures EvaluateHand(hand) == TwoPair <==> !IsFlush(hand) && Kinds(hand) == 3 && Largest(hand) == 2
    ensures EvaluateHand(hand) == OnePair <==> !IsFlush(hand) && Kinds(hand) == 4
    ensures EvaluateHand(hand) == HighCard <==> !IsFlush(hand) && !IsStraight(hand) && Kinds(hand) == 5
  {
    var c := CounterOf(Ranks(hand));
    CountShape(c);
    CounterSizeIsKinds(hand);
    MaxCountIsLargest(hand);
    if IsStraight(hand) {
      StraightHasNoPair(hand);
      NoPairCountsOnce(hand);
    }
  }
}
