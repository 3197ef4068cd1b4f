/** What the tie-break loops compute, stated independently of the loops:
    each loop keeps exactly the hands whose "signature" is lexicographically
    best. For flushes and high cards the signature is the hand's ranks from
    highest to lowest; for paired hands it is the sequence of ranks the
    loop reads off the counter, most common first. */
module TieBreakLaws {
  import opened Seqs
  import opened Cards
  import opened Counters
  import opened Evaluator
  import opened TieBreak

  /** The ranks the paired loop reads off a counter, in the order it reads
      them: the most common first, then the most common of what is left. */
  function KeySeq(c: Counter): (r: seq<int>)
    requires Valid(c)
    ensures |r| == |c|
    decreases |c|
  {
    if |c| == 0 then []
    else
      var k := MostCommon(c);
      assert k in KeySet(c);
      [k] + KeySeq(Pop(c, k))
  }

  /** A map with at most one key has no two different keys. */
  lemma OnlyKey<T>(m: map<nat, T>, i: nat, j: nat)
    requires |m| <= 1 && i in m && j in m
    ensures i == j
  {
    var both := {i, j};
    assert m.Keys == both + (m.Keys - both);
    assert |m.Keys| == |m|;
    assert i != j ==> |both| == 2;
  }

  /** A strictly better first element decides the comparison. */
  lemma HeadDecides(a: seq<int>, b: seq<int>)
    requires |a| == |b| && |a| > 0 && a[0] < b[0]
    ensures LexLe(a, b) && !LexLe(b, a)
  {
  }

  /** One elimination round, seen on signatures: a survivor whose head is
      not the best is not on top, and for one whose head is the best, being
      on top is decided by the tails of the survivors with that head. */
  lemma {:induction false} RoundOnSignatures(S: map<nat, seq<int>>, T: map<nat, seq<int>>,
                                             best: int, high: bool, i: nat)
    requires SameWidth(S) && i in S
    requires forall j :: j in S ==> |S[j]| > 0
    requires exists j :: j in S && S[j][0] == best
    requires high ==> forall j :: j in S ==> S[j][0] <= best
    requires !high ==> forall j :: j in S ==> best <= S[j][0]
    requires forall j :: j in T <==> j in S && S[j][0] == best
    requires forall j :: j in T ==> T[j] == S[j][1..]
    ensures S[i][0] != best ==> !Top(S, i, high)
    ensures S[i][0] == best ==> (Top(S, i, high) <==> Top(T, i, high))
  {
    var k :| k in S && S[k][0] == best;
    if S[i][0] != best {
      if high {
        HeadDecides(S[i], S[k]);
      } else {
        HeadDecides(S[k], S[i]);
      }
      assert !AtLeastAsGood(S[i], S[k], high);
    } else {
      forall j | j in S
        ensures AtLeastAsGood(S[i], S[j], high) <==> (j in T ==> AtLeastAsGood(T[i], T[j], high))
      {
        if j !in T {
          if high {
            HeadDecides(S[j], S[i]);
          } else {
            HeadDecides(S[i], S[j]);
          }
        }
      }
      if Top(T, i, high) {
        forall j | j in S
          ensures AtLeastAsGood(S[i], S[j], high)
        {
        }
      }
    }
  }

  /** With one survivor, or with nothing left to compare, every survivor is
      on top. */
  lemma SettledAllTop(S: map<nat, seq<int>>, i: nat, high: bool)
    requires SameWidth(S) && i in S
    requires |S| <= 1 || |S[i]| == 0
    ensures Top(S, i, high)
  {
    forall j | j in S
      ensures AtLeastAsGood(S[i], S[j], high)
    {
      if |S[i]| == 0 {
        assert |S[j]| == 0;
      } else {
        OnlyKey(S, i, j);
        LexLeReflexive(S[i]);
      }
    }
  }

  /** The signatures of the flush loop. */
  function FlushSigs(m: map<nat, seq<int>>): (S: map<nat, seq<int>>)
    ensures forall i :: i in S <==> i in m
    ensures forall i :: i in m ==> S[i] == Descending(m[i])
    ensures SameWidth(m) ==> SameWidth(S)
  {
    map i | i in m :: Descending(m[i])
  }

  /** When the loop stops, every survivor is on top of any signatures of
      matching widths. */
  lemma SettledTop<T>(m: map<nat, seq<T>>, n: nat, S: map<nat, seq<int>>, i: nat, high: bool)
    requires |m| > 0 && forall j :: j in m ==> j < n
    requires SameWidth(m) && Settled(m, n) && i in m
    requires forall j :: j in S <==> j in m
    requires forall j :: j in m ==> |S[j]| == |m[j]|
    ensures Top(S, i, high)
  {
    KeysBelowNonEmpty(m, n);
    var k0 := KeysBelow(m, n)[0];
    assert m.Keys == S.Keys;
    assert |S| <= 1 || |S[i]| == 0 by {
      if |m| > 1 {
        assert |m[i]| == |m[k0]|;
      }
    }
    SettledAllTop(S, i, high);
  }

  /** The flush signatures start with each hand's highest rank. */
  lemma FlushSigsHeads(m: map<nat, seq<int>>, S: map<nat, seq<int>>)
    requires forall j :: j in m ==> |m[j]| > 0
    requires S == FlushSigs(m)
    ensures forall j :: j in S ==> |S[j]| > 0 && S[j][0] == Max(m[j])
  {
    forall j | j in S
      ensures |S[j]| > 0 && S[j][0] == Max(m[j])
    {
      DescendingHead(m[j]);
    }
  }

  /** A flush step on signatures: the survivors are the hands whose
      signature starts with the best rank, each keeping the tail of it. */
  lemma FlushStepTails(m: map<nat, seq<int>>, best: int, S: map<nat, seq<int>>, T: map<nat, seq<int>>)
    requires forall j :: j in m ==> |m[j]| > 0
    requires S == FlushSigs(m) && T == FlushSigs(FlushStep(m, best))
    requires forall j :: j in S ==> |S[j]| > 0 && S[j][0] == Max(m[j])
    ensures forall j :: j in T <==> j in S && S[j][0] == best
    ensures forall j :: j in T ==> T[j] == S[j][1..]
  {
    forall j | j in T
      ensures T[j] == S[j][1..]
    {
      DescendingHead(m[j]);
    }
  }

  /** A flush step toward a best highest rank, on signatures: a hand that
      misses that rank is not on top, and for one that reaches it, being on
      top is decided by what the survivors have left. */
  lemma FlushStepTop(m: map<nat, seq<int>>, best: int, high: bool, i: nat)
    requires SameWidth(m) && i in m
    requires forall j :: j in m ==> |m[j]| > 0
    requires exists j :: j in m && Max(m[j]) == best
    requires high ==> forall j :: j in m ==> Max(m[j]) <= best
    requires !high ==> forall j :: j in m ==> best <= Max(m[j])
    ensures i !in FlushStep(m, best) ==> !Top(FlushSigs(m), i, high)
    ensures i in FlushStep(m, best) ==>
              (Top(FlushSigs(m), i, high) <==> Top(FlushSigs(FlushStep(m, best)), i, high))
  {
    var S, T := FlushSigs(m), FlushSigs(FlushStep(m, best));
    FlushSigsHeads(m, S);
    FlushStepTails(m, best, S, T);
    var k :| k in m && Max(m[k]) == best;
    assert k in S && S[k][0] == best;
    RoundOnSignatures(S, T, best, high, i);
  }

  /** One flush round keeps exactly the hands that can still be on top, and
      does not change which of them are. */
  lemma FlushRoundTop(m: map<nat, seq<int>>, n: nat, high: bool, i: nat)
    requires |m| > 0 && forall j :: j in m ==> j < n
    requires SameWidth(m) && !Settled(m, n) && i in m
    ensures i !in FlushRound(m, n, high) ==> !Top(FlushSigs(m), i, high)
    ensures i in FlushRound(m, n, high) ==>
              (Top(FlushSigs(m), i, high) <==> Top(FlushSigs(FlushRound(m, n, high)), i, high))
  {
    Unsettled(m, n);
    var best := FlushBest(m, n, high);
    var next := FlushRound(m, n, high);
    assert next == FlushStep(m, best);
    assert FlushSigs(next) == FlushSigs(FlushStep(m, best));
    FlushStepTop(m, best, high, i);
  }

  /** When the flush loop stops, every survivor is kept and on top. */
  lemma FlushSettledTop(m: map<nat, seq<int>>, n: nat, high: bool, i: nat)
    requires |m| > 0 && forall j :: j in m ==> j < n
    requires SameWidth(m) && Settled(m, n) && i in m
    ensures i in FlushElim(m, n, high) && Top(FlushSigs(m), i, high)
  {
    SettledTop(m, n, FlushSigs(m), i, high);
    assert FlushElim(m, n, high) == KeysBelow(m, n);
  }

  /** One more flush round: if the rest of the loop keeps exactly the hands
      on top after the round, the whole loop keeps exactly the hands on top
      before it. */
  lemma FlushUnsettledTop(m: map<nat, seq<int>>, n: nat, high: bool, i: nat)
    requires |m| > 0 && forall j :: j in m ==> j < n
    requires SameWidth(m) && !Settled(m, n) && i in m
    requires var next := FlushRound(m, n, high);
             i in next ==> (i in FlushElim(next, n, high) <==> Top(FlushSigs(next), i, high))
    ensures i in FlushElim(m, n, high) <==> Top(FlushSigs(m), i, high)
  {
    FlushElimUnfold(m, n, high);
    FlushRoundTop(m, n, high, i);
  }

  lemma FlushElimUnfold(m: map<nat, seq<int>>, n: nat, high: bool)
    requires |m| > 0 && forall j :: j in m ==> j < n
    requires SameWidth(m) && !Settled(m, n)
    ensures FlushElim(m, n, high) == FlushElim(FlushRound(m, n, high), n, high)
  {
  }

  /** The flush loop keeps exactly the hands whose ranks, read from highest
      to lowest, are lexicographically best. */
  lemma {:induction false} FlushElimTop(m: map<nat, seq<int>>, n: nat, high: bool, i: nat)
    requires |m| > 0 && forall j :: j in m ==> j < n
    requires SameWidth(m) && i in m
    ensures i in FlushElim(m, n, high) <==> Top(FlushSigs(m), i, high)
    decreases Width(m)
  {
    if Settled(m, n) {
      FlushSettledTop(m, n, high, i);
    } else {
      var next := FlushRound(m, n, high);
      if i in next {
        FlushElimTop(next, n, high, i);
      }
      FlushUnsettledTop(m, n, high, i);
    }
  }

  /** The signatures of the paired loop. */
  function PairedSigs(m: map<nat, Counter>): (S: map<nat, seq<int>>)
    requires forall i :: i in m ==> Valid(m[i])
    ensures forall i :: i in S <==> i in m
    ensures forall i :: i in m ==> S[i] == KeySeq(m[i])
    ensures SameWidth(m) ==> SameWidth(S)
  {
    map i | i in m :: KeySeq(m[i])
  }

  /** The paired round, seen on signatures: heads are the most common
      ranks, and a survivor's new signature is the tail of its old one. */
  lemma PairedSigsRound(m: map<nat, Counter>, best: int)
    requires forall j :: j in m ==> Valid(m[j]) && |m[j]| > 0
    ensures forall j :: j in m ==> |PairedSigs(m)[j]| > 0 && PairedSigs(m)[j][0] == MostCommon(m[j])
    ensures forall j :: j in PairedStep(m, best) ==>
              PairedSigs(PairedStep(m, best))[j] == PairedSigs(m)[j][1..]
  {
  }

  /** One paired round keeps exactly the hands that can still be on top, and
      does not change which of them are. */
  lemma PairedRoundTop(m: map<nat, Counter>, n: nat, high: bool, i: nat)
    requires |m| > 0 && forall j :: j in m ==> j < n && Valid(m[j])
    requires SameWidth(m) && !Settled(m, n) && i in m
    ensures i !in PairedRound(m, n, high) ==> !Top(PairedSigs(m), i, high)
    ensures i in PairedRound(m, n, high) ==>
              (Top(PairedSigs(m), i, high) <==> Top(PairedSigs(PairedRound(m, n, high)), i, high))
  {
    Unsettled(m, n);
    var best := PairedBest(m, n, high);
    PairedSigsRound(m, best);
    RoundOnSignatures(PairedSigs(m), PairedSigs(PairedStep(m, best)), best, high, i);
  }

  /** The paired loop keeps exactly the hands whose sequence of most common
      ranks is lexicographically best. */
  lemma {:induction false} PairedElimTop(m: map<nat, Counter>, n: nat, high: bool, i: nat)
    requires |m| > 0 && forall j :: j in m ==> j < n && Valid(m[j])
    requires SameWidth(m) && i in m
    ensures i in PairedElim(m, n, high) <==> Top(PairedSigs(m), i, high)
    decreases Width(m)
  {
    if Settled(m, n) {
      PairedSettledTop(m, n, high, i);
    } else {
      var next := PairedRound(m, n, high);
      if i in next {
        PairedElimTop(next, n, high, i);
      }
      PairedUnsettledTop(m, n, high, i);
    }
  }

  /** When the paired loop stops, every survivor is kept and on top. */
  lemma PairedSettledTop(m: map<nat, Counter>, n: nat, high: bool, i: nat)
    requires |m| > 0 && forall j :: j in m ==> j < n && Valid(m[j])
    requires SameWidth(m) && Settled(m, n) && i in m
    ensures i in PairedElim(m, n, high) && Top(PairedSigs(m), i, high)
  {
    SettledTop(m, n, PairedSigs(m), i, high);
    assert PairedElim(m, n, high) == KeysBelow(m, n);
  }

  /** One more paired round: if the rest of the loop keeps exactly the hands
      on top after the round, the whole loop keeps exactly the hands on top
      before it. */
  lemma PairedUnsettledTop(m: map<nat, Counter>, n: nat, high: bool, i: nat)
    requires |m| > 0 && forall j :: j in m ==> j < n && Valid(m[j])
    requires SameWidth(m) && !Settled(m, n) && i in m
    requires var next := PairedRound(m, n, high);
             i in next ==> (i in PairedElim(next, n, high) <==> Top(PairedSigs(next), i, high))
    ensures i in PairedElim(m, n, high) <==> Top(PairedSigs(m), i, high)
  {
    PairedElimUnfold(m, n, high);
    PairedRoundTop(m, n, high, i);
  }

  lemma PairedElimUnfold(m: map<nat, Counter>, n: nat, high: bool)
    requires |m| > 0 && forall j :: j in m ==> j < n && Valid(m[j])
    requires SameWidth(m) && !Settled(m, n)
    ensures PairedElim(m, n, high) == PairedElim(PairedRound(m, n, high), n, high)
  {
  }

  // ---------------------------------------------------------------------
  // The same, stated on `break_ties` itself.
  // ---------------------------------------------------------------------

  /** Straights, straight flushes and fives of a kind: the winners are
      exactly the hands whose highest rank is at least as good as every
      other hand's. */
  lemma BreakTiesStraight(hands: seq<seq<Card>>, high: bool)
    requires |hands| > 0 && FiveCards(hands) && SameCategory(hands)
    requires EvaluateHand(hands[0]) in {StraightFlush, Straight, FiveOfAKind}
    ensures forall i :: 0 <= i < |hands| ==>
              (i in BreakTies(hands, high) <==>
               forall j :: 0 <= j < |hands| ==>
                 if high then Max(Ranks(hands[j])) <= Max(Ranks(hands[i]))
                 else Max(Ranks(hands[i])) <= Max(Ranks(hands[j])))
  {
  }

  /** Hand `i` is at least as good as every hand when ranks are compared
      from highest to lowest. */
  ghost predicate BestByRanks(hands: seq<seq<Card>>, i: nat, high: bool)
    requires i < |hands|
  {
    forall j :: 0 <= j < |hands| ==>
      AtLeastAsGood(Descending(Ranks(hands[i])), Descending(Ranks(hands[j])), high)
  }

  /** Hand `i` is at least as good as every hand when the most common ranks
      are compared in the order the counter reports them. */
  ghost predicate BestByCounts(hands: seq<seq<Card>>, i: nat, high: bool)
    requires i < |hands|
  {
    forall j :: 0 <= j < |hands| ==>
      AtLeastAsGood(KeySeq(CounterOf(Ranks(hands[i]))), KeySeq(CounterOf(Ranks(hands[j]))), high)
  }

  lemma TopByRanks(hands: seq<seq<Card>>, S: map<nat, seq<int>>, i: nat, high: bool)
    requires forall j: nat :: j in S <==> j < |hands|
    requires forall j :: 0 <= j < |hands| ==> S[j] == Descending(Ranks(hands[j]))
    requires i < |hands|
    ensures Top(S, i, high) <==> BestByRanks(hands, i, high)
  {
    if BestByRanks(hands, i, high) {
      forall j | j in S
        ensures AtLeastAsGood(S[i], S[j], high)
      {
        assert j < |hands|;
        assert AtLeastAsGood(Descending(Ranks(hands[i])), Descending(Ranks(hands[j])), high);
      }
    }
    if Top(S, i, high) {
      forall j | 0 <= j < |hands|
        ensures AtLeastAsGood(Descending(Ranks(hands[i])), Descending(Ranks(hands[j])), high)
      {
        assert j in S;
      }
    }
  }

  lemma FlushSigsOfRanks(hands: seq<seq<Card>>)
    ensures forall j: nat :: j in FlushSigs(RankMap(hands)) <==> j < |hands|
    ensures forall j :: 0 <= j < |hands| ==> FlushSigs(RankMap(hands))[j] == Descending(Ranks(hands[j]))
  {
  }

  lemma FlushSigsOfHands(hands: seq<seq<Card>>, m: map<nat, seq<int>>, i: nat, high: bool)
    requires m == RankMap(hands)
    requires i < |hands|
    ensures Top(FlushSigs(m), i, high) <==> BestByRanks(hands, i, high)
  {
    FlushSigsOfRanks(hands);
    TopByRanks(hands, FlushSigs(m), i, high);
  }

  lemma TopByCounts(hands: seq<seq<Card>>, S: map<nat, seq<int>>, i: nat, high: bool)
    requires forall j: nat :: j in S <==> j < |hands|
    requires forall j :: 0 <= j < |hands| ==> S[j] == KeySeq(CounterOf(Ranks(hands[j])))
    requires i < |hands|
    ensures Top(S, i, high) <==> BestByCounts(hands, i, high)
  {
    if BestByCounts(hands, i, high) {
      forall j | j in S
        ensures AtLeastAsGood(S[i], S[j], high)
      {
        assert j < |hands|;
        assert AtLeastAsGood(KeySeq(CounterOf(Ranks(hands[i]))), KeySeq(CounterOf(Ranks(hands[j]))), high);
      }
    }
    if Top(S, i, high) {
      forall j | 0 <= j < |hands|
        ensures AtLeastAsGood(KeySeq(CounterOf(Ranks(hands[i]))), KeySeq(CounterOf(Ranks(hands[j]))), high)
      {
        assert j in S;
      }
    }
  }

  lemma PairedSigsOfCounters(hands: seq<seq<Card>>)
    ensures forall j: nat :: j in PairedSigs(CounterMap(hands)) <==> j < |hands|
    ensures forall j :: 0 <= j < |hands| ==>
              PairedSigs(CounterMap(hands))[j] == KeySeq(CounterOf(Ranks(hands[j])))
  {
  }

  lemma PairedSigsOfHands(hands: seq<seq<Card>>, m: map<nat, Counter>, i: nat, high: bool)
    requires m == CounterMap(hands)
    requires i < |hands|
    ensures Top(PairedSigs(m), i, high) <==> BestByCounts(hands, i, high)
  {
    PairedSigsOfCounters(hands);
    TopByCounts(hands, PairedSigs(m), i, high);
  }

  lemma RankMapFacts(hands: seq<seq<Card>>)
    requires |hands| > 0 && FiveCards(hands)
    ensures |RankMap(hands)| > 0 && SameWidth(RankMap(hands))
    ensures forall j :: j in RankMap(hands) ==> j < |hands|
  {
    assert 0 in RankMap(hands).Keys;
  }

  lemma CounterMapFacts(hands: seq<seq<Card>>)
    requires |hands| > 0 && SameKinds(hands)
    ensures |CounterMap(hands)| > 0 && SameWidth(CounterMap(hands))
    ensures forall j :: j in CounterMap(hands) ==> j < |hands| && Valid(CounterMap(hands)[j])
  {
    assert 0 in CounterMap(hands).Keys;
  }

  /** The flush branch in terms of each hand's ranks. */
  lemma FlushWinnersTop(hands: seq<seq<Card>>, high: bool, i: nat)
    requires |hands| > 0 && FiveCards(hands) && i < |hands|
    ensures i in FlushWinners(hands, high) <==> BestByRanks(hands, i, high)
  {
    RankMapFacts(hands);
    FlushElimTop(RankMap(hands), |hands|, high, i);
    FlushSigsOfHands(hands, RankMap(hands), i, high);
  }

  /** The paired branch in terms of each hand's rank counter. */
  lemma PairedWinnersTop(hands: seq<seq<Card>>, high: bool, i: nat)
    requires |hands| > 0 && SameKinds(hands) && i < |hands|
    ensures i in PairedWinners(hands, high) <==> BestByCounts(hands, i, high)
  {
    CounterMapFacts(hands);
    PairedElimTop(CounterMap(hands), |hands|, high, i);
    PairedSigsOfHands(hands, CounterMap(hands), i, high);
  }

  /** Flushes and high cards: the winners are exactly the hands whose ranks,
      read from highest to lowest, are lexicographically at least as good as
      every other hand's. */
  lemma BreakTiesFlush(hands: seq<seq<Card>>, high: bool)
    requires |hands| > 0 && FiveCards(hands) && SameCategory(hands)
    requires EvaluateHand(hands[0]) in {Flush, HighCard}
    ensures forall i :: 0 <= i < |hands| ==> (i in BreakTies(hands, high) <==> BestByRanks(hands, i, high))
  {
    var c := EvaluateHand(hands[0]);
    assert !(c in {StraightFlush, Straight, FiveOfAKind});
    var r := BreakTies(hands, high);
    assert r == FlushWinners(hands, high);
    forall i | 0 <= i < |hands|
      ensures i in r <==> BestByRanks(hands, i, high)
    {
      FlushWinnersTop(hands, high, i);
    }
  }

  /** Paired hands: the winners are exactly the hands whose sequence of
      most common ranks is lexicographically at least as good as every other
      hand's. */
  lemma BreakTiesPaired(hands: seq<seq<Card>>, high: bool)
    requires |hands| > 0 && FiveCards(hands) && SameCategory(hands)
    requires EvaluateHand(hands[0]) in {FourOfAKind, FullHouse, ThreeOfAKind, TwoPair, OnePair}
    ensures forall i :: 0 <= i < |hands| ==> (i in BreakTies(hands, high) <==> BestByCounts(hands, i, high))
  {
    var c := EvaluateHand(hands[0]);
    assert !(c in {StraightFlush, Straight, FiveOfAKind});
    assert !(c in {Flush, HighCard});
    PairedSameKinds(hands);
    var r := BreakTies(hands, high);
    assert r == PairedWinners(hands, high);
    forall i | 0 <= i < |hands|
      ensures i in r <==> BestByCounts(hands, i, high)
    {
      PairedWinnersTop(hands, high, i);
    }
  }

  // ---------------------------------------------------------------------
  // Ties between two hands.
  // ---------------------------------------------------------------------

  /** A strictly ascending list of indices below 2 that holds 0 and 1. */
  lemma BothIndices(r: seq<nat>)
    requires StrictlyAscending(r) && (forall i :: i in r ==> i < 2) && 0 in r && 1 in r
    ensures r == [0, 1]
  {
    AscendingSameElements(r, [0, 1]);
  }

  /** A signature is as good as itself. */
  lemma AtLeastAsGoodReflexive(a: seq<int>, high: bool)
    ensures AtLeastAsGood(a, a, high)
  {
    LexLeReflexive(a);
  }

  lemma StraightTwins(hands: seq<seq<Card>>, high: bool)
    requires |hands| == 2 && FiveCards(hands) && SameCategory(hands)
    requires EvaluateHand(hands[0]) in {StraightFlush, Straight, FiveOfAKind}
    requires Max(Ranks(hands[0])) == Max(Ranks(hands[1]))
    ensures 0 in BreakTies(hands, high) && 1 in BreakTies(hands, high)
  {
    BreakTiesStraight(hands, high);
  }

  /** Either of two hands with the same descending ranks is best by ranks. */
  lemma TwinBestByRanks(hands: seq<seq<Card>>, i: nat, high: bool)
    requires |hands| == 2 && i < 2
    requires Descending(Ranks(hands[0])) == Descending(Ranks(hands[1]))
    ensures BestByRanks(hands, i, high)
  {
    var d := Descending(Ranks(hands[0]));
    AtLeastAsGoodReflexive(d, high);
    assert Descending(Ranks(hands[1])) == d;
    forall j | 0 <= j < |hands|
      ensures AtLeastAsGood(Descending(Ranks(hands[i])), Descending(Ranks(hands[j])), high)
    {
      assert i == 0 || i == 1;
      assert j == 0 || j == 1;
    }
  }

  /** Either of two hands with the same ranks in the same order is best by counts. */
  lemma TwinBestByCounts(hands: seq<seq<Card>>, i: nat, high: bool)
    requires |hands| == 2 && i < 2
    requires Ranks(hands[0]) == Ranks(hands[1])
    ensures BestByCounts(hands, i, high)
  {
    var d := KeySeq(CounterOf(Ranks(hands[0])));
    AtLeastAsGoodReflexive(d, high);
    assert KeySeq(CounterOf(Ranks(hands[1]))) == d;
    forall j | 0 <= j < |hands|
      ensures AtLeastAsGood(KeySeq(CounterOf(Ranks(hands[i]))), KeySeq(CounterOf(Ranks(hands[j]))), high)
    {
      assert i == 0 || i == 1;
      assert j == 0 || j == 1;
    }
  }

  lemma FlushTwins(hands: seq<seq<Card>>, high: bool)
    requires |hands| == 2 && FiveCards(hands) && SameCategory(hands)
    requires EvaluateHand(hands[0]) in {Flush, HighCard}
    requires Descending(Ranks(hands[0])) == Descending(Ranks(hands[1]))
    ensures 0 in BreakTies(hands, high) && 1 in BreakTies(hands, high)
  {
    TwinBestByRanks(hands, 0, high);
    TwinBestByRanks(hands, 1, high);
    BreakTiesFlush(hands, high);
  }

  lemma PairedTwins(hands: seq<seq<Card>>, high: bool)
    requires |hands| == 2 && FiveCards(hands) && SameCategory(hands)
    requires EvaluateHand(hands[0]) in {FourOfAKind, FullHouse, ThreeOfAKind, TwoPair, OnePair}
    requires Ranks(hands[0]) == Ranks(hands[1])
    ensures 0 in BreakTies(hands, high) && 1 in BreakTies(hands, high)
  {
    TwinBestByCounts(hands, 0, high);
    TwinBestByCounts(hands, 1, high);
    BreakTiesPaired(hands, high);
  }

  /** Both indices of a pair of hands win. */
  lemma BothWin(hands: seq<seq<Card>>, high: bool)
    requires |hands| == 2 && FiveCards(hands) && SameCategory(hands)
    requires 0 in BreakTies(hands, high) && 1 in BreakTies(hands, high)
    ensures BreakTies(hands, high) == [0, 1]
  {
    BothIndices(BreakTies(hands, high));
  }

  /** Two hands of one category holding the same ranks tie: both indices
      come back. Straights, flushes and high cards need only the same rank
      values; paired hands are read in hand order by the counter, so they
      need the ranks in the same order too. */
  lemma TwinsTie(hands: seq<seq<Card>>, high: bool)
    requires |hands| == 2 && FiveCards(hands) && SameCategory(hands)
    requires multiset(Ranks(hands[0])) == multiset(Ranks(hands[1]))
    requires EvaluateHand(hands[0]) in {FourOfAKind, FullHouse, ThreeOfAKind, TwoPair, OnePair} ==>
               Ranks(hands[0]) == Ranks(hands[1])
    ensures BreakTies(hands, high) == [0, 1]
  {
    var c := EvaluateHand(hands[0]);
    if c in {StraightFlush, Straight, FiveOfAKind} {
      MaxDependsOnValues(Ranks(hands[0]), Ranks(hands[1]));
      StraightTwins(hands, high);
    } else if c in {Flush, HighCard} {
      SortDependsOnValues(Ranks(hands[0]), Ranks(hands[1]));
      FlushTwins(hands, high);
    } else {
      PairedTwins(hands, high);
    }
    BothWin(hands, high);
  }

  /** Dealt hands are sorted by rank, so two dealt hands of one category
      with the same rank values always tie. */
  lemma DealtTwinsTie(hands: seq<seq<Card>>, high: bool)
    requires |hands| == 2 && FiveCards(hands) && SameCategory(hands)
    requires Ascending(Ranks(hands[0])) && Ascending(Ranks(hands[1]))
    requires multiset(Ranks(hands[0])) == multiset(Ranks(hands[1]))
    ensures BreakTies(hands, high) == [0, 1]
  {
    SortedUnique(Ranks(hands[0]), Ranks(hands[1]));
    TwinsTie(hands, high);
  }
}
