/** What the payout promises: nobody is owed or owes a negative amount,
    each side's amounts add up to the top score minus the bottom score, and
    the division `distribute_money` performs fails exactly when all scores
    are equal. */
module PayoutLaws {
  import opened Seqs
  import opened Results
  import opened Dicts
  import opened Sorting
  import opened Games
  import opened Settlement
  import opened Payout

  /** Every player has the same score. */
  predicate EqualScores(g: Game)
    requires HasScores(g)
  {
    forall i :: 0 <= i < |g.players| ==> g.scores.values[g.players[i]] == g.scores.values[g.players[0]]
  }

  /** In a ranking, scores only go down. */
  lemma RankedDescending(ranked: seq<string>, scores: map<string, int>, i: nat, j: nat)
    requires SortedBy(ranked, ByScoreDescending(scores))
    requires i <= j < |ranked|
    requires ranked[i] in scores && ranked[j] in scores
    ensures scores[ranked[i]] >= scores[ranked[j]]
  {
    if i < j {
      var key := ByScoreDescending(scores);
      assert key(ranked[i]) <= key(ranked[j]);
    }
  }

  /** The ledger's parts, position by position: a winner's part is its
      score above the bottom score, a loser's its score below the top. */
  lemma MeasureParts(ranked: seq<string>, scores: map<string, int>)
    requires |ranked| >= 2
    requires forall i :: 0 <= i < |ranked| ==> ranked[i] in scores
    ensures var l, n := Measure(ranked, scores), |ranked|;
            && l.amount == scores[ranked[0]] - scores[ranked[n - 1]]
            && (forall i :: 0 <= i < |l.gains| ==> l.gains[i] == scores[ranked[i]] - scores[ranked[n - 1]])
            && (forall i :: 0 <= i < |l.debts| ==>
                  l.debts[i] == scores[ranked[0]] - scores[ranked[|l.winners| + i]])
  {
    var l, n := Measure(ranked, scores), |ranked|;
    var k := |l.winners|;
    assert l.winners == ranked[..k] && l.losers == ranked[k..];
  }

  /** The winners lie at or above the bottom score and the losers at or
      below the top score, so no part is negative. */
  lemma MeasureNonNegative(ranked: seq<string>, scores: map<string, int>)
    requires |ranked| >= 2 && SortedBy(ranked, ByScoreDescending(scores))
    requires forall i :: 0 <= i < |ranked| ==> ranked[i] in scores
    ensures var l := Measure(ranked, scores);
            && l.amount >= 0
            && (forall i :: 0 <= i < |l.gains| ==> l.gains[i] >= 0)
            && (forall i :: 0 <= i < |l.debts| ==> l.debts[i] >= 0)
  {
    var l := Measure(ranked, scores);
    var n, k := |ranked|, |l.winners|;
    MeasureParts(ranked, scores);
    RankedDescending(ranked, scores, 0, n - 1);
    forall i | 0 <= i < |l.gains| ensures l.gains[i] >= 0 {
      RankedDescending(ranked, scores, i, n - 1);
    }
    forall i | 0 <= i < |l.debts| ensures l.debts[i] >= 0 {
      RankedDescending(ranked, scores, 0, k + i);
    }
  }

  /** A sum of non-negative numbers is zero exactly when each is zero. */
  lemma {:induction false} SumZero(s: seq<int>)
    requires forall i :: 0 <= i < |s| ==> s[i] >= 0
    ensures Sum(s) >= 0
    ensures Sum(s) == 0 <==> forall i :: 0 <= i < |s| ==> s[i] == 0
  {
    if |s| > 0 {
      SumZero(s[1..]);
      assert forall i :: 0 <= i < |s[1..]| ==> s[1..][i] == s[i + 1];
    }
  }

  /** A ranked list whose first and last scores agree has one score. */
  lemma FlatRanking(ranked: seq<string>, scores: map<string, int>)
    requires |ranked| > 0 && SortedBy(ranked, ByScoreDescending(scores))
    requires forall i :: 0 <= i < |ranked| ==> ranked[i] in scores
    requires scores[ranked[0]] == scores[ranked[|ranked| - 1]]
    ensures forall i :: 0 <= i < |ranked| ==> scores[ranked[i]] == scores[ranked[0]]
  {
    forall i | 0 <= i < |ranked| ensures scores[ranked[i]] == scores[ranked[0]] {
      RankedDescending(ranked, scores, 0, i);
      RankedDescending(ranked, scores, i, |ranked| - 1);
    }
  }

  /** Two lists with the same elements: every element of one is somewhere
      in the other. */
  lemma SameMembers(xs: seq<string>, ys: seq<string>, i: nat) returns (j: nat)
    requires multiset(xs) == multiset(ys) && i < |xs|
    ensures j < |ys| && ys[j] == xs[i]
  {
    assert xs[i] in multiset(ys);
    j :| 0 <= j < |ys| && ys[j] == xs[i];
  }

  /** If every element of `xs` has the score of one of them, so does every
      element of a reordering `ys`. */
  lemma FlatMoves(xs: seq<string>, ys: seq<string>, s: map<string, int>)
    requires multiset(xs) == multiset(ys) && |xs| > 0
    requires forall i :: 0 <= i < |xs| ==> xs[i] in s
    requires forall i :: 0 <= i < |xs| ==> s[xs[i]] == s[xs[0]]
    ensures |ys| > 0 && ys[0] in s
    ensures forall j :: 0 <= j < |ys| ==> ys[j] in s && s[ys[j]] == s[ys[0]]
  {
    assert |ys| == |multiset(ys)| == |multiset(xs)| == |xs|;
    var z := SameMembers(ys, xs, 0);
    forall j | 0 <= j < |ys| ensures ys[j] in s && s[ys[j]] == s[ys[0]] {
      var i := SameMembers(ys, xs, j);
      var i0 := SameMembers(ys, xs, 0);
    }
  }

  /** A game's scores are all equal exactly when its ranking's are. */
  lemma EqualScoresRanked(g: Game)
    requires HasScores(g) && |g.players| > 0
    ensures var ranked := Rank(g);
            EqualScores(g) <==> forall i :: 0 <= i < |ranked| ==> g.scores.values[ranked[i]] == g.scores.values[ranked[0]]
  {
    var ranked := Rank(g);
    var s := g.scores.values;
    if EqualScores(g) {
      FlatMoves(g.players, ranked, s);
    }
    if forall i :: 0 <= i < |ranked| ==> s[ranked[i]] == s[ranked[0]] {
      FlatMoves(ranked, g.players, s);
    }
  }

  /** The winners' parts add up to zero exactly when the first and last
      ranked scores agree. */
  lemma GainsZeroIffFlat(ranked: seq<string>, scores: map<string, int>)
    requires |ranked| >= 2 && SortedBy(ranked, ByScoreDescending(scores))
    requires forall i :: 0 <= i < |ranked| ==> ranked[i] in scores
    ensures Sum(Measure(ranked, scores).gains) == 0 <==> scores[ranked[0]] == scores[ranked[|ranked| - 1]]
  {
    var l := Measure(ranked, scores);
    var n := |ranked|;
    MeasureNonNegative(ranked, scores);
    MeasureParts(ranked, scores);
    SumZero(l.gains);
    assert l.gains[0] == scores[ranked[0]] - scores[ranked[n - 1]];
    if scores[ranked[0]] == scores[ranked[n - 1]] {
      FlatRanking(ranked, scores);
    }
  }

  /** The losers' parts add up to zero exactly when the first and last
      ranked scores agree. */
  lemma DebtsZeroIffFlat(ranked: seq<string>, scores: map<string, int>)
    requires |ranked| >= 2 && SortedBy(ranked, ByScoreDescending(scores))
    requires forall i :: 0 <= i < |ranked| ==> ranked[i] in scores
    ensures Sum(Measure(ranked, scores).debts) == 0 <==> scores[ranked[0]] == scores[ranked[|ranked| - 1]]
  {
    var l := Measure(ranked, scores);
    var n, k := |ranked|, |l.winners|;
    MeasureNonNegative(ranked, scores);
    MeasureParts(ranked, scores);
    SumZero(l.debts);
    assert l.debts[n - k - 1] == scores[ranked[0]] - scores[ranked[n - 1]];
    if scores[ranked[0]] == scores[ranked[n - 1]] {
      FlatRanking(ranked, scores);
    }
  }

  /** All scores are equal exactly when the first and last ranked scores
      agree. */
  lemma EqualIffFlat(g: Game)
    requires HasScores(g) && |g.players| >= 2
    ensures var ranked := Rank(g);
            EqualScores(g) <==> g.scores.values[ranked[0]] == g.scores.values[ranked[|ranked| - 1]]
  {
    var ranked := Rank(g);
    EqualScoresRanked(g);
    if g.scores.values[ranked[0]] == g.scores.values[ranked[|ranked| - 1]] {
      FlatRanking(ranked, g.scores.values);
    }
  }

  /** Both totals the payout divides by are zero exactly when all scores
      are equal. */
  lemma TotalsZeroIffEqual(g: Game)
    requires HasScores(g) && |g.players| >= 2
    ensures var l := Prepare(g).value;
            && (Sum(l.gains) == 0 <==> EqualScores(g))
            && (Sum(l.debts) == 0 <==> EqualScores(g))
  {
    var ranked := Rank(g);
    EqualIffFlat(g);
    GainsZeroIffFlat(ranked, g.scores.values);
    DebtsZeroIffFlat(ranked, g.scores.values);
  }

  /** With unequal scores both totals are non-zero, and the payout as
      written answers what the guarded one does; with too few players or a
      missing score both raise the same error. */
  lemma AsWrittenAgreesUnlessEqual(g: Game)
    requires !(HasScores(g) && |g.players| >= 2 && EqualScores(g))
    ensures DistributeMoneyAsWritten(g) == DistributeMoney(g)
  {
    if HasScores(g) && |g.players| >= 2 {
      TotalsZeroIffEqual(g);
    }
  }

  /** With every score equal, the payout as written divides by zero. */
  lemma AsWrittenFailsOnEqualScores(g: Game)
    requires HasScores(g) && |g.players| >= 2 && EqualScores(g)
    ensures DistributeMoneyAsWritten(g) == Err(ZeroDivisionError)
  {
    TotalsZeroIffEqual(g);
  }

  lemma JoinedPair(a: string, b: string)
    requires a != b
    ensures var g := AddPlayer(AddPlayer(NewGame(), a), b);
            g.players == [a, b] && HasScores(g) && EqualScores(g)
  {
    var g1 := AddPlayer(NewGame(), a);
    var g := AddPlayer(g1, b);
    var s1 := g1.scores.values;
    assert s1 == map[][a := 0];
    assert g.scores.values == s1[b := 0];
    TwoZeroScores(g, a, b);
  }

  /** Two players, both at zero. */
  lemma TwoZeroScores(g: Game, a: string, b: string)
    requires g.players == [a, b]
    requires a in g.scores.values && g.scores.values[a] == 0
    requires b in g.scores.values && g.scores.values[b] == 0
    ensures HasScores(g) && EqualScores(g)
  {
  }

  /** With every score equal, the guarded payout succeeds and nobody is
      owed or owes anything. */
  lemma EqualScoresPayNothing(g: Game)
    requires HasScores(g) && |g.players| >= 2 && EqualScores(g)
    ensures DistributeMoney(g).Ok?
    ensures Total(DistributeMoney(g).value.1.owed) == 0.0 && Total(DistributeMoney(g).value.1.owes) == 0.0
  {
    PayoutConserves(g);
    EqualScoresRanked(g);
  }

  /** Two players join and the game is paid out before any round changes
      a score: the payout as written raises `ZeroDivisionError`, the guarded
      one pays nothing. */
  lemma UnplayedPairDividesByZero(a: string, b: string)
    requires a != b
    ensures var g := AddPlayer(AddPlayer(NewGame(), a), b);
            && DistributeMoneyAsWritten(g) == Err(ZeroDivisionError)
            && DistributeMoney(g).Ok?
            && Total(DistributeMoney(g).value.1.owed) == 0.0
            && Total(DistributeMoney(g).value.1.owes) == 0.0
  {
    JoinedPair(a, b);
    var g := AddPlayer(AddPlayer(NewGame(), a), b);
    AsWrittenFailsOnEqualScores(g);
    EqualScoresPayNothing(g);
  }

  /** The first player of the ranking holds the top score and the last the
      bottom one. */
  lemma RankedExtremes(g: Game, j: nat)
    requires HasScores(g) && |g.players| >= 2 && j < |g.players|
    ensures var ranked := Rank(g);
            var s := g.scores.values;
            s[ranked[|ranked| - 1]] <= s[g.players[j]] <= s[ranked[0]]
  {
    var ranked := Rank(g);
    var i := SameMembers(g.players, ranked, j);
    RankedDescending(ranked, g.scores.values, 0, i);
    RankedDescending(ranked, g.scores.values, i, |ranked| - 1);
  }

  /** The guarded payout moves the top score minus the bottom score: the
      winners are owed that much in total and the losers owe that much in
      total, and no single amount is negative. */
  lemma PayoutConserves(g: Game)
    requires HasScores(g) && |g.players| >= 2
    ensures DistributeMoney(g).Ok? && Prepare(g).Ok?
    ensures var l := Prepare(g).value;
            var split := DistributeMoney(g).value.1;
            && l.amount == g.scores.values[l.ranked[0]] - g.scores.values[l.ranked[|l.ranked| - 1]]
            && l.amount >= 0
            && Total(split.owed) == l.amount as real
            && Total(split.owes) == l.amount as real
            && (forall i :: 0 <= i < |split.owed| ==> split.owed[i].1 >= 0.0)
            && (forall i :: 0 <= i < |split.owes| ==> split.owes[i].1 >= 0.0)
  {
    var l := Prepare(g).value;
    var ranked := Rank(g);
    var s := g.scores.values;
    MeasureNonNegative(ranked, s);
    TotalsZeroIffEqual(g);
    SumZero(l.gains);
    SumZero(l.debts);
    SideConserves(l.gains, l.amount, l.winners);
    SideConserves(l.debts, l.amount, l.losers);
    if EqualScores(g) {
      EqualScoresRanked(g);
      assert l.amount == s[ranked[0]] - s[ranked[|ranked| - 1]];
    }
  }

  /** One side of the payout: the amounts add up to `amount` (or are all
      zero when the parts are), and none is negative. */
  lemma SideConserves(parts: seq<int>, amount: int, names: seq<string>)
    requires |names| == |parts| && amount >= 0
    requires forall i :: 0 <= i < |parts| ==> parts[i] >= 0
    ensures var entries := Pair(names, SharesOrZero(parts, amount));
            && (Sum(parts) != 0 ==> Total(entries) == amount as real)
            && (Sum(parts) == 0 ==> Total(entries) == 0.0)
            && (forall i :: 0 <= i < |entries| ==> entries[i].1 >= 0.0)
  {
    var shares := SharesOrZero(parts, amount);
    TotalPair(names, shares);
    SumZero(parts);
    if Sum(parts) != 0 {
      SharesWhole(parts, amount);
      SharesNonNegative(parts, Sum(parts) as real, amount);
    }
  }

  /** Parts with a positive sum share out the whole amount. */
  lemma SharesWhole(parts: seq<int>, amount: int)
    requires Sum(parts) > 0
    ensures SumReal(Shares(parts, Sum(parts) as real, amount)) == amount as real
  {
    var total := Sum(parts) as real;
    SharesSum(parts, total, amount);
    SelfQuotient(total);
  }

  lemma SelfQuotient(t: real)
    requires t > 0.0
    ensures t / t == 1.0
  {
  }

  /** Two players listed in descending score order keep that order. */
  lemma RankOfTwo(g: Game, a: string, b: string)
    requires g.players == [a, b] && a in g.scores.values && b in g.scores.values
    requires g.scores.values[a] >= g.scores.values[b]
    ensures HasScores(g) && Rank(g) == [a, b]
  {
    var key := ByScoreDescending(g.scores.values);
    assert key(a) <= key(b);
    SortTwo(a, b, key);
  }

  /** Scores 10 and 0: one winner owed 10, one loser owing 10. */
  lemma TenAndZeroLedger(scores: map<string, int>, a: string, b: string)
    requires a in scores && b in scores && scores[a] == 10 && scores[b] == 0
    ensures Measure([a, b], scores) == Ledger([a, b], [a], [b], 10, [10], [10])
  {
    var l := Measure([a, b], scores);
    assert l.winners == [a] && l.losers == [b];
    assert l.gains == [10] && l.debts == [10];
  }

  lemma WholeShare()
    ensures SharesOrZero([10], 10) == [10.0]
  {
    assert Sum([10]) == 10;
    assert Shares([10], 10.0, 10) == [10.0];
  }

  /** Two players with scores 10 and 0: the first is owed 10 and the second
      owes 10, in both versions. */
  lemma TenAndZero(g: Game, a: string, b: string)
    requires g.players == [a, b] && a in g.scores.values && b in g.scores.values
    requires g.scores.values[a] == 10 && g.scores.values[b] == 0
    ensures DistributeMoney(g).Ok?
    ensures DistributeMoney(g).value.1 == Split([(a, 10.0)], [(b, 10.0)])
    ensures DistributeMoneyAsWritten(g) == DistributeMoney(g)
  {
    RankOfTwo(g, a, b);
    TenAndZeroLedger(g.scores.values, a, b);
    assert Prepare(g) == Ok(Ledger([a, b], [a], [b], 10, [10], [10]));
    WholeShare();
    assert Pair([a], [10.0]) == [(a, 10.0)] && Pair([b], [10.0]) == [(b, 10.0)];
    assert !EqualScores(g) by {
      assert g.scores.values[g.players[1]] != g.scores.values[g.players[0]];
    }
    AsWrittenAgreesUnlessEqual(g);
  }

  /** `list.sort` is stable: players with equal scores keep, in the
      ranking, the order in which they joined. At the cut between winners
      and losers this order decides who is owed. */
  lemma RankStable(g: Game, v: int)
    requires HasScores(g)
    ensures var key := ByScoreDescending(g.scores.values);
            WithKey(Rank(g), key, v) == WithKey(g.players, key, v)
  {
    SortByStable(g.players, ByScoreDescending(g.scores.values), v);
  }

  /** The `i`-th share: `(parts[i] / total) * amount`. */
  lemma {:induction false} SharesAt(parts: seq<int>, total: real, amount: int, i: int)
    requires total != 0.0 && 0 <= i < |parts|
    ensures Shares(parts, total, amount)[i] == (parts[i] as real / total) * amount as real
  {
    if i > 0 {
      SharesAt(parts[1..], total, amount, i - 1);
    }
  }

  /** Shares of one total and one amount are in the ratio of their parts. */
  lemma CrossShares(a: int, b: int, total: real, amount: int)
    requires total != 0.0
    ensures ((a as real / total) * amount as real) * b as real == ((b as real / total) * amount as real) * a as real
  {
    var q := amount as real / total;
    assert (a as real / total) * amount as real == a as real * q;
    assert (b as real / total) * amount as real == b as real * q;
  }

  /** On one side of the payout, amounts are in the ratio of the parts. */
  lemma SideProportional(parts: seq<int>, amount: int, names: seq<string>, e: seq<(string, real)>, i: int, j: int)
    requires |names| == |parts| && 0 <= i < |parts| && 0 <= j < |parts|
    requires e == Pair(names, SharesOrZero(parts, amount))
    ensures InRatio(e[i].1, e[j].1, parts[i], parts[j])
  {
    if Sum(parts) != 0 {
      SharesAt(parts, Sum(parts) as real, amount, i);
      SharesAt(parts, Sum(parts) as real, amount, j);
      CrossShares(parts[i], parts[j], Sum(parts) as real, amount);
    }
  }

  /** Amounts `x` and `y` stand in the ratio of the parts `a` and `b`:
      `x / y == a / b`, cross-multiplied so that zero parts are allowed. */
  predicate InRatio(x: real, y: real, a: int, b: int) {
    x * b as real == y * a as real
  }

  /** Equal parts stand in the same ratio. */
  lemma InRatioOfEqual(x: real, y: real, a: int, b: int, a': int, b': int)
    requires InRatio(x, y, a, b) && a == a' && b == b'
    ensures InRatio(x, y, a', b')
  {
  }

  /** The parts each side of a payout is measured by. */
  lemma LedgerParts(g: Game)
    requires HasScores(g) && |g.players| >= 2
    ensures Prepare(g).Ok? && DistributeMoney(g).Ok?
    ensures var l, ranked, sc := Prepare(g).value, Rank(g), g.scores.values;
            var k := WinnerCount(|g.players|);
            && |ranked| == |g.players| && |l.gains| == k && |l.debts| == |g.players| - k
            && (forall i :: 0 <= i < k ==> l.gains[i] == Lead(g, i))
            && (forall i :: 0 <= i < |l.debts| ==> l.debts[i] == Trail(g, k + i))
            && DistributeMoney(g).value.1.owed == Pair(l.winners, SharesOrZero(l.gains, l.amount))
            && DistributeMoney(g).value.1.owes == Pair(l.losers, SharesOrZero(l.debts, l.amount))
  {
    var ranked, sc := Rank(g), g.scores.values;
    var l := Measure(ranked, sc);
    assert Prepare(g) == Ok(l);
    var k := WinnerCount(|ranked|);
    assert l.winners == ranked[..k] && l.losers == ranked[k..];
  }

  /** How far the score of the player ranked `i` lies above the bottom
      score. */
  function Lead(g: Game, i: int): int
    requires HasScores(g) && 0 <= i < |g.players|
  {
    g.scores.values[Rank(g)[i]] - g.scores.values[Rank(g)[|g.players| - 1]]
  }

  /** How far the score of the player ranked `i` lies below the top score. */
  function Trail(g: Game, i: int): int
    requires HasScores(g) && 0 <= i < |g.players|
  {
    g.scores.values[Rank(g)[0]] - g.scores.values[Rank(g)[i]]
  }

  /** Winners are owed in proportion to how far their scores lie above the
      bottom score. */
  lemma OwedProportional(g: Game, i: int, j: int)
    requires HasScores(g) && |g.players| >= 2
    requires 0 <= i < WinnerCount(|g.players|) && 0 <= j < WinnerCount(|g.players|)
    ensures DistributeMoney(g).Ok?
    ensures InRatio(DistributeMoney(g).value.1.owed[i].1, DistributeMoney(g).value.1.owed[j].1, Lead(g, i), Lead(g, j))
  {
    LedgerParts(g);
    var l := Prepare(g).value;
    var owed := DistributeMoney(g).value.1.owed;
    SideProportional(l.gains, l.amount, l.winners, owed, i, j);
    InRatioOfEqual(DistributeMoney(g).value.1.owed[i].1, DistributeMoney(g).value.1.owed[j].1, l.gains[i], l.gains[j],
                   Lead(g, i), Lead(g, j));
  }

  /** Losers owe in proportion to how far their scores lie below the top
      score. */
  lemma OwesProportional(g: Game, i: int, j: int)
    requires HasScores(g) && |g.players| >= 2
    requires 0 <= i < |g.players| - WinnerCount(|g.players|) && 0 <= j < |g.players| - WinnerCount(|g.players|)
    ensures DistributeMoney(g).Ok?
    ensures InRatio(DistributeMoney(g).value.1.owes[i].1, DistributeMoney(g).value.1.owes[j].1,
                    Trail(g, WinnerCount(|g.players|) + i), Trail(g, WinnerCount(|g.players|) + j))
  {
    LedgerParts(g);
    var l, k := Prepare(g).value, WinnerCount(|g.players|);
    var owes := DistributeMoney(g).value.1.owes;
    SideProportional(l.debts, l.amount, l.losers, owes, i, j);
    InRatioOfEqual(DistributeMoney(g).value.1.owes[i].1, DistributeMoney(g).value.1.owes[j].1, l.debts[i], l.debts[j],
                   Trail(g, WinnerCount(|g.players|) + i), Trail(g, WinnerCount(|g.players|) + j));
  }

  /** Winners are filed as listed when no name is listed twice. */
  lemma OwedFiled(g: Game)
    requires HasScores(g) && |g.players| >= 2 && Distinct(Rank(g))
    ensures DistributeMoney(g).Ok? && FiledAsListed(DistributeMoney(g).value.1.owed)
  {
    SideFiled(DistributeMoney(g).value.1.owed, Rank(g), 0);
  }

  /** Losers are filed as listed when no name is listed twice. */
  lemma OwesFiled(g: Game)
    requires HasScores(g) && |g.players| >= 2 && Distinct(Rank(g))
    ensures DistributeMoney(g).Ok? && FiledAsListed(DistributeMoney(g).value.1.owes)
  {
    SideFiled(DistributeMoney(g).value.1.owes, Rank(g), WinnerCount(|g.players|));
  }

  /** With no name listed twice, the dictionaries the program returns hold
      exactly the payout's entries, in ranking order. */
  lemma PayoutDicts(g: Game)
    requires HasScores(g) && |g.players| >= 2 && Distinct(g.players)
    ensures DistributeMoney(g).Ok?
    ensures FiledAsListed(DistributeMoney(g).value.1.owed) && FiledAsListed(DistributeMoney(g).value.1.owes)
  {
    DistinctPermutation(g.players, Rank(g));
    OwedFiled(g);
    OwesFiled(g);
  }

  lemma HalfShares()
    ensures SharesOrZero([10, 10], 10) == [5.0, 5.0]
  {
    assert Sum([10, 10]) == 20;
    assert Shares([10], 20.0, 10) == [5.0];
    assert Shares([10, 10], 20.0, 10) == [5.0, 5.0];
  }

  /** Players listed in descending score order keep that order. */
  lemma RepeatedNameRank(g: Game, a: string, b: string)
    requires g.players == [a, a, b]
    requires a in g.scores.values && b in g.scores.values
    requires g.scores.values[a] >= g.scores.values[b]
    ensures HasScores(g) && Rank(g) == [a, a, b]
  {
    assert HasScores(g) by {
      forall i | 0 <= i < |g.players| ensures g.players[i] in g.scores.values {
        assert g.players[i] == a || g.players[i] == b;
      }
    }
    var key := ByScoreDescending(g.scores.values);
    assert key(a) <= key(a) <= key(b);
    SortThree(a, a, b, key);
    assert Rank(g) == SortBy([a, a, b], key);
  }

  /** Scores 10, 10 and 0: two winners 10 above the bottom, one loser 10
      below the top. */
  lemma RepeatedNameMeasure(scores: map<string, int>, a: string, b: string)
    requires a in scores && b in scores && scores[a] == 10 && scores[b] == 0
    ensures Measure([a, a, b], scores) == Ledger([a, a, b], [a, a], [b], 10, [10, 10], [10])
  {
    var l := Measure([a, a, b], scores);
    assert WinnerCount(3) == 2;
    assert l.winners == [a, a] && l.losers == [b];
    assert l.gains == [10, 10] && l.debts == [10];
  }

  /** Filing the same name twice keeps one key. */
  lemma FiledTwice(a: string, x: real)
    ensures AsDict([(a, x), (a, x)]) == Dict([a], map[a := x])
  {
    var e := [(a, x), (a, x)];
    var d1 := Put(Empty(), a, x);
    assert e[1..] == [(a, x)] && e[1..][1..] == [];
    assert AsDict(e) == Collect(d1, [(a, x)]);
    assert Collect(d1, [(a, x)]) == Collect(Put(d1, a, x), []);
    assert d1 == Dict([a], map[a := x]);
  }

  lemma FiledOnce(b: string, x: real)
    ensures AsDict([(b, x)]) == Dict([b], map[b := x])
  {
    var e := [(b, x)];
    assert e[1..] == [];
    assert AsDict(e) == Collect(Put(Empty(), b, x), []);
  }

  /** Scores 10, 10 and 0 with the first name listed twice: each of its two
      entries is owed 5 and the one loser owes 10. */
  lemma RepeatedNameEntries(g: Game, a: string, b: string)
    requires g.players == [a, a, b]
    requires a in g.scores.values && b in g.scores.values
    requires g.scores.values[a] == 10 && g.scores.values[b] == 0
    ensures DistributeMoney(g).Ok?
    ensures DistributeMoney(g).value.1 == Split([(a, 5.0), (a, 5.0)], [(b, 10.0)])
  {
    RepeatedNameRank(g, a, b);
    RepeatedNameMeasure(g.scores.values, a, b);
    var l := Ledger([a, a, b], [a, a], [b], 10, [10, 10], [10]);
    assert Prepare(g) == Ok(l);
    HalfShares();
    WholeShare();
    assert DistributeMoney(g).value.1 == Split(Pair([a, a], [5.0, 5.0]), Pair([b], [10.0]));
    RepeatedNamePairs(a, b);
  }

  lemma RepeatedNamePairs(a: string, b: string)
    ensures Pair([a, a], [5.0, 5.0]) == [(a, 5.0), (a, 5.0)] && Pair([b], [10.0]) == [(b, 10.0)]
  {
    assert Pair([a, a], [5.0, 5.0])[1] == (a, 5.0);
  }

  /** A name listed twice: players `a`, `a` and `b` with scores 10, 10 and
      0. Both entries of `a` are owed 5, but the dictionary files them under
      one key, so the winners are owed 5 in all while `b` owes 10. */
  lemma RepeatedNameCollapses(g: Game, a: string, b: string)
    requires g.players == [a, a, b]
    requires a in g.scores.values && b in g.scores.values
    requires g.scores.values[a] == 10 && g.scores.values[b] == 0
    ensures DistributeMoney(g).Ok?
    ensures DistributeMoney(g).value.1 == Split([(a, 5.0), (a, 5.0)], [(b, 10.0)])
    ensures AsDict(DistributeMoney(g).value.1.owed) == Dict([a], map[a := 5.0])
    ensures AsDict(DistributeMoney(g).value.1.owes) == Dict([b], map[b := 10.0])
  {
    RepeatedNameEntries(g, a, b);
    FiledTwice(a, 5.0);
    FiledOnce(b, 10.0);
  }
}
