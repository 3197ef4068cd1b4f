/** Winner selection of the poker evaluator: `break_ties` with its three
    branches and `return_winners`.

    The two elimination loops of `break_ties` keep the surviving hands in a
    dict from original index to what is left of the hand; they are modelled on
    a `map<nat, _>` whose keys are the survivors, iterating over the surviving
    keys. `list(d.keys())` lists the survivors in ascending index order, since
    they were inserted that way and deletions keep the order. */
module TieBreak {
  import opened Seqs
  import opened Cards
  import opened Counters
  import opened Evaluator

  /** The keys of `m` that are below `n`, in ascending order. */
  function KeysBelow<T>(m: map<nat, T>, n: nat): (r: seq<nat>)
    ensures forall k :: 0 <= k < |r| ==> r[k] < n && r[k] in m
    ensures forall i :: i in m && i < n ==> i in r
    ensures StrictlyAscending(r)
  {
    if n == 0 then []
    else KeysBelow(m, n - 1) + (if n - 1 in m then [n - 1] else [])
  }

  /** Every surviving entry has the same length. */
  ghost predicate SameWidth<T>(m: map<nat, seq<T>>) {
    forall i, j :: i in m && j in m ==> |m[i]| == |m[j]|
  }

  /** The common length of the surviving entries. */
  ghost function Width<T>(m: map<nat, seq<T>>): nat {
    if m.Keys == {} then 0 else var i :| i in m.Keys; |m[i]|
  }

  lemma WidthIs<T>(m: map<nat, seq<T>>, i: nat)
    requires SameWidth(m) && i in m
    ensures Width(m) == |m[i]|
  {
  }

  /** "At least as good" between two signatures: lexicographically at least
      as large for a high bet, at most as large for a low one. */
  predicate AtLeastAsGood(a: seq<int>, b: seq<int>, high: bool) {
    |a| == |b| && if high then LexLe(b, a) else LexLe(a, b)
  }

  /** Entry `i` of a map of signatures is at least as good as every entry. */
  ghost predicate Top(sigs: map<nat, seq<int>>, i: nat, high: bool)
    requires i in sigs
  {
    forall j :: j in sigs ==> AtLeastAsGood(sigs[i], sigs[j], high)
  }

  // ---------------------------------------------------------------------
  // Straight, straight flush, five of a kind: compare the highest rank.
  // ---------------------------------------------------------------------

  /** The highest rank of every hand (`high_cards` of the straight branch). */
  function HighCards(hands: seq<seq<Card>>): (tops: seq<int>)
    requires forall i :: 0 <= i < |hands| ==> |hands[i]| > 0
    ensures |tops| == |hands|
    ensures forall i :: 0 <= i < |hands| ==> tops[i] == Max(Ranks(hands[i]))
  {
    seq(|hands|, i requires 0 <= i < |hands| => Max(Ranks(hands[i])))
  }

  /** The indices `i` below `n` with `vals[i] == v`, ascending. */
  function Positions(vals: seq<int>, v: int, n: nat): (r: seq<nat>)
    requires n <= |vals|
    ensures forall k :: 0 <= k < |r| ==> r[k] < n && vals[r[k]] == v
    ensures forall i :: 0 <= i < n && vals[i] == v ==> i in r
    ensures StrictlyAscending(r)
  {
    if n == 0 then []
    else Positions(vals, v, n - 1) + (if vals[n - 1] == v then [n - 1] else [])
  }

  /** Straight-type tie-break: the hands whose highest rank is best. */
  function StraightWinners(hands: seq<seq<Card>>, high: bool): (r: seq<nat>)
    requires |hands| > 0
    requires forall i :: 0 <= i < |hands| ==> |hands[i]| > 0
    ensures |r| > 0
    ensures StrictlyAscending(r)
    ensures forall i :: i in r ==> i < |hands|
    ensures forall k :: 0 <= k < |r| ==> r[k] < |hands|
    ensures forall i :: 0 <= i < |hands| ==>
              (i in r <==> forall j :: 0 <= j < |hands| ==>
                             (if high then Max(Ranks(hands[j])) <= Max(Ranks(hands[i]))
                              else Max(Ranks(hands[i])) <= Max(Ranks(hands[j]))))
  {
    var tops := HighCards(hands);
    var best := Extreme(tops, high);
    var r := Positions(tops, best, |tops|);
    assert |r| > 0 by {
      var i :| 0 <= i < |tops| && tops[i] == best;
      assert i in r;
    }
    r
  }

  // ---------------------------------------------------------------------
  // Flush and high card: compare highest ranks, dropping one card a round.
  // ---------------------------------------------------------------------

  /** One round of the flush loop: hands whose highest rank is not `best` go,
      and each remaining hand gives up one card of rank `best`, keeping its
      other cards. */
  function FlushStep(m: map<nat, seq<int>>, best: int): (next: map<nat, seq<int>>)
    requires forall i :: i in m ==> |m[i]| > 0
    ensures forall i :: i in next <==> i in m && Max(m[i]) == best
    ensures forall i :: i in next ==> |next[i]| == |m[i]| - 1
    ensures forall i :: i in next ==> best in m[i] && multiset(next[i]) == multiset(m[i]) - multiset{best}
  {
    map i | i in m && Max(m[i]) == best :: RemoveFirst(m[i], best)
  }

  /** The best of the values `tops` holds for the survivors `keys`:
      `max(high_cards.values())`, or `min` for a low bet. */
  function Best(tops: map<nat, int>, keys: seq<nat>, high: bool): (best: int)
    requires |keys| > 0
    requires forall k :: 0 <= k < |keys| ==> keys[k] in tops
    ensures exists k :: 0 <= k < |keys| && tops[keys[k]] == best
    ensures high ==> forall k :: 0 <= k < |keys| ==> tops[keys[k]] <= best
    ensures !high ==> forall k :: 0 <= k < |keys| ==> best <= tops[keys[k]]
  {
    var vals := seq(|keys|, k requires 0 <= k < |keys| => tops[keys[k]]);
    assert forall k :: 0 <= k < |keys| ==> vals[k] == tops[keys[k]];
    Extreme(seq(|keys|, k requires 0 <= k < |keys| => tops[keys[k]]), high)
  }

  lemma KeysBelowNonEmpty<T>(m: map<nat, T>, n: nat)
    requires |m| > 0 && forall i :: i in m ==> i < n
    ensures |KeysBelow(m, n)| > 0
  {
    var i :| i in m.Keys;
    assert i in KeysBelow(m, n);
  }

  /** Some survivor attains `best`, and every survivor loses one entry. */
  lemma Shrinks<T, U>(m: map<nat, seq<T>>, next: map<nat, seq<U>>)
    requires SameWidth(m)
    requires exists i :: i in next
    requires forall j :: j in next ==> j in m && |m[j]| > 0 && |next[j]| == |m[j]| - 1
    ensures |next| > 0 && SameWidth(next)
    ensures Width(next) < Width(m)
  {
    var i :| i in next;
    assert i in next.Keys;
    WidthIs(next, i);
    WidthIs(m, i);
  }

  /** The loop of `break_ties` stops: one hand is left, or the first
      survivor has no cards left to compare. */
  predicate Settled<T>(m: map<nat, seq<T>>, n: nat)
    requires |m| > 0 && forall i :: i in m ==> i < n
  {
    KeysBelowNonEmpty(m, n);
    |m| <= 1 || |m[KeysBelow(m, n)[0]]| == 0
  }

  /** While the loop runs, every survivor has something left to compare. */
  lemma Unsettled<T>(m: map<nat, seq<T>>, n: nat)
    requires |m| > 0 && forall i :: i in m ==> i < n
    requires SameWidth(m) && !Settled(m, n)
    ensures forall i :: i in m ==> |m[i]| > 0
  {
    KeysBelowNonEmpty(m, n);
    assert KeysBelow(m, n)[0] in m;
  }

  /** The survivors, by the values `tops` gives them, have a best one:
      `max(high_cards.values())` for a high bet, `min` for a low one. */
  lemma BestIsExtreme(tops: map<nat, int>, keys: seq<nat>, high: bool, best: int)
    requires |keys| > 0
    requires forall k :: 0 <= k < |keys| ==> keys[k] in tops
    requires forall i :: i in tops ==> i in keys
    requires best == Best(tops, keys, high)
    ensures exists i :: i in tops && tops[i] == best
    ensures high ==> forall i :: i in tops ==> tops[i] <= best
    ensures !high ==> forall i :: i in tops ==> best <= tops[i]
  {
    var k :| 0 <= k < |keys| && tops[keys[k]] == best;
    assert keys[k] in tops;
    forall i | i in tops
      ensures high ==> tops[i] <= best
      ensures !high ==> best <= tops[i]
    {
      var k :| 0 <= k < |keys| && keys[k] == i;
    }
  }

  /** `best_high` of the flush loop: the best highest rank among survivors. */
  function FlushBest(m: map<nat, seq<int>>, n: nat, high: bool): (best: int)
    requires |m| > 0 && forall i :: i in m ==> i < n && |m[i]| > 0
    ensures exists i :: i in m && Max(m[i]) == best
    ensures high ==> forall i :: i in m ==> Max(m[i]) <= best
    ensures !high ==> forall i :: i in m ==> best <= Max(m[i])
  {
    var keys := KeysBelow(m, n);
    KeysBelowNonEmpty(m, n);
    var tops := map i | i in m :: Max(m[i]);
    var best := Best(tops, keys, high);
    BestIsExtreme(tops, keys, high, best);
    best
  }

  /** One pass of the flush loop body: keep the hands that reach the best
      highest rank, each giving up one card of that rank. */
  function FlushRound(m: map<nat, seq<int>>, n: nat, high: bool): (next: map<nat, seq<int>>)
    requires |m| > 0 && forall i :: i in m ==> i < n
    requires SameWidth(m) && !Settled(m, n)
    ensures |next| > 0 && SameWidth(next) && Width(next) < Width(m)
    ensures forall i :: i in next ==> i in m
  {
    Unsettled(m, n);
    var next := FlushStep(m, FlushBest(m, n, high));
    Shrinks(m, next);
    next
  }

  /** The flush / high-card elimination loop of `break_ties`, over the ranks
      still held by each surviving hand. */
  function FlushElim(m: map<nat, seq<int>>, n: nat, high: bool): (r: seq<nat>)
    requires |m| > 0
    requires forall i :: i in m ==> i < n
    requires SameWidth(m)
    ensures |r| > 0
    ensures forall i :: i in r ==> i in m
    ensures StrictlyAscending(r)
    decreases Width(m)
  {
    if Settled(m, n) then KeysBelow(m, n)
    else FlushElim(FlushRound(m, n, high), n, high)
  }

  // ---------------------------------------------------------------------
  // Paired hands: compare the most common rank, dropping it each round.
  // ---------------------------------------------------------------------

  /** One round of the paired loop: hands whose most common rank is not
      `best` go, and each remaining counter loses the key `best`. */
  function PairedStep(m: map<nat, Counter>, best: int): (next: map<nat, Counter>)
    requires forall i :: i in m ==> Valid(m[i]) && |m[i]| > 0
    ensures forall i :: i in next <==> i in m && MostCommon(m[i]) == best
    ensures forall i :: i in next ==> Valid(next[i]) && |next[i]| == |m[i]| - 1
    ensures forall i :: i in next ==> Lookup(next[i], best) == 0 && Lookup(m[i], best) > 0
    ensures forall i, k :: i in next && k != best ==> Lookup(next[i], k) == Lookup(m[i], k)
  {
    assert forall i :: i in m ==> MostCommon(m[i]) in KeySet(m[i]);
    assert forall i :: i in m ==> Lookup(m[i], MostCommon(m[i])) > 0 by {
      forall i | i in m
        ensures Lookup(m[i], MostCommon(m[i])) > 0
      {
        LookupValid(m[i], MostCommonAt(m[i]));
      }
    }
    map i | i in m && MostCommon(m[i]) == best :: Pop(m[i], best)
  }

  /** `best_high` of the paired loop: the best most common rank among
      survivors. */
  function PairedBest(m: map<nat, Counter>, n: nat, high: bool): (best: int)
    requires |m| > 0 && forall i :: i in m ==> i < n && |m[i]| > 0
    ensures exists i :: i in m && MostCommon(m[i]) == best
    ensures high ==> forall i :: i in m ==> MostCommon(m[i]) <= best
    ensures !high ==> forall i :: i in m ==> best <= MostCommon(m[i])
  {
    var keys := KeysBelow(m, n);
    KeysBelowNonEmpty(m, n);
    var tops := map i | i in m :: MostCommon(m[i]);
    var best := Best(tops, keys, high);
    BestIsExtreme(tops, keys, high, best);
    best
  }

  /** One pass of the paired loop body: keep the hands whose most common
      rank is the best one, each losing that rank's entry. */
  function PairedRound(m: map<nat, Counter>, n: nat, high: bool): (next: map<nat, Counter>)
    requires |m| > 0 && forall i :: i in m ==> i < n && Valid(m[i])
    requires SameWidth(m) && !Settled(m, n)
    ensures |next| > 0 && SameWidth(next) && Width(next) < Width(m)
    ensures forall i :: i in next ==> i in m && Valid(next[i])
  {
    Unsettled(m, n);
    var next := PairedStep(m, PairedBest(m, n, high));
    Shrinks(m, next);
    next
  }

  /** The paired-hand elimination loop of `break_ties`, over the rank counters
      of the surviving hands. */
  function PairedElim(m: map<nat, Counter>, n: nat, high: bool): (r: seq<nat>)
    requires |m| > 0
    requires forall i :: i in m ==> i < n && Valid(m[i])
    requires SameWidth(m)
    ensures |r| > 0
    ensures forall i :: i in r ==> i in m
    ensures StrictlyAscending(r)
    decreases Width(m)
  {
    if Settled(m, n) then KeysBelow(m, n)
    else PairedElim(PairedRound(m, n, high), n, high)
  }

  // ---------------------------------------------------------------------
  // break_ties and return_winners.
  // ---------------------------------------------------------------------

  predicate FiveCards(hands: seq<seq<Card>>) {
    forall i :: 0 <= i < |hands| ==> |hands[i]| == 5
  }

  predicate SameCategory(hands: seq<seq<Card>>)
    requires FiveCards(hands)
  {
    forall i :: 0 <= i < |hands| ==> EvaluateHand(hands[i]) == EvaluateHand(hands[0])
  }

  /** The ranks of every hand, by index. */
  function RankMap(hands: seq<seq<Card>>): (m: map<nat, seq<int>>)
    ensures forall i :: i in m <==> 0 <= i < |hands|
    ensures forall i :: 0 <= i < |hands| ==> m[i] == Ranks(hands[i])
  {
    map i | 0 <= i < |hands| :: Ranks(hands[i])
  }

  /** The rank counter of every hand, by index. */
  function CounterMap(hands: seq<seq<Card>>): (m: map<nat, Counter>)
    ensures forall i :: i in m <==> 0 <= i < |hands|
    ensures forall i :: 0 <= i < |hands| ==> m[i] == CounterOf(Ranks(hands[i]))
  {
    map i | 0 <= i < |hands| :: CounterOf(Ranks(hands[i]))
  }

  /** Every hand's counter has the same number of entries. */
  predicate SameKinds(hands: seq<seq<Card>>) {
    forall i, j :: 0 <= i < |hands| && 0 <= j < |hands| ==>
      |CounterOf(Ranks(hands[i]))| == |CounterOf(Ranks(hands[j]))|
  }

  /** Hands of one paired category have the same number of different ranks. */
  lemma PairedKinds(h: seq<Card>, g: seq<Card>)
    requires |h| == 5 && |g| == 5
    requires EvaluateHand(h) == EvaluateHand(g)
    requires EvaluateHand(h) in {FourOfAKind, FullHouse, ThreeOfAKind, TwoPair, OnePair}
    ensures |CounterOf(Ranks(h))| == |CounterOf(Ranks(g))|
  {
    EvaluateHandShape(h);
    EvaluateHandShape(g);
    CounterSizeIsKinds(h);
    CounterSizeIsKinds(g);
  }

  lemma PairedSameKinds(hands: seq<seq<Card>>)
    requires |hands| > 0 && FiveCards(hands) && SameCategory(hands)
    requires EvaluateHand(hands[0]) in {FourOfAKind, FullHouse, ThreeOfAKind, TwoPair, OnePair}
    ensures SameKinds(hands)
  {
    forall i, j | 0 <= i < |hands| && 0 <= j < |hands|
      ensures |CounterOf(Ranks(hands[i]))| == |CounterOf(Ranks(hands[j]))|
    {
      PairedKinds(hands[i], hands[j]);
    }
  }

  /** The flush / high-card branch of `break_ties`. */
  function FlushWinners(hands: seq<seq<Card>>, high: bool): (r: seq<nat>)
    requires |hands| > 0 && FiveCards(hands)
    ensures |r| > 0
    ensures forall i :: i in r ==> i < |hands|
    ensures forall k :: 0 <= k < |r| ==> r[k] < |hands|
    ensures StrictlyAscending(r)
  {
    var m := RankMap(hands);
    assert SameWidth(m);
    assert 0 in m.Keys;
    var r := FlushElim(m, |hands|, high);
    MembersBelow(r, |hands|);
    r
  }

  /** The paired branch of `break_ties`: four of a kind, full house, three of
      a kind, two pair, one pair. */
  function PairedWinners(hands: seq<seq<Card>>, high: bool): (r: seq<nat>)
    requires |hands| > 0 && SameKinds(hands)
    ensures |r| > 0
    ensures forall i :: i in r ==> i < |hands|
    ensures forall k :: 0 <= k < |r| ==> r[k] < |hands|
    ensures StrictlyAscending(r)
  {
    var m := CounterMap(hands);
    assert SameWidth(m);
    assert 0 in m.Keys;
    var r := PairedElim(m, |hands|, high);
    MembersBelow(r, |hands|);
    r
  }

  /** `break_ties` on hands that share one category. */
  function BreakTies(hands: seq<seq<Card>>, high: bool): (r: seq<nat>)
    requires |hands| > 0 && FiveCards(hands) && SameCategory(hands)
    ensures |r| > 0
    ensures forall i :: i in r ==> i < |hands|
    ensures forall k :: 0 <= k < |r| ==> r[k] < |hands|
    ensures StrictlyAscending(r)
  {
    var category := EvaluateHand(hands[0]);
    if category in {StraightFlush, Straight, FiveOfAKind} then
      StraightWinners(hands, high)
    else if category in {Flush, HighCard} then
      FlushWinners(hands, high)
    else
      PairedSameKinds(hands);
      PairedWinners(hands, high)
  }

  /** The category value of every hand (`rankings`). */
  function Values(hands: seq<seq<Card>>): (vals: seq<int>)
    requires FiveCards(hands)
    ensures |vals| == |hands|
    ensures forall i :: 0 <= i < |hands| ==> vals[i] == Value(EvaluateHand(hands[i]))
  {
    seq(|hands|, i requires 0 <= i < |hands| => Value(EvaluateHand(hands[i])))
  }

  /** `[xs[i] for i in idx]`. */
  function Select<T>(xs: seq<T>, idx: seq<nat>): (r: seq<T>)
    requires forall k :: 0 <= k < |idx| ==> idx[k] < |xs|
    ensures |r| == |idx|
    ensures forall k :: 0 <= k < |idx| ==> r[k] == xs[idx[k]]
  {
    seq(|idx|, k requires 0 <= k < |idx| => xs[idx[k]])
  }

  /** The hands attaining the extreme category value, as sub-list handed to
      `break_ties`, share one category. */
  lemma TiedShareCategory(hands: seq<seq<Card>>, tied: seq<nat>, top: int)
    requires FiveCards(hands)
    requires forall k :: 0 <= k < |tied| ==> tied[k] < |hands| && Values(hands)[tied[k]] == top
    ensures FiveCards(Select(hands, tied))
    ensures SameCategory(Select(hands, tied))
  {
    var sub := Select(hands, tied);
    forall k | 0 <= k < |sub|
      ensures EvaluateHand(sub[k]) == EvaluateHand(sub[0])
    {
      ValueOrder(EvaluateHand(sub[k]), EvaluateHand(sub[0]));
    }
  }

  /** The elements of `xs` that occur in `ys`, in the order of `xs`. */
  function KeepMembers(xs: seq<nat>, ys: seq<nat>): (r: seq<nat>)
    ensures forall x :: x in r <==> x in xs && x in ys
    ensures StrictlyAscending(xs) ==> StrictlyAscending(r)
  {
    if |xs| == 0 then []
    else
      var rest := KeepMembers(xs[1..], ys);
      assert forall x :: x in xs[1..] ==> x in xs;
      if xs[0] in ys then
        var r := [xs[0]] + rest;
        assert StrictlyAscending(xs) ==> StrictlyAscending(r) by {
          if StrictlyAscending(xs) {
            assert StrictlyAscending(xs[1..]);
            forall k, l | 0 <= k < l < |r|
              ensures r[k] < r[l]
            {
              assert r[l] == rest[l - 1] && rest[l - 1] in rest;
              var j :| 0 <= j < |xs[1..]| && xs[1..][j] == r[l];
              assert xs[j + 1] == r[l];
              if k > 0 {
                assert r[k] == rest[k - 1];
              }
            }
          }
        }
        r
      else rest
  }

  /** The hands whose category value is the extreme one, ascending. */
  function Tied(hands: seq<seq<Card>>, high: bool): (tied: seq<nat>)
    requires |hands| > 0 && FiveCards(hands)
    ensures |tied| > 0 && StrictlyAscending(tied)
    ensures forall i: nat :: i in tied <==> i < |hands| && Values(hands)[i] == Extreme(Values(hands), high)
    ensures forall k :: 0 <= k < |tied| ==> tied[k] < |hands|
    ensures FiveCards(Select(hands, tied)) && SameCategory(Select(hands, tied))
  {
    var vals := Values(hands);
    var top := Extreme(vals, high);
    var tied := Positions(vals, top, |vals|);
    assert |tied| > 0 by {
      var i :| 0 <= i < |vals| && vals[i] == top;
      assert i in tied;
    }
    TiedShareCategory(hands, tied, top);
    tied
  }

  /** Picking ascending positions out of an ascending sequence keeps it
      ascending. */
  lemma SelectAscending(xs: seq<nat>, idx: seq<nat>)
    requires StrictlyAscending(xs) && StrictlyAscending(idx)
    requires forall k :: 0 <= k < |idx| ==> idx[k] < |xs|
    ensures StrictlyAscending(Select(xs, idx))
    ensures forall x :: x in Select(xs, idx) ==> x in xs
  {
    var r := Select(xs, idx);
    forall x | x in r
      ensures x in xs
    {
      var q :| 0 <= q < |r| && r[q] == x;
      assert xs[idx[q]] == x;
    }
  }

  /** `return_winners` exactly as written: the tie-break answers with
      positions in the sub-list of tied hands, and these are compared with
      positions in the full list. */
  function ReturnWinnersAsWritten(hands: seq<seq<Card>>, high: bool): (r: seq<nat>)
    requires |hands| > 0 && FiveCards(hands)
    ensures StrictlyAscending(r)
    ensures forall i :: i in r ==> i < |hands| && Values(hands)[i] == Extreme(Values(hands), high)
    ensures forall k :: 0 <= k < |r| ==> r[k] < |hands|
  {
    var tied := Tied(hands, high);
    if |tied| > 1 then
      var winners := BreakTies(Select(hands, tied), high);
      var kept := KeepMembers(tied, winners);
      MembersBelow(kept, |hands|);
      kept
    else tied
  }

  /** The tie-break run on the tied hands, its answer read back as indices
      into the full list. */
  function Resolve(hands: seq<seq<Card>>, tied: seq<nat>, high: bool): (r: seq<nat>)
    requires |tied| > 0 && StrictlyAscending(tied)
    requires forall k :: 0 <= k < |tied| ==> tied[k] < |hands|
    requires FiveCards(Select(hands, tied)) && SameCategory(Select(hands, tied))
    ensures |r| > 0 && StrictlyAscending(r)
    ensures forall i :: i in r ==> i in tied
  {
    var winners := BreakTies(Select(hands, tied), high);
    SelectAscending(tied, winners);
    Select(tied, winners)
  }

  /** `return_winners` with the tie-break's answer mapped back through the
      sub-list of tied hands, so the caller can index its bettors with it. */
  function ReturnWinners(hands: seq<seq<Card>>, high: bool): (r: seq<nat>)
    requires |hands| > 0 && FiveCards(hands)
    ensures |r| > 0 && StrictlyAscending(r)
    ensures forall i :: i in r ==> i < |hands| && Values(hands)[i] == Extreme(Values(hands), high)
  {
    var tied := Tied(hands, high);
    if |tied| > 1 then
      Resolve(hands, tied, high)
    else tied
  }
}
