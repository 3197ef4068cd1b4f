/** The end-of-game payout (`distribute_money`): the players are ranked by
    score, the upper half (rounded up) are owed money and the rest owe it;
    the amount at stake is the top score minus the bottom score, and each
    side shares it in proportion to how far each member's score lies from
    the other side's extreme. Rounding to cents and formatting are not
    modelled: shares are exact rationals. */
module Payout {
  import opened Seqs
  import opened Results
  import opened Dicts
  import opened Sorting
  import opened Games
  import opened Settlement

  /** `n // 2 + n % 2`: half of `n`, rounded up. */
  function WinnerCount(n: nat): (k: nat)
    ensures k + k == n || k + k == n + 1
  {
    n / 2 + n % 2
  }

  function SumReal(s: seq<real>): real {
    if |s| == 0 then 0.0 else s[0] + SumReal(s[1..])
  }

  /** How far each name's score lies above `base`. */
  function Above(names: seq<string>, scores: map<string, int>, base: int): (r: seq<int>)
    requires forall i :: 0 <= i < |names| ==> names[i] in scores
    ensures |r| == |names|
  {
    seq(|names|, i requires 0 <= i < |names| => scores[names[i]] - base)
  }

  /** How far each name's score lies below `top`. */
  function Below(names: seq<string>, scores: map<string, int>, top: int): (r: seq<int>)
    requires forall i :: 0 <= i < |names| ==> names[i] in scores
    ensures |r| == |names|
  {
    seq(|names|, i requires 0 <= i < |names| => top - scores[names[i]])
  }

  /** Each part's share of `amount`: `(part / total) * amount`. */
  function Shares(parts: seq<int>, total: real, amount: int): (r: seq<real>)
    requires total != 0.0
    ensures |r| == |parts|
  {
    if |parts| == 0 then []
    else [(parts[0] as real / total) * amount as real] + Shares(parts[1..], total, amount)
  }

  /** Shares add up to the amount in the proportion of the parts' sum to
      the total. */
  lemma {:induction false} SharesSum(parts: seq<int>, total: real, amount: int)
    requires total != 0.0
    ensures SumReal(Shares(parts, total, amount)) == (Sum(parts) as real / total) * amount as real
  {
    if |parts| > 0 {
      SharesSum(parts[1..], total, amount);
      var a, b := parts[0] as real, Sum(parts[1..]) as real;
      assert Shares(parts, total, amount)[1..] == Shares(parts[1..], total, amount);
      assert (a / total) * amount as real + (b / total) * amount as real == ((a + b) / total) * amount as real;
    }
  }

  /** A non-negative part of a positive total gets a non-negative share of
      a non-negative amount. */
  lemma {:induction false} SharesNonNegative(parts: seq<int>, total: real, amount: int)
    requires total > 0.0 && amount >= 0
    requires forall i :: 0 <= i < |parts| ==> parts[i] >= 0
    ensures var r := Shares(parts, total, amount); forall i :: 0 <= i < |r| ==> r[i] >= 0.0
  {
    if |parts| > 0 {
      SharesNonNegative(parts[1..], total, amount);
      var a := parts[0] as real;
      assert a / total >= 0.0;
      assert (a / total) * amount as real >= 0.0;
      var r := Shares(parts, total, amount);
      assert r[1..] == Shares(parts[1..], total, amount);
      forall i | 0 <= i < |r| ensures r[i] >= 0.0 {
        if i > 0 {
          assert r[i] == r[1..][i - 1];
        }
      }
    }
  }

  function Zeros(n: nat): (r: seq<real>)
    ensures |r| == n && forall i :: 0 <= i < n ==> r[i] == 0.0
    ensures SumReal(r) == 0.0
  {
    if n == 0 then [] else [0.0] + Zeros(n - 1)
  }

  function Pair(names: seq<string>, amounts: seq<real>): (r: seq<(string, real)>)
    requires |names| == |amounts|
    ensures |r| == |names|
  {
    seq(|names|, i requires 0 <= i < |names| => (names[i], amounts[i]))
  }

  /** What the payout computes: one entry per winner (the amount owed to
      them) and one per loser (the amount they owe), in ranking order. The
      program files these entries into dictionaries; `AsDict` is that step. */
  datatype Split = Split(owed: seq<(string, real)>, owes: seq<(string, real)>)

  /** The names of a list of entries, in order. */
  function Names(entries: seq<(string, real)>): (r: seq<string>)
    ensures |r| == |entries| && forall i :: 0 <= i < |entries| ==> r[i] == entries[i].0
  {
    seq(|entries|, i requires 0 <= i < |entries| => entries[i].0)
  }

  /** `d[name] = amount` for each entry in turn. */
  function Collect(d: Dict<real>, entries: seq<(string, real)>): (r: Dict<real>)
    ensures Valid(d) ==> Valid(r)
    ensures forall k :: k in d.values && k !in Names(entries) ==> k in r.values && r.values[k] == d.values[k]
    decreases |entries|
  {
    if |entries| == 0 then d
    else
      assert forall k :: k !in Names(entries) ==> k != entries[0].0 && k !in Names(entries[1..]) by {
        assert forall i :: 0 <= i < |entries| - 1 ==> Names(entries[1..])[i] == Names(entries)[i + 1];
      }
      Collect(Put(d, entries[0].0, entries[0].1), entries[1..])
  }

  /** The dictionary the program builds from a side's entries
      (`winners_owed`, `lowers_owe`): a name listed twice keeps the place
      of its first entry and the amount of its last. */
  function AsDict(entries: seq<(string, real)>): (r: Dict<real>)
    ensures Valid(r)
  {
    Collect(Empty(), entries)
  }

  /** The tail of a list of entries under distinct names: its names are
      distinct and none of them is the head's. */
  lemma NamesTail(entries: seq<(string, real)>)
    requires |entries| > 0 && Distinct(Names(entries))
    ensures Distinct(Names(entries[1..]))
    ensures forall i :: 0 <= i < |entries| - 1 ==> entries[1..][i].0 != entries[0].0
  {
    var names := Names(entries);
    assert names[1..] == Names(entries[1..]);
    DistinctTail(names);
    forall i | 0 <= i < |entries| - 1 ensures entries[1..][i].0 != entries[0].0 {
      assert entries[1..][i].0 == names[i + 1];
    }
  }

  /** Entries under distinct names, none already in `d`, are appended to
      `d`'s keys in order. */
  lemma {:induction false} CollectDistinct(d: Dict<real>, entries: seq<(string, real)>)
    requires Distinct(Names(entries))
    requires forall i :: 0 <= i < |entries| ==> entries[i].0 !in d.keys
    ensures Collect(d, entries).keys == d.keys + Names(entries)
    decreases |entries|
  {
    if |entries| > 0 {
      var e, rest := entries[0], entries[1..];
      var d' := Put(d, e.0, e.1);
      assert d'.keys == d.keys + [e.0];
      NamesTail(entries);
      forall i | 0 <= i < |rest| ensures rest[i].0 !in d'.keys {
        assert rest[i] == entries[i + 1];
      }
      CollectDistinct(d', rest);
      assert Collect(d, entries) == Collect(d', rest);
      assert Names(entries) == [e.0] + Names(rest);
      assert d'.keys + Names(rest) == d.keys + Names(entries);
    }
  }

  /** Under distinct names each entry's amount is the one filed under its
      name. */
  lemma {:induction false} CollectAmounts(d: Dict<real>, entries: seq<(string, real)>)
    requires Distinct(Names(entries))
    ensures forall i :: 0 <= i < |entries| ==>
              entries[i].0 in Collect(d, entries).values && Collect(d, entries).values[entries[i].0] == entries[i].1
    decreases |entries|
  {
    if |entries| > 0 {
      var e, rest := entries[0], entries[1..];
      NamesTail(entries);
      CollectAmounts(Put(d, e.0, e.1), rest);
      assert e.0 !in Names(rest);
      forall i | 0 < i < |entries|
        ensures entries[i].0 in Collect(d, entries).values && Collect(d, entries).values[entries[i].0] == entries[i].1
      {
        assert entries[i] == rest[i - 1];
      }
    }
  }

  /** The dictionary built from `entries` holds exactly them: their names
      as keys, in order, each with its entry's amount. */
  predicate FiledAsListed(entries: seq<(string, real)>) {
    && AsDict(entries).keys == Names(entries)
    && forall i :: 0 <= i < |entries| ==>
         entries[i].0 in AsDict(entries).values && AsDict(entries).values[entries[i].0] == entries[i].1
  }

  /** Under distinct names the dictionary holds exactly the entries. */
  lemma AsDictDistinct(entries: seq<(string, real)>)
    requires Distinct(Names(entries))
    ensures FiledAsListed(entries)
  {
    CollectDistinct(Empty(), entries);
    CollectAmounts(Empty(), entries);
  }

  /** Entries named by consecutive members of a list without repeats have
      distinct names. */
  lemma NamesFromDistinct(entries: seq<(string, real)>, ranked: seq<string>, offset: nat)
    requires Distinct(ranked) && offset + |entries| <= |ranked|
    requires forall i :: 0 <= i < |entries| ==> entries[i].0 == ranked[offset + i]
    ensures Distinct(Names(entries))
  {
    forall i, j | 0 <= i < j < |entries| ensures Names(entries)[i] != Names(entries)[j] {
      assert Names(entries)[i] == ranked[offset + i] && Names(entries)[j] == ranked[offset + j];
    }
  }

  /** A side whose entries are named by consecutive members of a list
      without repeats is filed exactly as listed. */
  lemma SideFiled(entries: seq<(string, real)>, ranked: seq<string>, offset: nat)
    requires Distinct(ranked) && offset + |entries| <= |ranked|
    requires forall i :: 0 <= i < |entries| ==> entries[i].0 == ranked[offset + i]
    ensures FiledAsListed(entries)
  {
    NamesFromDistinct(entries, ranked, offset);
    AsDictDistinct(entries);
  }

  /** The quantities the payout is computed from. */
  datatype Ledger = Ledger(
    ranked: seq<string>,
    winners: seq<string>,
    losers: seq<string>,
    amount: int,
    gains: seq<int>,
    debts: seq<int>)

  predicate HasScores(g: Game) {
    forall i :: 0 <= i < |g.players| ==> g.players[i] in g.scores.values
  }

  /** `self.players.sort(key=score, reverse=True)`. */
  function Rank(g: Game): (ranked: seq<string>)
    requires HasScores(g)
    ensures multiset(ranked) == multiset(g.players) && |ranked| == |g.players|
    ensures SortedBy(ranked, ByScoreDescending(g.scores.values))
    ensures forall i :: 0 <= i < |ranked| ==> ranked[i] in g.scores.values
  {
    var ranked := SortBy(g.players, ByScoreDescending(g.scores.values));
    forall i | 0 <= i < |ranked| ensures ranked[i] in g.scores.values {
      assert ranked[i] in multiset(g.players);
    }
    ranked
  }

  /** Splitting the ranking into winners and losers and measuring their
      scores against the other side's extreme. */
  function Measure(ranked: seq<string>, scores: map<string, int>): (l: Ledger)
    requires |ranked| >= 2
    requires forall i :: 0 <= i < |ranked| ==> ranked[i] in scores
    ensures l.ranked == ranked && l.winners + l.losers == ranked
    ensures |l.winners| == WinnerCount(|ranked|) && |l.winners| > 0 && |l.losers| > 0
    ensures |l.gains| == |l.winners| && |l.debts| == |l.losers|
  {
    var k := WinnerCount(|ranked|);
    var winners, losers := ranked[..k], ranked[k..];
    assert winners + losers == ranked;
    var top, bottom := scores[winners[0]], scores[losers[|losers| - 1]];
    Ledger(ranked, winners, losers, top - bottom, Above(winners, scores, bottom), Below(losers, scores, top))
  }

  /** Ranking and splitting: `KeyError` when a player has no score (the
      sort reads every score), `IndexError` with fewer than two players
      (there is no first winner or no last loser). */
  function Prepare(g: Game): (r: Result<Ledger>)
    ensures r.Ok? <==> HasScores(g) && |g.players| >= 2
    ensures !HasScores(g) ==> r == Err(KeyError)
    ensures HasScores(g) && |g.players| < 2 ==> r == Err(IndexError)
    ensures r.Ok? ==> r.value == Measure(Rank(g), g.scores.values)
  {
    if !HasScores(g) then Err(KeyError)
    else if |g.players| < 2 then Err(IndexError)
    else Ok(Measure(Rank(g), g.scores.values))
  }

  /** A part of zero shares nothing; otherwise parts share the amount. */
  function SharesOrZero(parts: seq<int>, amount: int): (r: seq<real>)
    ensures |r| == |parts|
  {
    if Sum(parts) == 0 then Zeros(|parts|) else Shares(parts, Sum(parts) as real, amount)
  }

  /** `distribute_money` as written: with all scores equal both totals are
      zero and the first division raises `ZeroDivisionError`. On success the
      players are left in ranking order. */
  function DistributeMoneyAsWritten(g: Game): (r: Result<(Game, Split)>)
    ensures r.Ok? ==> r == DistributeMoney(g)
    ensures r.Err? && r.error != ZeroDivisionError ==> r == DistributeMoney(g)
    ensures r.Err? ==> r.error == ZeroDivisionError || !(HasScores(g) && |g.players| >= 2)
  {
    match Prepare(g)
    case Err(e) => Err(e)
    case Ok(l) =>
      if Sum(l.gains) == 0 || Sum(l.debts) == 0 then Err(ZeroDivisionError)
      else
        Ok((g.(players := l.ranked),
            Split(Pair(l.winners, Shares(l.gains, Sum(l.gains) as real, l.amount)),
                  Pair(l.losers, Shares(l.debts, Sum(l.debts) as real, l.amount)))))
  }

  /** `distribute_money` with the division guarded: a side whose total is
      zero is paid nothing. */
  function DistributeMoney(g: Game): (r: Result<(Game, Split)>)
    ensures r.Ok? <==> HasScores(g) && |g.players| >= 2
    ensures r.Err? ==> r.error != ZeroDivisionError
    ensures r.Ok? ==> r.value.0 == g.(players := Rank(g))
    ensures r.Ok? ==> var k := WinnerCount(|g.players|);
              var owed, owes := r.value.1.owed, r.value.1.owes;
              && |owed| == k && |owes| == |g.players| - k
              && (forall i :: 0 <= i < |owed| ==> owed[i].0 == Rank(g)[i])
              && (forall i :: 0 <= i < |owes| ==> owes[i].0 == Rank(g)[k + i])
  {
    match Prepare(g)
    case Err(e) => Err(e)
    case Ok(l) =>
      Ok((g.(players := l.ranked),
          Split(Pair(l.winners, SharesOrZero(l.gains, l.amount)),
                Pair(l.losers, SharesOrZero(l.debts, l.amount)))))
  }

  /** The sum of the amounts in a list of payouts. */
  function Total(entries: seq<(string, real)>): real {
    if |entries| == 0 then 0.0 else entries[0].1 + Total(entries[1..])
  }

  lemma {:induction false} TotalPair(names: seq<string>, amounts: seq<real>)
    requires |names| == |amounts|
    ensures Total(Pair(names, amounts)) == SumReal(amounts)
  {
    if |names| > 0 {
      TotalPair(names[1..], amounts[1..]);
      assert Pair(names, amounts)[1..] == Pair(names[1..], amounts[1..]);
    }
  }
}
