/** Python's `collections.Counter` on ranks, as the hand evaluator uses it:
    a list of (key, count) entries in insertion order, that is, in the order in
    which each key was first counted. Insertion order matters because
    `most_common(1)` reports the first key, in that order, whose count is
    maximal. */
module Counters {
  import opened Seqs

  datatype Entry = Entry(key: int, count: nat)

  type Counter = seq<Entry>

  /** Keys are distinct and every present key has been counted at least once. */
  predicate Valid(c: Counter) {
    && (forall i, j :: 0 <= i < j < |c| ==> c[i].key != c[j].key)
    && (forall i :: 0 <= i < |c| ==> c[i].count >= 1)
  }

  /** The keys present. */
  function KeySet(c: Counter): set<int> {
    set i | 0 <= i < |c| :: c[i].key
  }

  lemma KeySetCons(c: Counter)
    requires |c| > 0
    ensures KeySet(c) == {c[0].key} + KeySet(c[1..])
  {
    forall k | k in KeySet(c)
      ensures k in {c[0].key} + KeySet(c[1..])
    {
      var i :| 0 <= i < |c| && c[i].key == k;
      if i > 0 {
        assert c[1..][i - 1].key == k;
      }
    }
    forall k | k in KeySet(c[1..])
      ensures k in KeySet(c)
    {
      var i :| 0 <= i < |c[1..]| && c[1..][i].key == k;
      assert c[i + 1].key == k;
    }
  }

  /** `c[k]`: the count of `k`, zero for a key never counted. */
  function Lookup(c: Counter, k: int): nat {
    if |c| == 0 then 0
    else if c[0].key == k then c[0].count
    else Lookup(c[1..], k)
  }

  /** The sum of all counts: the number of values counted. */
  function Total(c: Counter): nat {
    if |c| == 0 then 0 else c[0].count + Total(c[1..])
  }

  lemma LookupValid(c: Counter, i: int)
    requires Valid(c) && 0 <= i < |c|
    ensures Lookup(c, c[i].key) == c[i].count
  {
    if i > 0 {
      LookupValid(c[1..], i - 1);
    }
  }

  lemma LookupAbsent(c: Counter, k: int)
    requires forall i :: 0 <= i < |c| ==> c[i].key != k
    ensures Lookup(c, k) == 0
  {
    if |c| > 0 {
      LookupAbsent(c[1..], k);
    }
  }

  /** Counting one more `x`: bump its entry in place, or append a new one
      at the end. */
  function Add(c: Counter, x: int): (r: Counter)
    requires Valid(c)
    ensures Valid(r)
    ensures Lookup(r, x) == Lookup(c, x) + 1
    ensures forall k :: k != x ==> Lookup(r, k) == Lookup(c, k)
    ensures Total(r) == Total(c) + 1
    ensures KeySet(r) == KeySet(c) + {x}
    ensures x !in KeySet(c) ==> r == c + [Entry(x, 1)]
    ensures forall i :: 0 <= i < |c| && c[i].key == x ==> r == c[i := Entry(x, c[i].count + 1)]
  {
    if |c| == 0 then [Entry(x, 1)]
    else if c[0].key == x then
      LookupAbsent(c[1..], x);
      AddAtHead(c, x);
      [Entry(x, c[0].count + 1)] + c[1..]
    else
      var t := Add(c[1..], x);
      AddBehindHead(c, x, t);
      AddPlacesBehindHead(c, x, t);
      [c[0]] + t
  }

  /** Replacing an entry past the head is replacing it in the tail. */
  lemma EntryPastHead(c: Counter, i: int, e: Entry)
    requires 0 < i < |c|
    ensures c[i := e] == [c[0]] + c[1..][i - 1 := e]
  {
    var r := [c[0]] + c[1..][i - 1 := e];
    assert forall j :: 0 <= j < |c| ==> r[j] == c[i := e][j];
  }

  /** Counting `x` when it heads the counter bumps the head in place. */
  lemma AddAtHead(c: Counter, x: int)
    requires Valid(c) && |c| > 0 && c[0].key == x
    ensures x in KeySet(c)
    ensures forall i :: 0 <= i < |c| && c[i].key == x ==>
              [Entry(x, c[0].count + 1)] + c[1..] == c[i := Entry(x, c[i].count + 1)]
  {
    assert c[0].key in KeySet(c);
    var r := [Entry(x, c[0].count + 1)] + c[1..];
    assert forall j :: 0 <= j < |c| ==> r[j] == c[0 := Entry(x, c[0].count + 1)][j];
  }

  /** Counting `x` past a first entry that is not `x`, on positions: every
      entry keeps its place and a new key goes to the end. */
  lemma AddPlacesBehindHead(c: Counter, x: int, t: Counter)
    requires Valid(c) && |c| > 0 && c[0].key != x
    requires x !in KeySet(c[1..]) ==> t == c[1..] + [Entry(x, 1)]
    requires forall i :: 0 <= i < |c[1..]| && c[1..][i].key == x ==> t == c[1..][i := Entry(x, c[1..][i].count + 1)]
    ensures x !in KeySet(c) ==> [c[0]] + t == c + [Entry(x, 1)]
    ensures forall i :: 0 <= i < |c| && c[i].key == x ==> [c[0]] + t == c[i := Entry(x, c[i].count + 1)]
  {
    KeySetCons(c);
    if x !in KeySet(c) {
      assert c == [c[0]] + c[1..];
    }
    forall i | 0 <= i < |c| && c[i].key == x
      ensures [c[0]] + t == c[i := Entry(x, c[i].count + 1)]
    {
      assert c[1..][i - 1].key == x;
      EntryPastHead(c, i, Entry(x, c[i].count + 1));
    }
  }

  /** Keeping the first entry, which is not `x`, in front of the rest with
      `x` counted once more counts `x` once more in the whole. */
  lemma AddBehindHead(c: Counter, x: int, t: Counter)
    requires Valid(c) && |c| > 0 && c[0].key != x
    requires Valid(t)
    requires Lookup(t, x) == Lookup(c[1..], x) + 1
    requires forall k :: k != x ==> Lookup(t, k) == Lookup(c[1..], k)
    requires Total(t) == Total(c[1..]) + 1
    requires KeySet(t) == KeySet(c[1..]) + {x}
    ensures var r := [c[0]] + t;
            && Valid(r)
            && Lookup(r, x) == Lookup(c, x) + 1
            && (forall k :: k != x ==> Lookup(r, k) == Lookup(c, k))
            && Total(r) == Total(c) + 1
            && KeySet(r) == KeySet(c) + {x}
  {
    var r := [c[0]] + t;
    assert r[1..] == t;
    KeySetCons(c);
    assert c[0].key !in KeySet(c[1..]);
    forall i | 0 <= i < |t|
      ensures t[i].key != c[0].key
    {
      assert t[i].key in KeySet(t);
    }
    KeySetCons(r);
  }

  /** `Counter(xs)`. */
  function CounterOf(xs: seq<int>): (c: Counter)
    ensures Valid(c)
    ensures forall k :: Lookup(c, k) == multiset(xs)[k]
    ensures Total(c) == |xs|
    ensures KeySet(c) == set x | x in xs
  {
    if |xs| == 0 then []
    else
      var front := xs[..|xs| - 1];
      assert xs == front + [xs[|xs| - 1]];
      Add(CounterOf(front), xs[|xs| - 1])
  }

  /** Counting `x` keeps every entry's key in its place, and a key not
      yet counted goes to the end. */
  lemma AddKeepsKeys(c: Counter, x: int)
    requires Valid(c)
    ensures |Add(c, x)| == if x in KeySet(c) then |c| else |c| + 1
    ensures forall i :: 0 <= i < |c| ==> Add(c, x)[i].key == c[i].key
    ensures x !in KeySet(c) ==> Add(c, x)[|c|].key == x
  {
    if x in KeySet(c) {
      var p :| 0 <= p < |c| && c[p].key == x;
    }
  }

  /** Entries in the order of their keys' first occurrences in `xs`. */
  predicate FirstOccurrenceOrder(c: Counter, xs: seq<int>) {
    forall i, j, q :: 0 <= i < j < |c| && 0 <= q < |xs| && xs[q] == c[j].key ==> c[i].key in xs[..q]
  }

  /** The entries of `Counter(xs)` follow the first occurrences of their
      keys in `xs`: wherever the key of a later entry occurs, the key of
      every earlier entry has already occurred. */
  lemma {:induction false} CounterOrder(xs: seq<int>)
    ensures FirstOccurrenceOrder(CounterOf(xs), xs)
    decreases |xs|
  {
    if |xs| > 0 {
      var n := |xs| - 1;
      var front, last := xs[..n], xs[n];
      assert xs == front + [last];
      var cf := CounterOf(front);
      assert CounterOf(xs) == Add(cf, last);
      CounterOrder(front);
      AddKeepsKeys(cf, last);
      OrderStep(front, last, cf, Add(cf, last));
    }
  }

  /** Counting one more value keeps the entries in first-occurrence order. */
  lemma OrderStep(front: seq<int>, last: int, cf: Counter, c: Counter)
    requires KeySet(cf) == set x | x in front
    requires FirstOccurrenceOrder(cf, front)
    requires |c| == if last in KeySet(cf) then |cf| else |cf| + 1
    requires forall k :: 0 <= k < |cf| ==> c[k].key == cf[k].key
    requires last !in KeySet(cf) ==> c[|cf|].key == last
    ensures FirstOccurrenceOrder(c, front + [last])
  {
    var xs := front + [last];
    var n := |front|;
    forall i, j, q | 0 <= i < j < |c| && 0 <= q < |xs| && xs[q] == c[j].key
      ensures c[i].key in xs[..q]
    {
      assert c[i].key == cf[i].key && cf[i].key in KeySet(cf);
      if q < n {
        assert xs[..q] == front[..q] && xs[q] == front[q];
        assert front[q] in KeySet(cf);
        assert j < |cf| && c[j].key == cf[j].key;
      } else {
        assert xs[..q] == front;
      }
    }
  }

  /** `Counter(xs).most_common(1)` reports a value of `xs` that occurs most
      often, and of those the one whose first occurrence comes first. */
  lemma MostCommonEarliest(xs: seq<int>)
    requires |xs| > 0
    ensures |CounterOf(xs)| > 0
    ensures var m := MostCommon(CounterOf(xs));
            && m in xs
            && (forall v :: multiset(xs)[v] <= multiset(xs)[m])
            && (forall q :: 0 <= q < |xs| && multiset(xs)[xs[q]] == multiset(xs)[m] ==> m in xs[..q + 1])
  {
    var c := CounterOf(xs);
    assert xs[0] in KeySet(c);
    CounterOrder(xs);
    EarliestOfOrdered(xs, c);
  }

  /** The earliest entry of maximal count, in a counter of `xs` whose
      entries follow first occurrences, is the most frequent value of `xs`
      that occurs first. */
  lemma EarliestOfOrdered(xs: seq<int>, c: Counter)
    requires Valid(c) && |c| > 0
    requires forall k :: Lookup(c, k) == multiset(xs)[k]
    requires KeySet(c) == set x | x in xs
    requires FirstOccurrenceOrder(c, xs)
    ensures var m := c[MostCommonAt(c)].key;
            && m in xs
            && (forall v :: multiset(xs)[v] <= multiset(xs)[m])
            && (forall q :: 0 <= q < |xs| && multiset(xs)[xs[q]] == multiset(xs)[m] ==> m in xs[..q + 1])
  {
    var a := MostCommonAt(c);
    var m := c[a].key;
    assert m in KeySet(c);
    LookupValid(c, a);
    forall v
      ensures multiset(xs)[v] <= multiset(xs)[m]
    {
      if v in KeySet(c) {
        var b :| 0 <= b < |c| && c[b].key == v;
        LookupValid(c, b);
      } else {
        LookupAbsent(c, v);
      }
    }
    forall q | 0 <= q < |xs| && multiset(xs)[xs[q]] == multiset(xs)[m]
      ensures m in xs[..q + 1]
    {
      assert xs[q] in KeySet(c);
      var b :| 0 <= b < |c| && c[b].key == xs[q];
      LookupValid(c, b);
      if b == a {
        assert xs[..q + 1][q] == m;
      } else {
        assert m in xs[..q];
        assert forall x :: x in xs[..q] ==> x in xs[..q + 1];
      }
    }
  }

  /** `v in c.values()`. */
  predicate HasCount(c: Counter, v: nat) {
    exists i :: 0 <= i < |c| && c[i].count == v
  }

  /** `list(c.values()).count(v)`. */
  function Tally(c: Counter, v: nat): nat {
    if |c| == 0 then 0
    else (if c[0].count == v then 1 else 0) + Tally(c[1..], v)
  }

  /** Position of the entry `most_common(1)` reports: the earliest entry whose
      count is maximal. */
  function MostCommonAt(c: Counter): (i: nat)
    requires |c| > 0
    ensures i < |c|
    ensures forall j :: 0 <= j < |c| ==> c[j].count <= c[i].count
    ensures forall j :: 0 <= j < i ==> c[j].count < c[i].count
  {
    if |c| == 1 then 0
    else
      var j := MostCommonAt(c[1..]);
      if c[0].count >= c[j + 1].count then 0 else j + 1
  }

  /** `c.most_common(1)[0][0]`. */
  function MostCommon(c: Counter): int
    requires |c| > 0
  {
    c[MostCommonAt(c)].key
  }

  /** `c.pop(k)`: the entry for `k` goes, the others keep their order. */
  function Pop(c: Counter, k: int): (r: Counter)
    requires Valid(c)
    requires k in KeySet(c)
    ensures Valid(r)
    ensures |r| == |c| - 1
    ensures Lookup(r, k) == 0
    ensures forall j :: j != k ==> Lookup(r, j) == Lookup(c, j)
    ensures forall i :: 0 <= i < |r| ==> r[i] in c
    ensures forall p :: 0 <= p < |c| && c[p].key == k ==> r == c[..p] + c[p + 1..]
  {
    if c[0].key == k then
      LookupAbsent(c[1..], k);
      c[1..]
    else
      KeySetCons(c);
      var t := Pop(c[1..], k);
      PopBehindHead(c, k, t);
      PopPlacesBehindHead(c, k, t);
      [c[0]] + t
  }

  /** Cutting position `p > 0` out of `c` is keeping the head and cutting
      position `p - 1` out of the tail. */
  lemma CutEntry(c: Counter, p: int)
    requires 0 < p < |c|
    ensures [c[0]] + (c[1..][..p - 1] + c[1..][p..]) == c[..p] + c[p + 1..]
  {
    assert c[1..][..p - 1] == c[1..p] && c[1..][p..] == c[p + 1..];
    assert [c[0]] + c[1..p] == c[..p];
  }

  /** Popping `k` past a first entry that is not `k`, on positions: the
      entry of `k` is cut out of its place. */
  lemma PopPlacesBehindHead(c: Counter, k: int, t: Counter)
    requires |c| > 0 && c[0].key != k
    requires forall p :: 0 <= p < |c[1..]| && c[1..][p].key == k ==> t == c[1..][..p] + c[1..][p + 1..]
    ensures forall p :: 0 <= p < |c| && c[p].key == k ==> [c[0]] + t == c[..p] + c[p + 1..]
  {
    forall p | 0 <= p < |c| && c[p].key == k
      ensures [c[0]] + t == c[..p] + c[p + 1..]
    {
      assert c[1..][p - 1].key == k;
      CutEntry(c, p);
    }
  }

  /** Keeping the first entry, which is not `k`, in front of the rest with
      `k` removed removes `k` from the whole. */
  lemma PopBehindHead(c: Counter, k: int, t: Counter)
    requires Valid(c) && |c| > 0 && c[0].key != k
    requires Valid(t) && |t| + 2 == |c|
    requires Lookup(t, k) == 0
    requires forall j :: j != k ==> Lookup(t, j) == Lookup(c[1..], j)
    requires forall i :: 0 <= i < |t| ==> t[i] in c[1..]
    ensures var r := [c[0]] + t;
            && Valid(r)
            && |r| == |c| - 1
            && Lookup(r, k) == 0
            && (forall j :: j != k ==> Lookup(r, j) == Lookup(c, j))
            && (forall i :: 0 <= i < |r| ==> r[i] in c)
  {
    var r := [c[0]] + t;
    assert r[1..] == t;
    forall i | 0 <= i < |t|
      ensures t[i].key != c[0].key && t[i] in c
    {
      var j :| 0 <= j < |c[1..]| && c[1..][j] == t[i];
      assert c[j + 1] == t[i];
    }
  }

  /** The largest count, the one `most_common(1)` reports. */
  function MaxCount(c: Counter): nat
    requires |c| > 0
  {
    c[MostCommonAt(c)].count
  }

  /** A counter of at most five entries, written out entry by entry. */
  lemma {:induction false} Expand(c: Counter)
    requires |c| <= 5
    ensures Total(c) == (if |c| > 0 then c[0].count else 0) + (if |c| > 1 then c[1].count else 0)
                        + (if |c| > 2 then c[2].count else 0) + (if |c| > 3 then c[3].count else 0)
                        + (if |c| > 4 then c[4].count else 0)
    ensures forall v :: Tally(c, v) == (if |c| > 0 && c[0].count == v then 1 else 0)
                                       + (if |c| > 1 && c[1].count == v then 1 else 0)
                                       + (if |c| > 2 && c[2].count == v then 1 else 0)
                                       + (if |c| > 3 && c[3].count == v then 1 else 0)
                                       + (if |c| > 4 && c[4].count == v then 1 else 0)
    ensures forall v :: HasCount(c, v) <==> (|c| > 0 && c[0].count == v) || (|c| > 1 && c[1].count == v)
                                            || (|c| > 2 && c[2].count == v) || (|c| > 3 && c[3].count == v)
                                            || (|c| > 4 && c[4].count == v)
  {
    if |c| > 0 {
      var t := c[1..];
      Expand(t);
      assert forall k :: 0 <= k < |t| ==> t[k] == c[k + 1];
      forall v
        ensures HasCount(c, v) <==> (c[0].count == v || HasCount(t, v))
      {
        if HasCount(c, v) {
          var i :| 0 <= i < |c| && c[i].count == v;
          if i > 0 {
            assert t[i - 1].count == v;
          }
        }
        if HasCount(t, v) {
          var i :| 0 <= i < |t| && t[i].count == v;
          assert c[i + 1].count == v;
        }
      }
    }
  }

  lemma {:induction false} TotalAtLeast(c: Counter, i: int)
    requires Valid(c) && 0 <= i < |c|
    ensures Total(c) >= c[i].count + |c| - 1
  {
    if i == 0 {
      TotalAtLeastLength(c[1..]);
    } else {
      TotalAtLeast(c[1..], i - 1);
    }
  }

  lemma {:induction false} TotalAtLeastLength(c: Counter)
    requires forall i :: 0 <= i < |c| ==> c[i].count >= 1
    ensures Total(c) >= |c|
  {
    if |c| > 0 {
      TotalAtLeastLength(c[1..]);
    }
  }

  /** How a five-card counter's `values()` tests read in terms of its number
      of entries (different ranks) and its largest count. */
  lemma CountShape(c: Counter)
    requires Valid(c) && Total(c) == 5
    ensures 1 <= |c| <= 5
    ensures HasCount(c, 5) <==> |c| == 1
    ensures HasCount(c, 4) <==> |c| == 2 && MaxCount(c) == 4
    ensures HasCount(c, 3) && HasCount(c, 2) <==> |c| == 2 && MaxCount(c) == 3
    ensures HasCount(c, 3) && !HasCount(c, 2) <==> |c| == 3 && MaxCount(c) == 3
    ensures Tally(c, 2) == 2 <==> |c| == 3 && MaxCount(c) == 2
    ensures HasCount(c, 2) && Tally(c, 2) != 2 && !HasCount(c, 3) <==> |c| == 4
    ensures !HasCount(c, 2) && !HasCount(c, 3) && !HasCount(c, 4) && !HasCount(c, 5) <==> |c| == 5
    ensures |c| == 1 ==> MaxCount(c) == 5
    ensures |c| == 2 ==> MaxCount(c) == 3 || MaxCount(c) == 4
    ensures |c| == 3 ==> MaxCount(c) == 2 || MaxCount(c) == 3
    ensures |c| == 4 ==> MaxCount(c) == 2
    ensures |c| == 5 <==> MaxCount(c) == 1
  {
    TotalAtLeastLength(c);
    assert |c| > 0;
    Expand(c);
    var m := MostCommonAt(c);
    assert m < 5;
  }

  /** Distinct keys: as many entries as keys. */
  lemma {:induction false} KeySetSize(c: Counter)
    requires Valid(c)
    ensures |KeySet(c)| == |c|
  {
    if |c| > 0 {
      KeySetCons(c);
      KeySetSize(c[1..]);
      assert c[0].key !in KeySet(c[1..]);
    }
  }
}
