/** Small facts about integer sequences that the card model leans on:
    extremes (Python's `max`/`min`), ascending order, sorting (Python's
    `list.sort` on integers) and removal of one occurrence (`list.remove`). */
module Seqs {

  /** Largest element of a non-empty sequence. */
  function Max(s: seq<int>): (m: int)
    requires |s| > 0
    ensures m in s
    ensures forall i :: 0 <= i < |s| ==> s[i] <= m
  {
    if |s| == 1 then s[0]
    else
      var t := Max(s[1..]);
      if s[0] >= t then s[0] else t
  }

  /** Smallest element of a non-empty sequence. */
  function Min(s: seq<int>): (m: int)
    requires |s| > 0
    ensures m in s
    ensures forall i :: 0 <= i < |s| ==> m <= s[i]
  {
    if |s| == 1 then s[0]
    else
      var t := Min(s[1..]);
      if s[0] <= t then s[0] else t
  }

  /** The extreme a high bettor or a low bettor is after. */
  function Extreme(s: seq<int>, high: bool): (m: int)
    requires |s| > 0
    ensures m in s
    ensures high ==> forall i :: 0 <= i < |s| ==> s[i] <= m
    ensures !high ==> forall i :: 0 <= i < |s| ==> m <= s[i]
  {
    if high then Max(s) else Min(s)
  }

  predicate Ascending(s: seq<int>) {
    forall i, j :: 0 <= i < j < |s| ==> s[i] <= s[j]
  }

  predicate StrictlyAscending(s: seq<int>) {
    forall i, j :: 0 <= i < j < |s| ==> s[i] < s[j]
  }

  function Insert(x: int, s: seq<int>): (r: seq<int>)
    requires Ascending(s)
    ensures Ascending(r)
    ensures multiset(r) == multiset(s) + multiset{x}
    ensures |r| == |s| + 1
    ensures r[0] == x || (|s| > 0 && r[0] == s[0])
  {
    if |s| == 0 then [x]
    else if x <= s[0] then [x] + s
    else
      var t := Insert(x, s[1..]);
      InsertPastHead(x, s, t);
      [s[0]] + t
  }

  /** Keeping the head, which is below `x`, in front of the tail with `x`
      inserted inserts `x` into the whole. */
  lemma InsertPastHead(x: int, s: seq<int>, t: seq<int>)
    requires Ascending(s) && |s| > 0 && s[0] < x
    requires Ascending(t) && |t| == |s| && multiset(t) == multiset(s[1..]) + multiset{x}
    requires t[0] == x || (|s| > 1 && t[0] == s[1])
    ensures Ascending([s[0]] + t)
    ensures multiset([s[0]] + t) == multiset(s) + multiset{x}
  {
    assert s == [s[0]] + s[1..];
    AscendingCons(s[0], t);
  }

  /** A value no larger than the head of an ascending list extends it. */
  lemma AscendingCons(h: int, t: seq<int>)
    requires Ascending(t) && (|t| > 0 ==> h <= t[0])
    ensures Ascending([h] + t)
  {
    var r := [h] + t;
    forall i, j | 0 <= i < j < |r|
      ensures r[i] <= r[j]
    {
      if i == 0 && j > 1 {
        assert t[0] <= t[j - 1];
      }
    }
  }

  /** Python's `list.sort()` on integers: the ascending permutation. */
  function Sort(s: seq<int>): (r: seq<int>)
    ensures Ascending(r)
    ensures multiset(r) == multiset(s)
    ensures |r| == |s|
  {
    if |s| == 0 then []
    else
      assert s == s[..|s| - 1] + [s[|s| - 1]];
      Insert(s[|s| - 1], Sort(s[..|s| - 1]))
  }

  lemma MultisetTail(a: seq<int>)
    requires |a| > 0
    ensures multiset(a[1..]) == multiset(a) - multiset{a[0]}
  {
    assert a == [a[0]] + a[1..];
  }

  /** An ascending sequence starts with its least element. */
  lemma AscendingHeadIsLeast(a: seq<int>, x: int)
    requires Ascending(a) && x in multiset(a)
    ensures |a| > 0 && a[0] <= x
  {
    assert x in a;
  }

  /** Two ascending arrangements of the same non-empty multiset start with
      the same value. */
  lemma SameHead(a: seq<int>, b: seq<int>)
    requires Ascending(a) && Ascending(b) && |a| > 0
    requires multiset(a) == multiset(b)
    ensures |b| > 0 && a[0] == b[0]
  {
    assert a[0] in multiset(b) by { assert a[0] in a; }
    AscendingHeadIsLeast(b, a[0]);
    assert b[0] in multiset(a) by { assert b[0] in b; }
    AscendingHeadIsLeast(a, b[0]);
  }

  lemma AscendingTail(a: seq<int>)
    requires Ascending(a) && |a| > 0
    ensures Ascending(a[1..])
  {
  }

  /** There is only one ascending arrangement of a multiset, so two sorts of
      the same values agree element by element. */
  lemma {:induction false} SortedUnique(a: seq<int>, b: seq<int>)
    requires Ascending(a) && Ascending(b)
    requires multiset(a) == multiset(b)
    ensures a == b
    decreases |a|
  {
    if |a| == 0 {
      assert |multiset(b)| == 0;
    } else {
      SameHead(a, b);
      MultisetTail(a);
      MultisetTail(b);
      AscendingTail(a);
      AscendingTail(b);
      SortedUnique(a[1..], b[1..]);
      assert a == [a[0]] + a[1..];
      assert b == [b[0]] + b[1..];
    }
  }

  /** Sorting forgets the order of its input: only the values matter. */
  lemma SortDependsOnValues(a: seq<int>, b: seq<int>)
    requires multiset(a) == multiset(b)
    ensures Sort(a) == Sort(b)
  {
    SortedUnique(Sort(a), Sort(b));
  }

  /** The largest element depends only on the values present. */
  lemma MaxDependsOnValues(a: seq<int>, b: seq<int>)
    requires |a| > 0 && multiset(a) == multiset(b)
    ensures |b| > 0 && Max(a) == Max(b)
  {
    assert Max(a) in multiset(b);
    assert |b| > 0;
    assert Max(b) in multiset(a);
  }

  /** A strictly ascending sequence is determined by the set of its
      elements. */
  lemma {:induction false} AscendingSameElements(a: seq<int>, b: seq<int>)
    requires StrictlyAscending(a) && StrictlyAscending(b)
    requires forall x :: x in a <==> x in b
    ensures a == b
    decreases |a|
  {
    assert |a| > 0 ==> a[0] in a && a[0] in b;
    assert |b| > 0 ==> b[0] in b && b[0] in a;
    if |a| > 0 && |b| > 0 {
      assert a[0] == b[0] by {
        var k :| 0 <= k < |b| && b[k] == a[0];
        var l :| 0 <= l < |a| && a[l] == b[0];
      }
      forall x
        ensures x in a[1..] <==> x in b[1..]
      {
        if x in a[1..] {
          var k :| 1 <= k < |a| && a[k] == x;
          assert x in b && x != b[0];
          var l :| 0 <= l < |b| && b[l] == x;
          assert b[1..][l - 1] == x;
        }
        if x in b[1..] {
          var k :| 1 <= k < |b| && b[k] == x;
          assert x in a && x != a[0];
          var l :| 0 <= l < |a| && a[l] == x;
          assert a[1..][l - 1] == x;
        }
      }
      AscendingSameElements(a[1..], b[1..]);
      assert a == [a[0]] + a[1..];
      assert b == [b[0]] + b[1..];
    }
  }

  /** Python's `list.remove(x)`: drops the first occurrence of `x`. */
  function RemoveFirst(s: seq<int>, x: int): (r: seq<int>)
    requires x in s
    ensures multiset(r) == multiset(s) - multiset{x}
    ensures |r| == |s| - 1
  {
    if s[0] == x then
      assert s == [s[0]] + s[1..];
      s[1..]
    else
      assert s == [s[0]] + s[1..];
      [s[0]] + RemoveFirst(s[1..], x)
  }

  /** The sequence read from back to front. */
  function Reverse<T>(s: seq<T>): (r: seq<T>)
    ensures |r| == |s|
    ensures forall i :: 0 <= i < |s| ==> r[i] == s[|s| - 1 - i]
  {
    if |s| == 0 then [] else [s[|s| - 1]] + Reverse(s[..|s| - 1])
  }

  lemma ReverseMultiset<T>(s: seq<T>)
    ensures multiset(Reverse(s)) == multiset(s)
  {
    if |s| > 0 {
      assert s == s[..|s| - 1] + [s[|s| - 1]];
      ReverseMultiset(s[..|s| - 1]);
    }
  }

  /** Ranks from highest to lowest. */
  function Descending(xs: seq<int>): (r: seq<int>)
    ensures |r| == |xs|
    ensures multiset(r) == multiset(xs)
  {
    ReverseMultiset(Sort(xs));
    Reverse(Sort(xs))
  }

  /** The last element of the ascending order is the largest. */
  lemma SortLastIsMax(xs: seq<int>)
    requires |xs| > 0
    ensures Sort(xs)[|xs| - 1] == Max(xs)
  {
    var s := Sort(xs);
    var m := Max(xs);
    assert s[|s| - 1] in multiset(s);
    assert s[|s| - 1] in xs;
    assert m in multiset(xs);
    var j :| 0 <= j < |s| && s[j] == m;
    assert s[j] <= s[|s| - 1];
  }

  /** Two ascending arrangements, one holding one copy of its last element
      fewer than the other: the shorter is the longer less that element. */
  lemma AscendingDropLast(s: seq<int>, t: seq<int>)
    requires |s| > 0 && Ascending(s) && Ascending(t)
    requires multiset(t) == multiset(s) - multiset{s[|s| - 1]}
    ensures t == s[..|s| - 1]
  {
    assert s == s[..|s| - 1] + [s[|s| - 1]];
    SortedUnique(t, s[..|s| - 1]);
  }

  /** Dropping one copy of the largest element drops the last element of the
      ascending order. */
  lemma SortDropMax(xs: seq<int>)
    requires |xs| > 0
    ensures Sort(RemoveFirst(xs, Max(xs))) == Sort(xs)[..|xs| - 1]
  {
    SortLastIsMax(xs);
    AscendingDropLast(Sort(xs), Sort(RemoveFirst(xs, Max(xs))));
  }

  lemma ReverseDropLast(s: seq<int>)
    requires |s| > 0
    ensures Reverse(s[..|s| - 1]) == Reverse(s)[1..]
  {
  }

  /** The descending order starts with the largest rank, and dropping one
      copy of it leaves the rest of the descending order. */
  lemma DescendingHead(xs: seq<int>)
    requires |xs| > 0
    ensures Descending(xs)[0] == Max(xs)
    ensures Descending(RemoveFirst(xs, Max(xs))) == Descending(xs)[1..]
  {
    SortLastIsMax(xs);
    SortDropMax(xs);
    ReverseDropLast(Sort(xs));
  }

  /** Five different values make five kinds. */
  lemma FiveKinds(a: int, b: int, c: int, d: int, e: int)
    requires a != b && a != c && a != d && a != e
    requires b != c && b != d && b != e
    requires c != d && c != e && d != e
    ensures |set r | r in [a, b, c, d, e]| == 5
  {
    assert (set r | r in [a, b, c, d, e]) == {a, b, c, d} + {e};
    assert |{a, b}| == 2 by { assert {a, b} == {a} + {b}; }
    assert |{a, b, c}| == 3 by { assert {a, b, c} == {a, b} + {c}; }
    assert |{a, b, c, d}| == 4 by { assert {a, b, c, d} == {a, b, c} + {d}; }
  }

  /** Sum of an integer sequence. */
  function Sum(s: seq<int>): int {
    if |s| == 0 then 0 else s[0] + Sum(s[1..])
  }

  lemma SumAppend(a: seq<int>, b: seq<int>)
    ensures Sum(a + b) == Sum(a) + Sum(b)
  {
    if |a| == 0 {
      assert a + b == b;
    } else {
      assert (a + b)[1..] == a[1..] + b;
      SumAppend(a[1..], b);
    }
  }

  /** Lexicographic order on sequences of equal length. */
  predicate LexLe(a: seq<int>, b: seq<int>)
    requires |a| == |b|
  {
    |a| == 0 || a[0] < b[0] || (a[0] == b[0] && LexLe(a[1..], b[1..]))
  }

  lemma LexLeReflexive(a: seq<int>)
    ensures LexLe(a, a)
  {
    if |a| > 0 {
      LexLeReflexive(a[1..]);
    }
  }

  lemma {:induction false} LexLeAntisymmetric(a: seq<int>, b: seq<int>)
    requires |a| == |b|
    requires LexLe(a, b) && LexLe(b, a)
    ensures a == b
  {
    if |a| > 0 {
      LexLeAntisymmetric(a[1..], b[1..]);
      assert a == [a[0]] + a[1..];
      assert b == [b[0]] + b[1..];
    }
  }

  /** The `k`-th of strictly ascending naturals is at least `k`. */
  lemma {:induction false} AscendingAtLeastPosition(r: seq<nat>)
    requires StrictlyAscending(r)
    ensures forall k :: 0 <= k < |r| ==> r[k] >= k
  {
    if |r| > 0 {
      var front := r[..|r| - 1];
      AscendingAtLeastPosition(front);
      assert forall k :: 0 <= k < |front| ==> front[k] == r[k];
      if |r| > 1 {
        assert r[|r| - 2] < r[|r| - 1];
      }
    }
  }

  /** Every member below `n` means every entry below `n`. */
  lemma MembersBelow(r: seq<nat>, n: nat)
    requires forall i :: i in r ==> i < n
    ensures forall k :: 0 <= k < |r| ==> r[k] < n
  {
    forall k | 0 <= k < |r|
      ensures r[k] < n
    {
      assert r[k] in r;
    }
  }
}
