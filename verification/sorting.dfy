/** Python's `list.sort(key=...)`: a stable sort by an integer key. Stability
    means elements with equal keys keep the order they had; `reverse=True`
    is the same sort on the negated key. */
module Sorting {

  predicate SortedBy<T>(s: seq<T>, key: T -> int) {
    forall i, j :: 0 <= i < j < |s| ==> key(s[i]) <= key(s[j])
  }

  lemma SortedHeadLeast<T>(s: seq<T>, key: T -> int)
    requires SortedBy(s, key) && |s| > 0
    ensures forall y :: y in s ==> key(s[0]) <= key(y)
    ensures forall i :: 0 <= i < |s| ==> key(s[0]) <= key(s[i])
  {
    forall y | y in s ensures key(s[0]) <= key(y) {
      var j :| 0 <= j < |s| && s[j] == y;
    }
  }

  lemma SortedCons<T>(h: T, t: seq<T>, key: T -> int)
    requires SortedBy(t, key)
    requires forall i :: 0 <= i < |t| ==> key(h) <= key(t[i])
    ensures SortedBy([h] + t, key)
  {
    var r := [h] + t;
    forall i, j | 0 <= i < j < |r| ensures key(r[i]) <= key(r[j]) {
      assert r[j] == t[j - 1];
      if i > 0 {
        assert r[i] == t[i - 1];
      }
    }
  }

  lemma SortedTail<T>(s: seq<T>, key: T -> int)
    requires SortedBy(s, key) && |s| > 0
    ensures SortedBy(s[1..], key)
  {
    forall i, j | 0 <= i < j < |s[1..]| ensures key(s[1..][i]) <= key(s[1..][j]) {
      assert s[1..][i] == s[i + 1] && s[1..][j] == s[j + 1];
    }
  }

  /** Places `x` in front of the first element whose key is not smaller. */
  function InsertBy<T>(x: T, s: seq<T>, key: T -> int): (r: seq<T>)
    requires SortedBy(s, key)
    ensures |r| == |s| + 1
    ensures multiset(r) == multiset(s) + multiset{x}
    ensures forall i :: 0 <= i < |r| ==> r[i] == x || r[i] in s
    ensures SortedBy(r, key)
  {
    if |s| == 0 then
      [x]
    else if key(x) <= key(s[0]) then
      SortedHeadLeast(s, key);
      SortedCons(x, s, key);
      [x] + s
    else
      SortedTail(s, key);
      var t := InsertBy(x, s[1..], key);
      InsertBehindHead(x, s, t, key);
      [s[0]] + t
  }

  /** The head of `s` stays in front when `x` goes into the tail `t`. */
  lemma InsertBehindHead<T>(x: T, s: seq<T>, t: seq<T>, key: T -> int)
    requires SortedBy(s, key) && |s| > 0 && key(s[0]) < key(x)
    requires multiset(t) == multiset(s[1..]) + multiset{x}
    requires forall i :: 0 <= i < |t| ==> t[i] == x || t[i] in s[1..]
    requires SortedBy(t, key)
    ensures multiset([s[0]] + t) == multiset(s) + multiset{x}
    ensures forall i :: 0 <= i < |[s[0]] + t| ==> ([s[0]] + t)[i] == x || ([s[0]] + t)[i] in s
    ensures SortedBy([s[0]] + t, key)
  {
    assert s == [s[0]] + s[1..];
    SortedHeadLeast(s, key);
    forall i | 0 <= i < |t|
      ensures key(s[0]) <= key(t[i])
    {
      if t[i] != x {
        assert t[i] in s;
      }
    }
    SortedCons(s[0], t, key);
    var r := [s[0]] + t;
    forall i | 0 <= i < |r|
      ensures r[i] == x || r[i] in s
    {
      if i > 0 {
        assert r[i] == t[i - 1];
      }
    }
  }

  /** Insertion sort; each element goes in front of the later elements
      that share its key, which keeps the sort stable. */
  function SortBy<T>(s: seq<T>, key: T -> int): (r: seq<T>)
    ensures |r| == |s|
    ensures multiset(r) == multiset(s)
    ensures SortedBy(r, key)
  {
    if |s| == 0 then []
    else
      assert s == [s[0]] + s[1..];
      InsertBy(s[0], SortBy(s[1..], key), key)
  }

  /** The elements whose key is `v`, in order. */
  function WithKey<T>(s: seq<T>, key: T -> int, v: int): (r: seq<T>)
    ensures forall i :: 0 <= i < |r| ==> key(r[i]) == v
  {
    if |s| == 0 then []
    else if key(s[0]) == v then [s[0]] + WithKey(s[1..], key, v)
    else WithKey(s[1..], key, v)
  }

  lemma WithKeyCons<T>(h: T, t: seq<T>, key: T -> int, v: int)
    ensures WithKey([h] + t, key, v) == (if key(h) == v then [h] else []) + WithKey(t, key, v)
  {
    assert ([h] + t)[1..] == t;
  }

  lemma {:induction false} WithKeyInsert<T>(x: T, s: seq<T>, key: T -> int, v: int)
    requires SortedBy(s, key)
    ensures WithKey(InsertBy(x, s, key), key, v) ==
            (if key(x) == v then [x] else []) + WithKey(s, key, v)
  {
    if |s| == 0 {
      WithKeyCons(x, s, key, v);
    } else if key(x) <= key(s[0]) {
      WithKeyCons(x, s, key, v);
    } else {
      SortedTail(s, key);
      var t := InsertBy(x, s[1..], key);
      assert InsertBy(x, s, key) == [s[0]] + t;
      var px: seq<T> := if key(x) == v then [x] else [];
      var ph: seq<T> := if key(s[0]) == v then [s[0]] else [];
      var rest := WithKey(s[1..], key, v);
      WithKeyCons(s[0], t, key, v);
      WithKeyInsert(x, s[1..], key, v);
      assert WithKey(t, key, v) == px + rest;
      assert WithKey(s, key, v) == ph + rest;
      if px == [] {
        assert px + (ph + rest) == ph + rest;
        assert ph + (px + rest) == ph + rest;
      } else {
        assert ph == [];
        assert ph + (px + rest) == px + rest;
      }
    }
  }

  /** Stability: for every key value, the elements carrying it come out of
      the sort in the order they went in. */
  lemma {:induction false} SortByStable<T>(s: seq<T>, key: T -> int, v: int)
    ensures WithKey(SortBy(s, key), key, v) == WithKey(s, key, v)
  {
    if |s| > 0 {
      SortByStable(s[1..], key, v);
      WithKeyInsert(s[0], SortBy(s[1..], key), key, v);
    }
  }

  /** A list already in key order is left as it is. */
  lemma {:induction false} SortBySorted<T>(s: seq<T>, key: T -> int)
    requires SortedBy(s, key)
    ensures SortBy(s, key) == s
  {
    if |s| > 0 {
      var t := s[1..];
      SortedTail(s, key);
      SortBySorted(t, key);
      assert s == [s[0]] + t;
      assert SortBy(s, key) == InsertBy(s[0], t, key);
      if |t| > 0 {
        assert key(s[0]) <= key(t[0]) by {
          assert t[0] == s[1];
        }
      }
      assert InsertBy(s[0], t, key) == [s[0]] + t;
    }
  }

  /** Two elements already in key order stay where they are. */
  lemma SortTwo<T>(x: T, y: T, key: T -> int)
    requires key(x) <= key(y)
    ensures SortBy([x, y], key) == [x, y]
  {
    assert SortedBy([x, y], key);
    SortBySorted([x, y], key);
  }

  lemma SortThree<T>(x: T, y: T, z: T, key: T -> int)
    requires key(x) <= key(y) <= key(z)
    ensures SortBy([x, y, z], key) == [x, y, z]
  {
    assert SortedBy([x, y, z], key);
    SortBySorted([x, y, z], key);
  }
}
