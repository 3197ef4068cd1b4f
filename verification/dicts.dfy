/** Python's `dict`: a finite map that remembers the order in which its keys
    were first inserted. Assigning to a present key keeps its place; `pop`
    removes the key; a missing key raises `KeyError`. */
module Dicts {
  import opened Results

  /** Keys are user names, the only keys the engine uses. */
  datatype Dict<V> = Dict(keys: seq<string>, values: map<string, V>)

  /** Each key listed once, and listed exactly when it has a value. */
  predicate Valid<V>(d: Dict<V>) {
    && Distinct(d.keys)
    && (forall k :: k in d.values ==> k in d.keys)
    && (forall i :: 0 <= i < |d.keys| ==> d.keys[i] in d.values)
  }

  function Empty<V>(): (d: Dict<V>)
    ensures Valid(d) && |d.keys| == 0
  {
    Dict([], map[])
  }

  /** `d[k] = v`. */
  function Put<V>(d: Dict<V>, k: string, v: V): (r: Dict<V>)
    ensures r.values == d.values[k := v]
    ensures k in d.keys ==> r.keys == d.keys
    ensures k !in d.keys ==> r.keys == d.keys + [k]
    ensures Valid(d) ==> Valid(r)
  {
    Dict(if k in d.keys then d.keys else d.keys + [k], d.values[k := v])
  }

  /** `d[k]`. */
  function Get<V>(d: Dict<V>, k: string): (r: Result<V>)
    ensures r.Ok? <==> k in d.values
    ensures r.Ok? ==> r.value == d.values[k]
    ensures r.Err? ==> r.error == KeyError
  {
    if k in d.values then Ok(d.values[k]) else Err(KeyError)
  }

  /** The key list with `k` taken out wherever it occurs. A list without
      `k` is left as it is; a single occurrence of `k` leaves its place and
      the keys around it keep their order. */
  function Without(s: seq<string>, k: string): (r: seq<string>)
    ensures forall x :: x in r <==> x in s && x != k
    ensures |r| <= |s|
    ensures k !in s ==> r == s
    ensures forall i :: 0 <= i < |s| && s[i] == k && k !in s[..i] && k !in s[i + 1..] ==>
              r == s[..i] + s[i + 1..]
  {
    if |s| == 0 then []
    else if s[0] == k then Without(s[1..], k)
    else
      var t := Without(s[1..], k);
      WithoutCons(s, k, t);
      [s[0]] + t
  }

  /** Cutting position `i > 0` out of `s` is keeping the head and cutting
      position `i - 1` out of the tail. */
  lemma CutCons(s: seq<string>, i: int)
    requires 0 < i < |s|
    ensures s[1..][..i - 1] == s[1..i] && s[1..][i..] == s[i + 1..]
    ensures [s[0]] + (s[1..][..i - 1] + s[1..][i..]) == s[..i] + s[i + 1..]
  {
    assert [s[0]] + s[1..i] == s[..i];
  }

  /** The recursive step of `Without` past a head that stays. */
  lemma WithoutCons(s: seq<string>, k: string, t: seq<string>)
    requires |s| > 0 && s[0] != k
    requires k !in s[1..] ==> t == s[1..]
    requires forall j :: 0 <= j < |s[1..]| && s[1..][j] == k && k !in s[1..][..j] && k !in s[1..][j + 1..] ==>
               t == s[1..][..j] + s[1..][j + 1..]
    ensures k !in s ==> [s[0]] + t == s
    ensures forall i :: 0 <= i < |s| && s[i] == k && k !in s[..i] && k !in s[i + 1..] ==>
              [s[0]] + t == s[..i] + s[i + 1..]
  {
    if k !in s {
      assert s == [s[0]] + s[1..];
    }
    forall i | 0 <= i < |s| && s[i] == k && k !in s[..i] && k !in s[i + 1..]
      ensures [s[0]] + t == s[..i] + s[i + 1..]
    {
      CutCons(s, i);
      assert s[1..][i - 1] == k;
      assert forall x :: x in s[1..i] ==> x in s[..i];
    }
  }

  lemma WithoutAppend(s: seq<string>, k: string)
    requires k !in s
    ensures Without(s + [k], k) == s
  {
    var t := s + [k];
    assert t[|s|] == k && t[..|s|] == s && t[|s| + 1..] == [];
  }

  predicate Distinct(s: seq<string>) {
    forall i, j :: 0 <= i < j < |s| ==> s[i] != s[j]
  }

  /** The tail of a list without repeats has none, and lacks the head. */
  lemma DistinctTail(ps: seq<string>)
    requires Distinct(ps) && |ps| > 0
    ensures Distinct(ps[1..]) && ps[0] !in ps[1..]
  {
    forall i, j | 0 <= i < j < |ps[1..]| ensures ps[1..][i] != ps[1..][j] {
      assert ps[1..][i] == ps[i + 1] && ps[1..][j] == ps[j + 1];
    }
  }

  /** A list without repeats holds each value at most once. */
  lemma {:induction false} DistinctCounts(s: seq<string>)
    requires Distinct(s)
    ensures forall x :: multiset(s)[x] <= 1
  {
    if |s| > 0 {
      DistinctTail(s);
      DistinctCounts(s[1..]);
      assert s == [s[0]] + s[1..];
      assert multiset(s[1..])[s[0]] == 0;
    }
  }

  /** A value at two positions is held at least twice. */
  lemma RepeatCounts(s: seq<string>, i: int, j: int)
    requires 0 <= i < j < |s|
    ensures s[i] == s[j] ==> multiset(s)[s[i]] >= 2
  {
    if s[i] == s[j] {
      assert s == s[..j] + s[j..];
      assert s[i] in s[..j] && s[j] in s[j..];
    }
  }

  /** Rearranging a list without repeats gives a list without repeats. */
  lemma DistinctPermutation(xs: seq<string>, ys: seq<string>)
    requires multiset(xs) == multiset(ys) && Distinct(xs)
    ensures Distinct(ys)
  {
    DistinctCounts(xs);
    forall i, j | 0 <= i < j < |ys| ensures ys[i] != ys[j] {
      RepeatCounts(ys, i, j);
    }
  }

  /** Dropping entries keeps every remaining key listed once. */
  lemma {:induction false} WithoutDistinct(s: seq<string>, k: string)
    requires Distinct(s)
    ensures Distinct(Without(s, k))
  {
    if |s| > 0 {
      assert Distinct(s[1..]) by {
        forall i, j | 0 <= i < j < |s[1..]| ensures s[1..][i] != s[1..][j] {
          assert s[1..][i] == s[i + 1] && s[1..][j] == s[j + 1];
        }
      }
      WithoutDistinct(s[1..], k);
      var t := Without(s[1..], k);
      assert s[0] !in s[1..];
      assert s[0] !in t;
      if s[0] != k {
        DistinctCons(s[0], t);
      }
    }
  }

  /** A new key in front of a list without repeats. */
  lemma DistinctCons(h: string, t: seq<string>)
    requires Distinct(t) && h !in t
    ensures Distinct([h] + t)
  {
    var r := [h] + t;
    forall i, j | 0 <= i < j < |r| ensures r[i] != r[j] {
      if i == 0 {
        assert r[j] == t[j - 1];
      } else {
        assert r[i] == t[i - 1] && r[j] == t[j - 1];
      }
    }
  }

  /** `d.pop(k)`: the dictionary without `k`, or `KeyError`. The key
      leaves its place in the order and the other keys keep theirs. */
  function Pop<V>(d: Dict<V>, k: string): (r: Result<Dict<V>>)
    ensures r.Ok? <==> k in d.values
    ensures r.Err? ==> r.error == KeyError
    ensures r.Ok? ==> r.value.values == d.values - {k} && k !in r.value.keys
    ensures r.Ok? ==> forall x :: x in r.value.keys <==> x in d.keys && x != k
    ensures r.Ok? && Distinct(d.keys) ==>
              forall i :: 0 <= i < |d.keys| && d.keys[i] == k ==> r.value.keys == d.keys[..i] + d.keys[i + 1..]
  {
    if k in d.values then
      WithoutOnce(d.keys, k);
      Ok(Dict(Without(d.keys, k), d.values - {k}))
    else Err(KeyError)
  }

  /** In a list without repeats, `k` occurs at most once, so taking it out
      cuts exactly its position. */
  lemma WithoutOnce(s: seq<string>, k: string)
    ensures Distinct(s) ==>
              forall i :: 0 <= i < |s| && s[i] == k ==> Without(s, k) == s[..i] + s[i + 1..]
  {
    if Distinct(s) {
      forall i | 0 <= i < |s| && s[i] == k
        ensures k !in s[..i] && k !in s[i + 1..]
      {
        var front, back := s[..i], s[i + 1..];
        forall x | x in front ensures x != k {
          var j :| 0 <= j < |front| && front[j] == x;
          assert s[j] == x;
        }
        forall x | x in back ensures x != k {
          var j :| 0 <= j < |back| && back[j] == x;
          assert s[i + 1 + j] == x;
        }
      }
    }
  }

  /** Popping keeps a well-formed dictionary well formed. */
  lemma PopKeepsValid<V>(d: Dict<V>, k: string)
    requires Valid(d) && k in d.values
    ensures Valid(Pop(d, k).value)
  {
    var r := Pop(d, k).value;
    WithoutDistinct(d.keys, k);
    forall i | 0 <= i < |r.keys| ensures r.keys[i] in r.values {
      assert r.keys[i] in r.keys;
    }
  }

  /** Popping a key that was just inserted gives back the dictionary from
      before the insertion. */
  lemma PopUndoesPut<V>(d: Dict<V>, k: string, v: V)
    requires Valid(d) && k !in d.values
    ensures Pop(Put(d, k, v), k) == Ok(d)
  {
    WithoutAppend(d.keys, k);
    assert d.values[k := v] - {k} == d.values;
  }
}
