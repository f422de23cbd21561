/** Sequence combinators shared by the projections: filters, sums, first-appearance
    de-duplication, grouping by a key, and the "row with the latest version" choice. */
module Seqs {
  import opened Wrappers

  /** No element occurs twice. */
  ghost predicate NoDups<T>(xs: seq<T>) {
    forall i, j :: 0 <= i < j < |xs| ==> xs[i] != xs[j]
  }

  /** A sequence without duplicates has as many elements as its set of elements. */
  lemma {:induction false} NoDupsCard<T>(xs: seq<T>)
    requires NoDups(xs)
    ensures |set x | x in xs| == |xs|
  {
    if |xs| > 0 {
      var init, last := xs[..|xs| - 1], xs[|xs| - 1];
      assert xs == init + [last];
      NoDupsCard(init);
      assert last !in init;
      assert (set x | x in xs) == (set x | x in init) + {last};
    }
  }

  /** Concatenation is associative (stated once so that callers need no extensionality). */
  lemma AppendAssoc<T>(a: seq<T>, b: seq<T>, c: seq<T>)
    ensures (a + b) + c == a + (b + c)
  {
  }

  /** `[f(x) for x in xs]`. */
  function Map<A, B>(xs: seq<A>, f: A -> B): (r: seq<B>)
    ensures |r| == |xs|
    ensures forall i :: 0 <= i < |xs| ==> r[i] == f(xs[i])
  {
    seq(|xs|, i requires 0 <= i < |xs| => f(xs[i]))
  }

  /** A sequence whose tail is `Map(xs, f)` has `f(xs[i - 1])` at every position `i` after its head. */
  lemma MapAfterHead<A, B>(r: seq<B>, xs: seq<A>, f: A -> B)
    requires |r| >= 1 && r[1..] == Map(xs, f)
    ensures forall i :: 1 <= i < |r| ==> r[i] == f(xs[i - 1])
  {
    assert forall i :: 1 <= i < |r| ==> r[i] == r[1..][i - 1];
  }

  /** Mapping one more element appends its image. */
  lemma MapSnoc<A, B>(xs: seq<A>, f: A -> B)
    requires |xs| > 0
    ensures Map(xs, f) == Map(xs[..|xs| - 1], f) + [f(xs[|xs| - 1])]
  {
    var r, q := Map(xs, f), Map(xs[..|xs| - 1], f) + [f(xs[|xs| - 1])];
    forall i | 0 <= i < |r| ensures r[i] == q[i] {
      if i < |xs| - 1 {
        assert xs[..|xs| - 1][i] == xs[i];
      }
    }
  }

  /** Sum of `val` over the elements, left to right (Python `sum`). */
  function SumBy<T>(xs: seq<T>, val: T -> int): int {
    if |xs| == 0 then 0
    else SumBy(xs[..|xs| - 1], val) + val(xs[|xs| - 1])
  }

  lemma SumBySnoc<T>(xs: seq<T>, x: T, val: T -> int)
    ensures SumBy(xs + [x], val) == SumBy(xs, val) + val(x)
  {
    assert (xs + [x])[..|xs|] == xs;
  }

  lemma {:induction false} SumByAppend<T>(xs: seq<T>, ys: seq<T>, val: T -> int)
    ensures SumBy(xs + ys, val) == SumBy(xs, val) + SumBy(ys, val)
  {
    if |ys| == 0 {
      assert xs + ys == xs;
    } else {
      var ys' := ys[..|ys| - 1];
      assert (xs + ys)[..|xs + ys| - 1] == xs + ys';
      SumByAppend(xs, ys', val);
    }
  }

  /** The elements of `xs` satisfying `p`, in their original order (a SQL `WHERE`,
      or a Python list comprehension with a condition). */
  function Filter<T(!new)>(xs: seq<T>, p: T -> bool): (r: seq<T>)
    ensures |r| <= |xs|
    ensures forall x :: x in r <==> x in xs && p(x)
  {
    if |xs| == 0 then []
    else
      var init, last := xs[..|xs| - 1], xs[|xs| - 1];
      assert xs == init + [last];
      Filter(init, p) + if p(last) then [last] else []
  }

  /** The filter keeps every occurrence of a satisfying element and none of the others. */
  lemma {:induction false} FilterMultiset<T(!new)>(xs: seq<T>, p: T -> bool)
    ensures forall x :: multiset(Filter(xs, p))[x] == if p(x) then multiset(xs)[x] else 0
  {
    if |xs| > 0 {
      var init, last := xs[..|xs| - 1], xs[|xs| - 1];
      assert xs == init + [last];
      var tail := if p(last) then [last] else [];
      FilterMultiset(init, p);
      assert Filter(xs, p) == Filter(init, p) + tail;
      assert multiset(Filter(init, p) + tail) == multiset(Filter(init, p)) + multiset(tail);
      assert multiset(xs) == multiset(init) + multiset([last]);
    }
  }

  lemma {:induction false} FilterAppend<T(!new)>(xs: seq<T>, ys: seq<T>, p: T -> bool)
    ensures Filter(xs + ys, p) == Filter(xs, p) + Filter(ys, p)
  {
    if |ys| == 0 {
      assert xs + ys == xs;
    } else {
      var ys', last := ys[..|ys| - 1], ys[|ys| - 1];
      var tail := if p(last) then [last] else [];
      assert (xs + ys)[..|xs + ys| - 1] == xs + ys' && (xs + ys)[|xs + ys| - 1] == last;
      assert Filter(xs + ys, p) == Filter(xs + ys', p) + tail;
      assert Filter(ys, p) == Filter(ys', p) + tail;
      FilterAppend(xs, ys', p);
      AppendAssoc(Filter(xs, p), Filter(ys', p), tail);
    }
  }

  /** Filtering a sequence with one more element at the end. */
  lemma {:induction false} FilterSnoc<T(!new)>(xs: seq<T>, x: T, p: T -> bool)
    ensures Filter(xs + [x], p) == Filter(xs, p) + (if p(x) then [x] else [])
  {
    assert (xs + [x])[..|xs|] == xs;
  }

  /** The filtered sum grows by an appended element's value exactly when it passes. */
  lemma FilteredSumSnoc<T(!new)>(xs: seq<T>, x: T, p: T -> bool, val: T -> int)
    ensures SumBy(Filter(xs + [x], p), val) == SumBy(Filter(xs, p), val) + (if p(x) then val(x) else 0)
  {
    FilterSnoc(xs, x, p);
    if p(x) {
      SumBySnoc(Filter(xs, p), x, val);
    } else {
      assert Filter(xs, p) + [] == Filter(xs, p);
    }
  }

  /** Filtering by a condition and by its negation splits the sequence: the two parts
      together have its length and its sum. */
  lemma {:induction false} FilterComplement<T(!new)>(xs: seq<T>, p: T -> bool, q: T -> bool, val: T -> int)
    requires forall x :: p(x) == !q(x)
    ensures |Filter(xs, p)| + |Filter(xs, q)| == |xs|
    ensures SumBy(Filter(xs, p), val) + SumBy(Filter(xs, q), val) == SumBy(xs, val)
  {
    if |xs| > 0 {
      var init, x := xs[..|xs| - 1], xs[|xs| - 1];
      assert xs == init + [x];
      FilterComplement(init, p, q, val);
      FilterSnoc(init, x, p);
      FilterSnoc(init, x, q);
      assert SumBy(xs, val) == SumBy(init, val) + val(x);
      if p(x) {
        SumBySnoc(Filter(init, p), x, val);
        assert Filter(init, q) + [] == Filter(init, q);
      } else {
        SumBySnoc(Filter(init, q), x, val);
        assert Filter(init, p) + [] == Filter(init, p);
      }
    }
  }

  /** A condition every element meets keeps the whole sequence. */
  lemma {:induction false} FilterAll<T(!new)>(xs: seq<T>, p: T -> bool)
    requires forall x :: x in xs ==> p(x)
    ensures Filter(xs, p) == xs
  {
    if |xs| > 0 {
      var init := xs[..|xs| - 1];
      assert xs == init + [xs[|xs| - 1]];
      assert xs[|xs| - 1] in xs;
      FilterAll(init, p);
    }
  }

  /** A condition no element meets keeps nothing. */
  lemma {:induction false} FilterNone<T(!new)>(xs: seq<T>, p: T -> bool)
    requires forall x :: x in xs ==> !p(x)
    ensures Filter(xs, p) == []
  {
    if |xs| > 0 {
      var init := xs[..|xs| - 1];
      assert xs == init + [xs[|xs| - 1]];
      assert xs[|xs| - 1] in xs;
      FilterNone(init, p);
    }
  }

  /** The elements of `xs` whose key is `k`: one group of a SQL `GROUP BY` or of a
      Python dict of lists. */
  function WithKey<T(!new), K(==)>(xs: seq<T>, key: T -> K, k: K): (r: seq<T>)
    ensures |r| <= |xs|
    ensures forall x :: x in r <==> x in xs && key(x) == k
  {
    if |xs| == 0 then []
    else WithKey(xs[..|xs| - 1], key, k) + (if key(xs[|xs| - 1]) == k then [xs[|xs| - 1]] else [])
  }

  lemma {:induction false} WithKeyAppend<T(!new), K>(xs: seq<T>, ys: seq<T>, key: T -> K, k: K)
    ensures WithKey(xs + ys, key, k) == WithKey(xs, key, k) + WithKey(ys, key, k)
  {
    if |ys| == 0 {
      assert xs + ys == xs;
    } else {
      var ys' := ys[..|ys| - 1];
      assert (xs + ys)[..|xs + ys| - 1] == xs + ys';
      WithKeyAppend(xs, ys', key, k);
    }
  }

  /** The group of a key after appending one element. */
  lemma {:induction false} WithKeySnoc<T(!new), K>(xs: seq<T>, x: T, key: T -> K, k: K)
    ensures WithKey(xs + [x], key, k) == WithKey(xs, key, k) + (if key(x) == k then [x] else [])
  {
    assert (xs + [x])[..|xs|] == xs;
  }

  /** A group keeps every occurrence of an element with its key and none of the others. */
  lemma {:induction false} WithKeyMultiset<T(!new), K>(xs: seq<T>, key: T -> K, k: K)
    ensures forall x :: multiset(WithKey(xs, key, k))[x] == if key(x) == k then multiset(xs)[x] else 0
  {
    if |xs| > 0 {
      var init, last := xs[..|xs| - 1], xs[|xs| - 1];
      assert xs == init + [last];
      var tail := if key(last) == k then [last] else [];
      WithKeyMultiset(init, key, k);
      assert WithKey(xs, key, k) == WithKey(init, key, k) + tail;
      assert multiset(WithKey(init, key, k) + tail) == multiset(WithKey(init, key, k)) + multiset(tail);
      assert multiset(xs) == multiset(init) + multiset([last]);
    }
  }

  /** The last element of a group is the last element of `xs` that has the key. */
  lemma {:induction false} WithKeyLast<T(!new), K>(xs: seq<T>, key: T -> K, k: K, i: nat)
    requires i < |xs| && key(xs[i]) == k
    requires forall j :: i < j < |xs| ==> key(xs[j]) != k
    ensures |WithKey(xs, key, k)| > 0
    ensures WithKey(xs, key, k)[|WithKey(xs, key, k)| - 1] == xs[i]
  {
    if i < |xs| - 1 {
      var init := xs[..|xs| - 1];
      WithKeyLast(init, key, k, i);
      assert WithKey(xs, key, k) == WithKey(init, key, k);
    }
  }

  /** The key of every element, in order. */
  function Keys<T, K>(xs: seq<T>, key: T -> K): (r: seq<K>)
    ensures |r| == |xs|
    ensures forall i :: 0 <= i < |xs| ==> r[i] == key(xs[i])
  {
    if |xs| == 0 then [] else Keys(xs[..|xs| - 1], key) + [key(xs[|xs| - 1])]
  }

  /** The distinct elements of `xs` in order of first appearance (the insertion order
      of a Python dict, or of the groups of a SQL `GROUP BY` as this model lists them). */
  function Distinct<T(==,!new)>(xs: seq<T>): (r: seq<T>)
    ensures forall x :: x in r <==> x in xs
    ensures NoDups(r)
  {
    if |xs| == 0 then []
    else
      var d := Distinct(xs[..|xs| - 1]);
      var x := xs[|xs| - 1];
      if x in d then d
      else
        assert forall y :: y in xs <==> y in xs[..|xs| - 1] || y == x by {
          assert xs == xs[..|xs| - 1] + [x];
        }
        d + [x]
  }

  /** The position of the first occurrence of `x` in `xs`. */
  function FirstIndex<T(==)>(xs: seq<T>, x: T): (k: nat)
    requires x in xs
    ensures k < |xs| && xs[k] == x
    ensures forall j :: 0 <= j < k ==> xs[j] != x
  {
    if xs[0] == x then 0
    else
      assert x in xs[1..] by { assert xs == [xs[0]] + xs[1..]; }
      var k := FirstIndex(xs[1..], x);
      assert forall j :: 1 <= j <= k ==> xs[j] == xs[1..][j - 1];
      k + 1
  }

  /** `r` lists elements of `xs` in the order of their first occurrences in `xs`. */
  ghost predicate InFirstAppearanceOrder<T>(r: seq<T>, xs: seq<T>) {
    && (forall k :: 0 <= k < |r| ==> r[k] in xs)
    && (forall i, j :: 0 <= i < j < |r| ==> FirstIndex(xs, r[i]) < FirstIndex(xs, r[j]))
  }

  /** Appending an element does not move the first occurrence of an element already there. */
  lemma FirstIndexSnoc<T>(xs: seq<T>, x: T, y: T)
    requires y in xs
    ensures FirstIndex(xs + [x], y) == FirstIndex(xs, y)
  {
    var k := FirstIndex(xs, y);
    assert (xs + [x])[k] == y;
  }

  /** A new element first occurs where it is appended. */
  lemma FirstIndexNew<T>(xs: seq<T>, x: T)
    requires x !in xs
    ensures FirstIndex(xs + [x], x) == |xs|
  {
    assert forall j :: 0 <= j < |xs| ==> (xs + [x])[j] == xs[j];
  }

  /** `Distinct` lists the elements in the order of their first occurrences. */
  lemma {:induction false} DistinctInOrder<T(!new)>(xs: seq<T>)
    ensures InFirstAppearanceOrder(Distinct(xs), xs)
  {
    if |xs| > 0 {
      var init, x := xs[..|xs| - 1], xs[|xs| - 1];
      assert xs == init + [x];
      var d := Distinct(init);
      DistinctInOrder(init);
      forall y | y in d ensures y in init && FirstIndex(xs, y) == FirstIndex(init, y) {
        FirstIndexSnoc(init, x, y);
      }
      if x !in d {
        FirstIndexNew(init, x);
        var r := d + [x];
        forall k | 0 <= k < |r| ensures r[k] in xs {
        }
        forall i, j | 0 <= i < j < |r| ensures FirstIndex(xs, r[i]) < FirstIndex(xs, r[j]) {
          assert r[i] == d[i] && d[i] in d;
          if j < |d| {
            assert r[j] == d[j] && d[j] in d;
          }
        }
        assert InFirstAppearanceOrder(r, xs);
      }
    }
  }

  /** Removing an element keeps the others in their order. */
  lemma {:induction false} RemoveKeepsOrder<T(!new)>(ys: seq<T>, x: T, xs: seq<T>)
    requires InFirstAppearanceOrder(ys, xs)
    ensures InFirstAppearanceOrder(Remove(ys, x), xs)
  {
    if |ys| > 0 {
      var init, last := ys[..|ys| - 1], ys[|ys| - 1];
      assert forall i :: 0 <= i < |init| ==> init[i] == ys[i];
      RemoveKeepsOrder(init, x, xs);
      var front := Remove(init, x);
      assert Remove(ys, x) == front + if last == x then [] else [last];
      if last != x {
        var r := front + [last];
        forall k | 0 <= k < |r| ensures r[k] in xs {
          if k < |front| {
            assert r[k] == front[k];
          }
        }
        forall i, j | 0 <= i < j < |r| ensures FirstIndex(xs, r[i]) < FirstIndex(xs, r[j]) {
          if j == |front| {
            assert r[i] == front[i] && front[i] in front;
            var a :| 0 <= a < |init| && init[a] == front[i];
            assert ys[a] == r[i] && ys[|ys| - 1] == r[j];
          } else {
            assert r[i] == front[i] && r[j] == front[j];
          }
        }
        assert InFirstAppearanceOrder(r, xs);
      } else {
        assert Remove(ys, x) == front;
      }
    }
  }

  /** `xs` with every occurrence of `x` removed. */
  function Remove<T(==,!new)>(xs: seq<T>, x: T): (r: seq<T>)
    ensures forall y :: y in r <==> y in xs && y != x
    ensures NoDups(xs) ==> NoDups(r)
  {
    if |xs| == 0 then []
    else
      var init := xs[..|xs| - 1];
      var r := Remove(init, x) + (if xs[|xs| - 1] == x then [] else [xs[|xs| - 1]]);
      assert NoDups(xs) ==> NoDups(r) by {
        if NoDups(xs) {
          assert NoDups(init);
          assert xs[|xs| - 1] !in init;
        }
      }
      r
  }

  /** Sum over the listed keys of the sum of `val` over each key's group. */
  function SumOverGroups<T(!new), K(==)>(xs: seq<T>, key: T -> K, val: T -> int, ks: seq<K>): int {
    if |ks| == 0 then 0
    else SumOverGroups(xs, key, val, ks[..|ks| - 1]) + SumBy(WithKey(xs, key, ks[|ks| - 1]), val)
  }

  /** Appending one element adds its value to its own group, when that group is listed. */
  lemma {:induction false} SumOverGroupsSnoc<T(!new), K(!new)>(xs: seq<T>, x: T, key: T -> K, val: T -> int, ks: seq<K>)
    requires NoDups(ks)
    ensures SumOverGroups(xs + [x], key, val, ks)
         == SumOverGroups(xs, key, val, ks) + (if key(x) in ks then val(x) else 0)
  {
    if |ks| > 0 {
      var k := ks[|ks| - 1];
      var init := ks[..|ks| - 1];
      assert ks == init + [k];
      assert NoDups(init);
      SumOverGroupsSnoc(xs, x, key, val, init);
      assert SumBy(WithKey(xs + [x], key, k), val)
          == SumBy(WithKey(xs, key, k), val) + (if key(x) == k then val(x) else 0) by {
        WithKeyAppend(xs, [x], key, k);
        assert [x][..0] == [];
        SumByAppend(WithKey(xs, key, k), WithKey([x], key, k), val);
      }
      if key(x) == k {
        assert key(x) !in init;
      } else {
        assert key(x) in ks <==> key(x) in init;
      }
    }
  }

  /** Every element's key is among the keys. */
  lemma {:induction false} KeyInKeys<T, K>(xs: seq<T>, key: T -> K, y: T)
    requires y in xs
    ensures key(y) in Keys(xs, key)
  {
    var i :| 0 <= i < |xs| && xs[i] == y;
    assert Keys(xs, key)[i] == key(y);
  }

  /** A listed key is the key of some element, which its group then holds. */
  lemma {:induction false} KeyHasElement<T(!new), K(!new)>(xs: seq<T>, key: T -> K, k: K) returns (y: T)
    requires k in Keys(xs, key)
    ensures y in xs && key(y) == k
    ensures y in WithKey(xs, key, k)
  {
    var i :| 0 <= i < |Keys(xs, key)| && Keys(xs, key)[i] == k;
    y := xs[i];
  }

  /** A key that no element has selects an empty group. */
  lemma {:induction false} WithKeyAbsent<T(!new), K(!new)>(xs: seq<T>, key: T -> K, k: K)
    requires k !in Keys(xs, key)
    ensures WithKey(xs, key, k) == []
  {
    if WithKey(xs, key, k) != [] {
      var y := WithKey(xs, key, k)[0];
      KeyInKeys(xs, key, y);
    }
  }

  /** The distinct keys after appending one element. */
  lemma {:induction false} DistinctKeysSnoc<T(!new), K(!new)>(xs: seq<T>, x: T, key: T -> K)
    ensures Distinct(Keys(xs + [x], key))
         == var d := Distinct(Keys(xs, key)); if key(x) in d then d else d + [key(x)]
  {
    var ks := Keys(xs + [x], key);
    assert ks[..|ks| - 1] == Keys(xs, key);
  }

  /** Appending an element whose key is new adds a group holding just that element. */
  lemma {:induction false} GroupSumsSnocNewKey<T(!new), K(!new)>(xs: seq<T>, x: T, key: T -> K, val: T -> int)
    requires key(x) !in Distinct(Keys(xs, key))
    ensures SumOverGroups(xs + [x], key, val, Distinct(Keys(xs, key)) + [key(x)])
         == SumOverGroups(xs, key, val, Distinct(Keys(xs, key))) + val(x)
  {
    var kx := key(x);
    var d := Distinct(Keys(xs, key));
    var d' := d + [kx];
    SumOverGroupsSnoc(xs, x, key, val, d);
    assert SumBy(WithKey(xs + [x], key, kx), val) == val(x) by {
      WithKeyAbsent(xs, key, kx);
      WithKeyAppend(xs, [x], key, kx);
      assert [x][..0] == [];
      assert WithKey([x], key, kx) == [x];
      assert SumBy([x], val) == val(x);
    }
    assert d'[..|d'| - 1] == d;
  }

  /** Grouping conserves the sum: summing every group, over the distinct keys, gives
      the sum over the whole sequence (nothing is lost or counted twice). */
  lemma {:induction false} GroupSumsConserve<T(!new), K(!new)>(xs: seq<T>, key: T -> K, val: T -> int)
    ensures SumOverGroups(xs, key, val, Distinct(Keys(xs, key))) == SumBy(xs, val)
  {
    if |xs| > 0 {
      var init := xs[..|xs| - 1];
      var x := xs[|xs| - 1];
      assert init + [x] == xs;
      var d := Distinct(Keys(init, key));
      GroupSumsConserve(init, key, val);
      DistinctKeysSnoc(init, x, key);
      if key(x) in d {
        assert Distinct(Keys(xs, key)) == d;
        SumOverGroupsSnoc(init, x, key, val, d);
      } else {
        assert Distinct(Keys(xs, key)) == d + [key(x)];
        GroupSumsSnocNewKey(init, x, key, val);
      }
    }
  }

  /** Splits off one key of a duplicate-free key list: the grouped sum is that key's
      group (when listed) plus the grouped sum over the other keys. */
  lemma {:induction false} SumOverGroupsRemove<T(!new), K(!new)>(xs: seq<T>, key: T -> K, val: T -> int, ks: seq<K>, k: K)
    requires NoDups(ks)
    ensures SumOverGroups(xs, key, val, ks)
         == (if k in ks then SumBy(WithKey(xs, key, k), val) else 0) + SumOverGroups(xs, key, val, Remove(ks, k))
  {
    if |ks| > 0 {
      var init := ks[..|ks| - 1];
      var last := ks[|ks| - 1];
      assert ks == init + [last];
      assert NoDups(init);
      SumOverGroupsRemove(xs, key, val, init, k);
      if last == k {
        assert k !in init;
        assert Remove(ks, k) == Remove(init, k);
      } else {
        var r := Remove(init, k) + [last];
        assert Remove(ks, k) == r;
        assert r[..|r| - 1] == Remove(init, k);
        assert k in ks <==> k in init;
      }
    }
  }

  /** Index of the first element with the greatest version: Python's `max(xs, key=...)`
      picks the first maximal element, and a SQL `ROW_NUMBER() ... ORDER BY v DESC` picks
      some maximal element (this model resolves that tie the same way). */
  function LatestIndex<T>(xs: seq<T>, ver: T -> int): (k: nat)
    requires |xs| > 0
    ensures k < |xs|
    ensures forall j :: 0 <= j < |xs| ==> ver(xs[j]) <= ver(xs[k])
    ensures forall j :: 0 <= j < k ==> ver(xs[j]) < ver(xs[k])
  {
    if |xs| == 1 then 0
    else
      var k := LatestIndex(xs[1..], ver);
      if ver(xs[0]) >= ver(xs[1..][k]) then 0 else k + 1
  }

  /** Appending an element whose version does not exceed the current latest keeps the choice. */
  lemma {:induction false} LatestIndexSnocNotNewer<T>(xs: seq<T>, x: T, ver: T -> int)
    requires |xs| > 0
    requires ver(x) <= ver(xs[LatestIndex(xs, ver)])
    ensures LatestIndex(xs + [x], ver) == LatestIndex(xs, ver)
  {
    var t := xs[1..];
    if |xs| > 1 {
      assert (xs + [x])[1..] == t + [x];
      if ver(x) <= ver(t[LatestIndex(t, ver)]) {
        LatestIndexSnocNotNewer(t, x, ver);
      } else {
        assert LatestIndex(xs, ver) == 0;
        var k' := LatestIndex(t + [x], ver);
        assert (t + [x])[k'] in t + [x];
      }
    } else {
      assert (xs + [x])[1..] == [x];
    }
  }

  /** `SELECT MAX(v)`: the greatest version, or `None` (SQL NULL) for an empty group. */
  function MaxVersion<T>(xs: seq<T>, ver: T -> int): (r: Option<int>)
    ensures r.None? <==> |xs| == 0
    ensures r.Some? ==> forall x :: x in xs ==> ver(x) <= r.value
    ensures r.Some? ==> exists x :: x in xs && ver(x) == r.value
  {
    if |xs| == 0 then None
    else
      var k := LatestIndex(xs, ver);
      assert xs[k] in xs;
      Some(ver(xs[k]))
  }
}
