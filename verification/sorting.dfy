/**
 * The stable sort behind every `Array.prototype.sort` call of the portal. Each comparator the
 * source passes orders records by a tuple of numbers (a rank, then another rank, then a time),
 * so a comparator is modelled as a key function into `seq<int>` ordered lexicographically, and
 * the sort is the stable insertion sort: equal keys keep their input order, as ECMAScript 2019
 * requires of `sort`.
 */
module Sorting {

  /** Strict lexicographic order on integer tuples (a proper prefix comes first). */
  predicate LexLess(a: seq<int>, b: seq<int>)
    decreases |a|
  {
    |b| > 0 && (|a| == 0 || a[0] < b[0] || (a[0] == b[0] && LexLess(a[1..], b[1..])))
  }

  lemma {:induction false} LexIrreflexive(a: seq<int>)
    ensures !LexLess(a, a)
    decreases |a|
  {
    if |a| > 0 { LexIrreflexive(a[1..]); }
  }

  lemma {:induction false} LexTransitive(a: seq<int>, b: seq<int>, c: seq<int>)
    requires LexLess(a, b) && LexLess(b, c)
    ensures LexLess(a, c)
    decreases |a|
  {
    if |a| > 0 && a[0] == b[0] && b[0] == c[0] {
      LexTransitive(a[1..], b[1..], c[1..]);
    }
  }

  lemma {:induction false} LexTotal(a: seq<int>, b: seq<int>)
    ensures a == b || LexLess(a, b) || LexLess(b, a)
    decreases |a|
  {
    if |a| > 0 && |b| > 0 && a[0] == b[0] {
      LexTotal(a[1..], b[1..]);
      if a[1..] == b[1..] {
        assert a == [a[0]] + a[1..] && b == [b[0]] + b[1..];
      }
    }
  }

  lemma LexAsymmetric(a: seq<int>, b: seq<int>)
    requires LexLess(a, b)
    ensures !LexLess(b, a)
  {
    if LexLess(b, a) {
      LexTransitive(a, b, a);
      LexIrreflexive(a);
    }
  }

  /** On one-element keys the order is the order of integers. */
  lemma LexLessSingle(a: int, b: int)
    ensures LexLess([a], [b]) <==> a < b
  {
    assert [a][1..] == [] && [b][1..] == [];
  }

  /** Non-decreasing by key: no later element has a strictly smaller key than an earlier one. */
  ghost predicate SortedByKey<T>(r: seq<T>, key: T -> seq<int>) {
    forall i, j :: 0 <= i < j < |r| ==> !LexLess(key(r[j]), key(r[i]))
  }

  /** The elements of `s` whose key is `k`, in their order in `s`. */
  function WithKey<T>(s: seq<T>, key: T -> seq<int>, k: seq<int>): seq<T> {
    if s == [] then []
    else (if key(s[0]) == k then [s[0]] else []) + WithKey(s[1..], key, k)
  }

  lemma {:induction false} WithKeyAppend<T>(a: seq<T>, b: seq<T>, key: T -> seq<int>, k: seq<int>)
    ensures WithKey(a + b, key, k) == WithKey(a, key, k) + WithKey(b, key, k)
  {
    if a == [] {
      assert a + b == b;
    } else {
      var head := if key(a[0]) == k then [a[0]] else [];
      assert (a + b)[0] == a[0] && (a + b)[1..] == a[1..] + b;
      WithKeyAppend(a[1..], b, key, k);
      calc {
        WithKey(a + b, key, k);
        head + WithKey(a[1..] + b, key, k);
        head + (WithKey(a[1..], key, k) + WithKey(b, key, k));
        (head + WithKey(a[1..], key, k)) + WithKey(b, key, k);
      }
    }
  }

  lemma {:induction false} WithKeyNone<T>(s: seq<T>, key: T -> seq<int>, k: seq<int>)
    requires forall i :: 0 <= i < |s| ==> key(s[i]) != k
    ensures WithKey(s, key, k) == []
  {
    if s != [] { WithKeyNone(s[1..], key, k); }
  }

  /** The first element with key `k` heads the elements with that key. */
  lemma {:induction false} WithKeyHead<T>(s: seq<T>, key: T -> seq<int>, k: seq<int>, j: nat)
    requires j < |s| && key(s[j]) == k
    requires forall i :: 0 <= i < j ==> key(s[i]) != k
    ensures WithKey(s, key, k) != [] && WithKey(s, key, k)[0] == s[j]
  {
    if j > 0 { WithKeyHead(s[1..], key, k, j - 1); }
  }

  /** Inserts `x` after every element whose key is not greater than `key(x)`. */
  function Insert<T>(r: seq<T>, x: T, key: T -> seq<int>): (q: seq<T>)
    ensures |q| == |r| + 1
  {
    if r == [] then [x]
    else if LexLess(key(x), key(r[0])) then [x] + r
    else [r[0]] + Insert(r[1..], x, key)
  }

  /** The stable sort of `s` by `key`, smallest key first. */
  function SortByKey<T>(s: seq<T>, key: T -> seq<int>): (r: seq<T>)
    ensures |r| == |s|
  {
    if s == [] then [] else Insert(SortByKey(s[..|s| - 1], key), s[|s| - 1], key)
  }

  lemma {:induction false} InsertMultiset<T>(r: seq<T>, x: T, key: T -> seq<int>)
    ensures multiset(Insert(r, x, key)) == multiset(r) + multiset{x}
  {
    if r != [] && !LexLess(key(x), key(r[0])) {
      InsertMultiset(r[1..], x, key);
      assert r == [r[0]] + r[1..];
    }
  }

  lemma {:induction false} InsertSorted<T>(r: seq<T>, x: T, key: T -> seq<int>)
    requires SortedByKey(r, key)
    ensures SortedByKey(Insert(r, x, key), key)
  {
    if r == [] {
    } else if LexLess(key(x), key(r[0])) {
      var q := [x] + r;
      forall i, j | 0 <= i < j < |q| ensures !LexLess(key(q[j]), key(q[i])) {
        if i == 0 {
          var y := q[j];
          assert y == r[j - 1];
          if j - 1 > 0 {
            assert !LexLess(key(r[j - 1]), key(r[0]));
            LexTotal(key(r[j - 1]), key(r[0]));
          }
          if key(y) != key(r[0]) { LexTransitive(key(x), key(r[0]), key(y)); }
          LexAsymmetric(key(x), key(y));
        }
      }
    } else {
      var tail := Insert(r[1..], x, key);
      InsertSorted(r[1..], x, key);
      InsertMultiset(r[1..], x, key);
      var q := [r[0]] + tail;
      forall i, j | 0 <= i < j < |q| ensures !LexLess(key(q[j]), key(q[i])) {
        if i == 0 {
          var y := q[j];
          assert y in multiset(tail);
          if y != x {
            assert y in multiset(r[1..]);
            var m :| 0 <= m < |r[1..]| && r[1..][m] == y;
            assert r[m + 1] == y;
          }
        }
      }
    }
  }

  /** No element of a sorted sequence has a key smaller than its head's. */
  lemma BelowHeadAbsent<T>(r: seq<T>, x: T, key: T -> seq<int>)
    requires r != [] && SortedByKey(r, key) && LexLess(key(x), key(r[0]))
    ensures forall i :: 0 <= i < |r| ==> key(r[i]) != key(x)
  {
    forall i | 0 <= i < |r| ensures key(r[i]) != key(x) {
      if i > 0 {
        assert !LexLess(key(r[i]), key(r[0]));
        LexTotal(key(r[i]), key(r[0]));
        if key(r[i]) != key(r[0]) { LexTransitive(key(x), key(r[0]), key(r[i])); }
      }
      if key(r[i]) == key(x) { LexIrreflexive(key(x)); }
    }
  }

  lemma {:induction false} InsertWithKey<T>(r: seq<T>, x: T, key: T -> seq<int>, k: seq<int>)
    requires SortedByKey(r, key)
    ensures WithKey(Insert(r, x, key), key, k) == WithKey(r, key, k) + (if key(x) == k then [x] else [])
  {
    if r == [] {
      assert WithKey([x], key, k) == (if key(x) == k then [x] else []) + WithKey([], key, k);
    } else if LexLess(key(x), key(r[0])) {
      var q := [x] + r;
      assert Insert(r, x, key) == q;
      assert q[1..] == r;
      if key(x) == k {
        BelowHeadAbsent(r, x, key);
        WithKeyNone(r, key, k);
      }
    } else {
      var tail := Insert(r[1..], x, key);
      var q := [r[0]] + tail;
      assert Insert(r, x, key) == q;
      assert q[1..] == tail;
      assert SortedByKey(r[1..], key);
      InsertWithKey(r[1..], x, key, k);
      assert WithKey(q, key, k) == (if key(r[0]) == k then [r[0]] else []) + WithKey(tail, key, k);
    }
  }

  /** The sort returns a permutation of its input. */
  lemma {:induction false} SortByKeyMultiset<T>(s: seq<T>, key: T -> seq<int>)
    ensures multiset(SortByKey(s, key)) == multiset(s)
  {
    if s != [] {
      var init, last := s[..|s| - 1], s[|s| - 1];
      assert s == init + [last];
      SortByKeyMultiset(init, key);
      InsertMultiset(SortByKey(init, key), last, key);
    }
  }

  /** The sort holds exactly the elements of its input. */
  lemma SortByKeyMembers<T>(s: seq<T>, key: T -> seq<int>, x: T)
    ensures x in SortByKey(s, key) <==> x in s
  {
    SortByKeyMultiset(s, key);
    assert x in SortByKey(s, key) <==> x in multiset(SortByKey(s, key));
  }

  /** The sort returns a permutation of its input, ordered by key, with equal keys in input order. */
  lemma {:induction false} SortByKeyCorrect<T>(s: seq<T>, key: T -> seq<int>)
    ensures multiset(SortByKey(s, key)) == multiset(s)
    ensures SortedByKey(SortByKey(s, key), key)
    ensures forall k :: WithKey(SortByKey(s, key), key, k) == WithKey(s, key, k)
  {
    if s != [] {
      var init, last := s[..|s| - 1], s[|s| - 1];
      assert s == init + [last];
      SortByKeyCorrect(init, key);
      SortByKeyMultiset(s, key);
      var sorted := SortByKey(init, key);
      InsertSorted(sorted, last, key);
      forall k ensures WithKey(SortByKey(s, key), key, k) == WithKey(s, key, k) {
        InsertWithKey(sorted, last, key, k);
        WithKeyAppend(init, [last], key, k);
        assert WithKey([last], key, k) == (if key(last) == k then [last] else []) + WithKey([], key, k);
      }
    }
  }

  /** The head of a sorted permutation is the first element of the input with the smallest key. */
  lemma SortedHeadIsFirstMinimum<T>(s: seq<T>, key: T -> seq<int>) returns (j: nat)
    requires s != []
    ensures j < |s| && SortByKey(s, key)[0] == s[j]
    ensures forall i :: 0 <= i < |s| ==> !LexLess(key(s[i]), key(s[j]))
    ensures forall i :: 0 <= i < j ==> key(s[i]) != key(s[j])
  {
    var r := SortByKey(s, key);
    var k := key(r[0]);
    SortedHeadMinimal(s, key);
    WithKeyHead(r, key, k, 0);
    SortByKeyCorrect(s, key);
    assert WithKey(r, key, k) == WithKey(s, key, k);
    j := WithKeyFirst(s, key, k);
  }

  /** No element of the input has a key smaller than the head of its sort. */
  lemma SortedHeadMinimal<T>(s: seq<T>, key: T -> seq<int>)
    requires s != []
    ensures forall i :: 0 <= i < |s| ==> !LexLess(key(s[i]), key(SortByKey(s, key)[0]))
  {
    var r := SortByKey(s, key);
    SortByKeyCorrect(s, key);
    forall i | 0 <= i < |s| ensures !LexLess(key(s[i]), key(r[0])) {
      assert s[i] in multiset(r);
      var m :| 0 <= m < |r| && r[m] == s[i];
      if m > 0 { assert !LexLess(key(r[m]), key(r[0])); } else { LexIrreflexive(key(r[0])); }
    }
  }

  /** The head of the elements with key `k`, when there is one, is the first element with that key. */
  lemma {:induction false} WithKeyFirst<T>(s: seq<T>, key: T -> seq<int>, k: seq<int>) returns (j: nat)
    requires WithKey(s, key, k) != []
    ensures j < |s| && key(s[j]) == k && WithKey(s, key, k)[0] == s[j]
    ensures forall i :: 0 <= i < j ==> key(s[i]) != k
  {
    if key(s[0]) == k {
      j := 0;
    } else {
      assert WithKey(s, key, k) == WithKey(s[1..], key, k);
      var j' := WithKeyFirst(s[1..], key, k);
      j := j' + 1;
      assert s[j] == s[1..][j'];
      assert forall i :: 0 < i < j ==> s[i] == s[1..][i - 1];
    }
  }
}
