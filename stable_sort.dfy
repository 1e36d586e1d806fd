/**
 * Python's `sorted(xs, key=k)`: a stable sort by a real-valued key. It is
 * defined here as insertion sort, and the lemmas establish what `sorted`
 * promises: the result is ordered by key, is a permutation of the input,
 * and keeps the input order among elements with equal keys.
 */
module StableSort {

  predicate SortedBy<T>(s: seq<T>, key: T -> real)
  {
    forall i, j :: 0 <= i < j < |s| ==> key(s[i]) <= key(s[j])
  }

  /** The elements of `s` whose key is `k`, in their order in `s`. */
  function WithKey<T>(s: seq<T>, key: T -> real, k: real): seq<T>
  {
    if s == [] then []
    else (if key(s[0]) == k then [s[0]] else []) + WithKey(s[1..], key, k)
  }

  /** Put `x` in front of the first element whose key is not below its own. */
  function Insert<T>(x: T, s: seq<T>, key: T -> real): seq<T>
  {
    if s == [] || key(x) <= key(s[0]) then [x] + s
    else [s[0]] + Insert(x, s[1..], key)
  }

  /** Sort the tail, then insert the head in front of the elements of equal key. */
  function SortBy<T>(s: seq<T>, key: T -> real): seq<T>
  {
    if s == [] then [] else Insert(s[0], SortBy(s[1..], key), key)
  }

  lemma {:induction false} InsertPermutes<T>(x: T, s: seq<T>, key: T -> real)
    ensures multiset(Insert(x, s, key)) == multiset(s) + multiset{x}
    ensures |Insert(x, s, key)| == |s| + 1
  {
    if s != [] && key(x) > key(s[0]) {
      InsertPermutes(x, s[1..], key);
      assert s == [s[0]] + s[1..];
    }
  }

  /** A lower bound of `x` and of every element of `s` bounds every element of the insertion. */
  lemma {:induction false} InsertBounded<T>(x: T, s: seq<T>, key: T -> real, b: real)
    requires b <= key(x) && forall i :: 0 <= i < |s| ==> b <= key(s[i])
    ensures forall j :: 0 <= j < |Insert(x, s, key)| ==> b <= key(Insert(x, s, key)[j])
  {
    if s != [] && key(x) > key(s[0]) {
      var t := s[1..];
      assert forall i :: 0 <= i < |t| ==> t[i] == s[i + 1];
      InsertBounded(x, t, key, b);
      var r := [s[0]] + Insert(x, t, key);
      forall j | 0 <= j < |r| ensures b <= key(r[j]) {
        if j > 0 {
          assert r[j] == Insert(x, t, key)[j - 1];
        }
      }
    } else {
      var r := [x] + s;
      forall j | 0 <= j < |r| ensures b <= key(r[j]) {
        if j > 0 {
          assert r[j] == s[j - 1];
        }
      }
    }
  }

  lemma {:induction false} InsertSorted<T>(x: T, s: seq<T>, key: T -> real)
    requires SortedBy(s, key)
    ensures SortedBy(Insert(x, s, key), key)
  {
    if s != [] && key(x) > key(s[0]) {
      var t := s[1..];
      assert SortedBy(t, key) by {
        forall i, j | 0 <= i < j < |t| ensures key(t[i]) <= key(t[j]) {
          assert t[i] == s[i + 1] && t[j] == s[j + 1];
        }
      }
      InsertSorted(x, t, key);
      InsertBounded(x, t, key, key(s[0]));
      var u := Insert(x, t, key);
      var r := [s[0]] + u;
      forall i, j | 0 <= i < j < |r| ensures key(r[i]) <= key(r[j]) {
        if i > 0 {
          assert r[i] == u[i - 1] && r[j] == u[j - 1];
        } else {
          assert r[j] == u[j - 1];
        }
      }
    } else {
      var r := [x] + s;
      forall i, j | 0 <= i < j < |r| ensures key(r[i]) <= key(r[j]) {
        if i > 0 {
          assert r[i] == s[i - 1] && r[j] == s[j - 1];
        } else {
          assert r[j] == s[j - 1];
          assert key(s[0]) <= key(s[j - 1]) || j - 1 == 0;
        }
      }
    }
  }

  /**
   * Inserting `x` into a sorted sequence puts it ahead of every element
   * with the same key, so among the elements of key `k` it comes first.
   */
  lemma {:induction false} InsertWithKey<T>(x: T, s: seq<T>, key: T -> real, k: real)
    requires SortedBy(s, key)
    ensures WithKey(Insert(x, s, key), key, k)
         == (if key(x) == k then [x] else []) + WithKey(s, key, k)
  {
    if s != [] && key(x) > key(s[0]) {
      var t := s[1..];
      assert SortedBy(t, key) by {
        forall i, j | 0 <= i < j < |t| ensures key(t[i]) <= key(t[j]) {
          assert t[i] == s[i + 1] && t[j] == s[j + 1];
        }
      }
      InsertWithKey(x, t, key, k);
      var r := [s[0]] + Insert(x, t, key);
      assert r[1..] == Insert(x, t, key);
      if key(x) == k {
        assert key(s[0]) != k;
      }
    } else {
      var r := [x] + s;
      assert r[1..] == s;
    }
  }

  /**
   * The first `n` elements of the sort (all of them when there are fewer):
   * a sorted sub-multiset of the input of size min(n, |s|), and no element
   * left out has a smaller key than one taken.
   */
  lemma SortedTake<T>(s: seq<T>, key: T -> real, n: nat)
    ensures var sorted := SortBy(s, key);
      var m := if n <= |sorted| then n else |sorted|;
      var taken := sorted[..m];
      && |taken| == (if n <= |s| then n else |s|)
      && SortedBy(taken, key)
      && multiset(taken) <= multiset(s)
      && (forall p, q :: p in multiset(s) - multiset(taken) && q in taken ==> key(q) <= key(p))
  {
    var sorted := SortBy(s, key);
    SortByPermutes(s, key);
    SortBySorted(s, key);
    var m := if n <= |sorted| then n else |sorted|;
    assert sorted == sorted[..m] + sorted[m..];
    assert multiset(sorted) == multiset(sorted[..m]) + multiset(sorted[m..]);
    SortedPrefixNearest(sorted, key, m);
  }

  /** Picking the elements of one key distributes over concatenation. */
  lemma {:induction false} WithKeyAppend<T>(a: seq<T>, b: seq<T>, key: T -> real, k: real)
    ensures WithKey(a + b, key, k) == WithKey(a, key, k) + WithKey(b, key, k)
  {
    if a != [] {
      assert (a + b)[1..] == a[1..] + b;
      WithKeyAppend(a[1..], b, key, k);
    } else {
      assert a + b == b;
    }
  }

  /**
   * In a sorted sequence, every element of a prefix has a key no greater
   * than any element left behind the prefix.
   */
  lemma SortedPrefixNearest<T>(s: seq<T>, key: T -> real, n: nat)
    requires SortedBy(s, key) && n <= |s|
    ensures forall p, q :: p in multiset(s) - multiset(s[..n]) && q in s[..n] ==> key(q) <= key(p)
  {
    var rest := s[n..];
    assert s == s[..n] + rest;
    assert multiset(s) - multiset(s[..n]) == multiset(rest);
    forall p, q | p in multiset(s) - multiset(s[..n]) && q in s[..n]
      ensures key(q) <= key(p)
    {
      assert p in rest;
      var a :| 0 <= a < n && s[..n][a] == q;
      var b :| 0 <= b < |rest| && rest[b] == p;
      assert s[a] == q && s[n + b] == p;
    }
  }

  /** The sort is a permutation of its input. */
  lemma {:induction false} SortByPermutes<T>(s: seq<T>, key: T -> real)
    ensures multiset(SortBy(s, key)) == multiset(s)
    ensures |SortBy(s, key)| == |s|
  {
    if s != [] {
      SortByPermutes(s[1..], key);
      InsertPermutes(s[0], SortBy(s[1..], key), key);
      assert s == [s[0]] + s[1..];
    }
  }

  /** The sort orders its result by ascending key. */
  lemma {:induction false} SortBySorted<T>(s: seq<T>, key: T -> real)
    ensures SortedBy(SortBy(s, key), key)
  {
    if s != [] {
      SortBySorted(s[1..], key);
      InsertSorted(s[0], SortBy(s[1..], key), key);
    }
  }

  /**
   * The sort is stable: for every key value, the elements carrying it appear
   * in the result in the same order as in the input.
   */
  lemma {:induction false} SortByStable<T>(s: seq<T>, key: T -> real, k: real)
    ensures WithKey(SortBy(s, key), key, k) == WithKey(s, key, k)
  {
    if s != [] {
      SortByStable(s[1..], key, k);
      SortBySorted(s[1..], key);
      InsertWithKey(s[0], SortBy(s[1..], key), key, k);
    }
  }
}
