// The two orderings the search index uses: Python's stable `sort(key=...,
// reverse=True)` (search results by score, term frequencies by count) and
// `sorted(a_set, key=lambda x: (len(x), x))` (suggestions).

module Sorting {

  predicate SortedDesc<T>(s: seq<T>, key: T -> real)
  {
    forall i, j :: 0 <= i < j < |s| ==> key(s[i]) >= key(s[j])
  }

  /** The elements of s whose key is v, in their order in s. */
  function WithKey<T>(s: seq<T>, key: T -> real, v: real): seq<T>
  {
    if s == [] then [] else (if key(s[0]) == v then [s[0]] else []) + WithKey(s[1..], key, v)
  }

  /** x placed after every element of r whose key is at least its own. */
  function InsertDesc<T>(x: T, r: seq<T>, key: T -> real): seq<T>
  {
    if r == [] then [x]
    else if key(r[0]) >= key(x) then [r[0]] + InsertDesc(x, r[1..], key)
    else [x] + r
  }

  /** `sorted(s, key=key, reverse=True)`: by non-increasing key, and elements
      with equal keys keep their relative order (Python's sort is stable, also
      in reverse). */
  function SortDesc<T>(s: seq<T>, key: T -> real): seq<T>
    decreases |s|
  {
    if s == [] then [] else InsertDesc(s[|s| - 1], SortDesc(s[..|s| - 1], key), key)
  }

  lemma WithKeyCons<T>(h: T, t: seq<T>, key: T -> real, v: real)
    ensures WithKey([h] + t, key, v) == WithKey([h], key, v) + WithKey(t, key, v)
  {
    assert ([h] + t)[0] == h && ([h] + t)[1..] == t;
    assert [h][1..] == [];
  }

  lemma {:induction false} WithKeyAppend<T>(a: seq<T>, b: seq<T>, key: T -> real, v: real)
    ensures WithKey(a + b, key, v) == WithKey(a, key, v) + WithKey(b, key, v)
    decreases |a|
  {
    if a == [] {
      assert a + b == b;
    } else {
      var h := WithKey([a[0]], key, v);
      WithKeyAppend(a[1..], b, key, v);
      assert a + b == [a[0]] + (a[1..] + b);
      WithKeyCons(a[0], a[1..] + b, key, v);
      assert a == [a[0]] + a[1..];
      WithKeyCons(a[0], a[1..], key, v);
      var p, q := WithKey(a[1..], key, v), WithKey(b, key, v);
      assert h + (p + q) == (h + p) + q;
    }
  }

  lemma {:induction false} WithKeyNone<T>(s: seq<T>, key: T -> real, v: real)
    requires forall i :: 0 <= i < |s| ==> key(s[i]) < v
    ensures WithKey(s, key, v) == []
    decreases |s|
  {
    if s != [] {
      WithKeyNone(s[1..], key, v);
    }
  }

  /** A head at least as large as every element of a sorted tail keeps it sorted. */
  lemma SortedCons<T>(h: T, t: seq<T>, key: T -> real)
    requires SortedDesc(t, key)
    requires forall i :: 0 <= i < |t| ==> key(h) >= key(t[i])
    ensures SortedDesc([h] + t, key)
  {
    var s := [h] + t;
    forall i, j | 0 <= i < j < |s| ensures key(s[i]) >= key(s[j]) {
      assert s[j] == t[j - 1];
      if i > 0 {
        assert s[i] == t[i - 1];
      }
    }
  }

  lemma {:induction false} InsertPerm<T>(x: T, r: seq<T>, key: T -> real)
    ensures multiset(InsertDesc(x, r, key)) == multiset(r) + multiset{x}
    decreases |r|
  {
    if r != [] && key(r[0]) >= key(x) {
      InsertPerm(x, r[1..], key);
      assert r == [r[0]] + r[1..];
    }
  }

  lemma {:induction false} InsertSorted<T>(x: T, r: seq<T>, key: T -> real)
    requires SortedDesc(r, key)
    ensures SortedDesc(InsertDesc(x, r, key), key)
    decreases |r|
  {
    if r != [] && key(r[0]) >= key(x) {
      var tail := InsertDesc(x, r[1..], key);
      InsertSorted(x, r[1..], key);
      InsertPerm(x, r[1..], key);
      forall i | 0 <= i < |tail| ensures key(r[0]) >= key(tail[i]) {
        assert tail[i] in multiset(tail);
        if tail[i] != x {
          assert tail[i] in r[1..];
          var j :| 0 <= j < |r[1..]| && r[1..][j] == tail[i];
          assert r[j + 1] == tail[i];
        }
      }
      SortedCons(r[0], tail, key);
    } else if r != [] {
      SortedCons(x, r, key);
    }
  }

  lemma {:induction false} InsertWithKey<T>(x: T, r: seq<T>, key: T -> real, v: real)
    requires SortedDesc(r, key)
    ensures WithKey(InsertDesc(x, r, key), key, v) == WithKey(r, key, v) + WithKey([x], key, v)
    decreases |r|
  {
    if r == [] {
      assert InsertDesc(x, r, key) == [x];
    } else if key(r[0]) >= key(x) {
      var tail := InsertDesc(x, r[1..], key);
      InsertWithKey(x, r[1..], key, v);
      assert InsertDesc(x, r, key) == [r[0]] + tail;
      WithKeyCons(r[0], tail, key, v);
      assert r == [r[0]] + r[1..];
      WithKeyCons(r[0], r[1..], key, v);
      var h, p, q := WithKey([r[0]], key, v), WithKey(r[1..], key, v), WithKey([x], key, v);
      assert h + (p + q) == (h + p) + q;
    } else {
      InsertFrontWithKey(x, r, key, v);
    }
  }

  lemma InsertFrontWithKey<T>(x: T, r: seq<T>, key: T -> real, v: real)
    requires SortedDesc(r, key) && r != [] && key(r[0]) < key(x)
    ensures WithKey(InsertDesc(x, r, key), key, v) == WithKey(r, key, v) + WithKey([x], key, v)
  {
    assert InsertDesc(x, r, key) == [x] + r;
    WithKeyCons(x, r, key, v);
    if v == key(x) {
      WithKeyNone(r, key, v);
    } else {
      assert WithKey([x], key, v) == [];
    }
  }

  /** The stable descending sort: sorted by non-increasing key, a permutation
      of its input, and for every key value the elements with that key appear
      in their input order. */
  lemma {:induction false} SortDescFacts<T>(s: seq<T>, key: T -> real)
    ensures SortedDesc(SortDesc(s, key), key)
    ensures multiset(SortDesc(s, key)) == multiset(s)
    ensures forall v :: WithKey(SortDesc(s, key), key, v) == WithKey(s, key, v)
    decreases |s|
  {
    if s != [] {
      var init := s[..|s| - 1];
      var x := s[|s| - 1];
      SortDescFacts(init, key);
      InsertSorted(x, SortDesc(init, key), key);
      InsertPerm(x, SortDesc(init, key), key);
      assert s == init + [x];
      forall v ensures WithKey(SortDesc(s, key), key, v) == WithKey(s, key, v) {
        InsertWithKey(x, SortDesc(init, key), key, v);
        WithKeyAppend(init, [x], key, v);
      }
    }
  }

  // ---------------------------------------------------------------------
  // Strings by (length, text)

  /** Python's `a < b` on strings: lexicographic by code point. */
  predicate LexLess(a: string, b: string)
  {
    |b| > 0 && (|a| == 0 || a[0] < b[0] || (a[0] == b[0] && LexLess(a[1..], b[1..])))
  }

  /** `(len(a), a) < (len(b), b)`. */
  predicate KeyLess(a: string, b: string)
  {
    |a| < |b| || (|a| == |b| && LexLess(a, b))
  }

  lemma {:induction false} LexIrreflexive(a: string)
    ensures !LexLess(a, a)
  {
    if |a| > 0 {
      LexIrreflexive(a[1..]);
    }
  }

  lemma {:induction false} LexTransitive(a: string, b: string, c: string)
    requires LexLess(a, b) && LexLess(b, c)
    ensures LexLess(a, c)
  {
    if |a| > 0 && a[0] == b[0] && b[0] == c[0] {
      LexTransitive(a[1..], b[1..], c[1..]);
    }
  }

  lemma {:induction false} LexTotal(a: string, b: string)
    requires |a| == |b| && a != b
    ensures LexLess(a, b) || LexLess(b, a)
  {
    assert |a| > 0;
    if a[0] == b[0] {
      assert a == [a[0]] + a[1..] && b == [b[0]] + b[1..];
      LexTotal(a[1..], b[1..]);
    }
  }

  lemma KeyLessOrder(a: string, b: string, c: string)
    ensures !KeyLess(a, a)
    ensures KeyLess(a, b) && KeyLess(b, c) ==> KeyLess(a, c)
    ensures a != b ==> KeyLess(a, b) || KeyLess(b, a)
  {
    LexIrreflexive(a);
    if KeyLess(a, b) && KeyLess(b, c) && |a| == |b| == |c| {
      LexTransitive(a, b, c);
    }
    if a != b && |a| == |b| {
      LexTotal(a, b);
    }
  }

  /** Strictly increasing by (length, text): sorted and without repeats. */
  predicate StrictlySorted(s: seq<string>)
  {
    forall i, j :: 0 <= i < j < |s| ==> KeyLess(s[i], s[j])
  }

  /** x added to the strictly sorted r at its place, unless it is there already. */
  function InsertKey(x: string, r: seq<string>): seq<string>
  {
    if r == [] then [x]
    else if r[0] == x then r
    else if KeyLess(r[0], x) then [r[0]] + InsertKey(x, r[1..])
    else [x] + r
  }

  /** `sorted(set(s), key=lambda x: (len(x), x))`. */
  function SortByLength(s: seq<string>): seq<string>
    decreases |s|
  {
    if s == [] then [] else InsertKey(s[|s| - 1], SortByLength(s[..|s| - 1]))
  }

  lemma {:induction false} InsertKeyFacts(x: string, r: seq<string>)
    requires StrictlySorted(r)
    ensures StrictlySorted(InsertKey(x, r))
    ensures forall y :: y in InsertKey(x, r) <==> y == x || y in r
    decreases |r|
  {
    var r' := InsertKey(x, r);
    if r != [] && r[0] != x {
      KeyLessOrder(r[0], x, x);
      if KeyLess(r[0], x) {
        InsertKeyFacts(x, r[1..]);
        var tail := InsertKey(x, r[1..]);
        assert r == [r[0]] + r[1..];
        forall i, j | 0 <= i < j < |r'| ensures KeyLess(r'[i], r'[j]) {
          if i == 0 {
            assert r'[j] in tail;
            if r'[j] != x {
              var k :| 1 <= k < |r| && r[k] == r'[j];
            }
          } else {
            assert r'[i] == tail[i - 1] && r'[j] == tail[j - 1];
          }
        }
      } else {
        assert KeyLess(x, r[0]);
        forall i, j | 0 <= i < j < |r'| ensures KeyLess(r'[i], r'[j]) {
          if i == 0 {
            assert r'[j] == r[j - 1];
            if j > 1 {
              KeyLessOrder(x, r[0], r[j - 1]);
            }
          } else {
            assert r'[i] == r[i - 1] && r'[j] == r[j - 1];
          }
        }
      }
    }
  }

  /** The suggestion order: each distinct element once, strictly increasing
      by (length, text). */
  lemma {:induction false} SortByLengthFacts(s: seq<string>)
    ensures StrictlySorted(SortByLength(s))
    ensures forall y :: y in SortByLength(s) <==> y in s
    decreases |s|
  {
    if s != [] {
      var init := s[..|s| - 1];
      SortByLengthFacts(init);
      InsertKeyFacts(s[|s| - 1], SortByLength(init));
      assert s == init + [s[|s| - 1]];
    }
  }

  /** A strictly sorted list is determined by its elements: two of them with
      the same elements are equal, so the order above is the only one. */
  lemma {:induction false} StrictlySortedUnique(a: seq<string>, b: seq<string>)
    requires StrictlySorted(a) && StrictlySorted(b)
    requires forall y :: y in a <==> y in b
    ensures a == b
    decreases |a|
  {
    if b != [] {
      assert b[0] in a;
    }
    if a != [] {
      assert a[0] in b && b[0] in a;
      var i :| 0 <= i < |a| && a[i] == b[0];
      var j :| 0 <= j < |b| && b[j] == a[0];
      if i != 0 && j != 0 {
        KeyLessOrder(a[0], b[0], a[0]);
        assert false;
      }
      assert a == [a[0]] + a[1..] && b == [b[0]] + b[1..];
      forall y ensures y in a[1..] <==> y in b[1..] {
        KeyLessOrder(a[0], a[0], a[0]);
        if y in a[1..] {
          var i :| 1 <= i < |a| && a[i] == y;
          assert KeyLess(a[0], a[i]);
          assert y != a[0];
          assert y in b;
        }
        if y in b[1..] {
          var j :| 1 <= j < |b| && b[j] == y;
          assert KeyLess(b[0], b[j]);
          assert y != b[0];
          assert y in a;
        }
      }
      StrictlySortedUnique(a[1..], b[1..]);
    }
  }
}
