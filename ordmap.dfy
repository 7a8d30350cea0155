// Python dictionaries as the index uses them: keys kept in insertion order,
// assignment to an existing key updates it in place, assignment to a new key
// appends it. Also the `if k not in d: d[k] = 0; d[k] += c` counter idiom and
// the term-count table built from a token list.

module OrderedMaps {
  import opened PyText

  /** The keys of a dictionary, in insertion order. */
  function Keys<K, V>(p: seq<(K, V)>): (r: seq<K>)
    ensures |r| == |p|
    ensures forall i :: 0 <= i < |p| ==> r[i] == p[i].0
  {
    if p == [] then [] else [p[0].0] + Keys(p[1..])
  }

  predicate Unique<T(==)>(s: seq<T>)
  {
    forall i, j :: 0 <= i < j < |s| ==> s[i] != s[j]
  }

  /** `d.get(k)`: the value stored under k, if any. */
  function Get<K(==), V>(p: seq<(K, V)>, k: K): (r: Option<V>)
    ensures r.None? <==> k !in Keys(p)
  {
    if p == [] then None
    else if p[0].0 == k then Some(p[0].1)
    else
      assert Keys(p) == [p[0].0] + Keys(p[1..]);
      Get(p[1..], k)
  }

  /** `d.get(k, 0)` for a dictionary of counts. */
  function Count<K(==)>(p: seq<(K, nat)>, k: K): nat
  {
    match Get(p, k)
    case Some(c) => c
    case None => 0
  }

  /** `d[k] = v`. */
  function Put<K(==), V>(p: seq<(K, V)>, k: K, v: V): (r: seq<(K, V)>)
    ensures k in Keys(p) ==> Keys(r) == Keys(p)
    ensures k !in Keys(p) ==> Keys(r) == Keys(p) + [k]
  {
    if p == [] then [(k, v)]
    else if p[0].0 == k then [(k, v)] + p[1..]
    else
      assert Keys(p) == [p[0].0] + Keys(p[1..]);
      [p[0]] + Put(p[1..], k, v)
  }

  lemma {:induction false} PutGet<K, V>(p: seq<(K, V)>, k: K, v: V, k': K)
    ensures Get(Put(p, k, v), k') == if k' == k then Some(v) else Get(p, k')
  {
    if p != [] && p[0].0 != k {
      PutGet(p[1..], k, v, k');
    }
  }

  lemma PutUnique<K, V>(p: seq<(K, V)>, k: K, v: V)
    requires Unique(Keys(p))
    ensures Unique(Keys(Put(p, k, v)))
  {
    if k !in Keys(p) {
      UniqueExtend(Keys(p), k);
    }
  }

  /** Appending a new element keeps a sequence free of repetitions. */
  lemma UniqueExtend<T>(s: seq<T>, x: T)
    requires Unique(s) && x !in s
    ensures Unique(s + [x])
  {
    var t := s + [x];
    forall i, j | 0 <= i < j < |t|
      ensures t[i] != t[j]
    {
      if j == |s| {
        assert t[i] == s[i];
      } else {
        assert t[i] == s[i] && t[j] == s[j];
      }
    }
  }

  /** Assigning a key the dictionary does not hold appends it. */
  lemma {:induction false} PutNew<K, V>(p: seq<(K, V)>, k: K, v: V)
    requires k !in Keys(p)
    ensures Put(p, k, v) == p + [(k, v)]
  {
    if p != [] {
      assert Keys(p) == [p[0].0] + Keys(p[1..]);
      PutNew(p[1..], k, v);
      calc {
        Put(p, k, v);
        [p[0]] + Put(p[1..], k, v);
        [p[0]] + (p[1..] + [(k, v)]);
        { assert [p[0]] + p[1..] == p; }
        p + [(k, v)];
      }
    }
  }

  /** A key the dictionary holds sits at some position, with its value. */
  lemma {:induction false} GetIndex<K, V>(p: seq<(K, V)>, k: K) returns (i: nat)
    requires k in Keys(p)
    ensures i < |p| && p[i].0 == k && Get(p, k) == Some(p[i].1)
  {
    if p[0].0 == k {
      i := 0;
    } else {
      assert Keys(p) == [p[0].0] + Keys(p[1..]);
      var j := GetIndex(p[1..], k);
      i := j + 1;
    }
  }

  /** Looking a key up from position i on meets the i-th entry first; with
      distinct keys, that entry's key does not occur again. */
  lemma GetFrom<K, V>(p: seq<(K, V)>, i: nat, k: K)
    requires i < |p| && Unique(Keys(p))
    ensures Get(p[i..], k) == if p[i].0 == k then Some(p[i].1) else Get(p[i + 1..], k)
    ensures p[i].0 !in Keys(p[i + 1..])
  {
    assert p[i..][0] == p[i] && p[i..][1..] == p[i + 1..];
    NotAfter(p, i);
  }

  lemma NotAfter<K, V>(p: seq<(K, V)>, i: nat)
    requires i < |p| && Unique(Keys(p))
    ensures p[i].0 !in Keys(p[i + 1..])
  {
    var rest := p[i + 1..];
    forall j | 0 <= j < |rest|
      ensures Keys(rest)[j] != p[i].0
    {
      assert rest[j] == p[i + 1 + j];
      assert Keys(p)[i] != Keys(p)[i + 1 + j];
    }
  }

  /** `if k not in d: d[k] = 0` followed by `d[k] += c`. */
  function Bump<K(==)>(p: seq<(K, nat)>, k: K, c: nat): seq<(K, nat)>
  {
    var v: nat := Count(p, k) + c;
    Put(p, k, v)
  }

  lemma BumpCount<K>(p: seq<(K, nat)>, k: K, c: nat, k': K)
    ensures Count(Bump(p, k, c), k') == Count(p, k') + (if k' == k then c else 0)
  {
    var v: nat := Count(p, k) + c;
    BumpIsPut(p, k, c, v);
    PutGet<K, nat>(p, k, v, k');
  }

  /** Assigning a key twice is assigning it the second value. */
  lemma {:induction false} PutTwice<K, V>(p: seq<(K, V)>, k: K, v: V, w: V)
    ensures Put(Put(p, k, v), k, w) == Put(p, k, w)
  {
    if p == [] {
      assert [(k, v)][1..] == [];
    } else if p[0].0 == k {
      assert ([(k, v)] + p[1..])[1..] == p[1..];
    } else {
      var r := Put(p, k, v);
      assert r[0] == p[0] && r[1..] == Put(p[1..], k, v);
      PutTwice(p[1..], k, v, w);
    }
  }

  /** The counter idiom on a key d does not hold: `d[k] = 0` makes the
      increment `d[k] += c` read 0, and the two assignments act as one. */
  lemma BumpNewKey<K>(p: seq<(K, nat)>, k: K, c: nat)
    requires k !in Keys(p)
    ensures Get(Put<K, nat>(p, k, 0), k) == Some(0)
    ensures Put<K, nat>(Put<K, nat>(p, k, 0), k, c) == Bump(p, k, c)
  {
    PutGet<K, nat>(p, k, 0, k);
    PutTwice<K, nat>(p, k, 0, c);
    BumpIsPut(p, k, c, c);
  }

  /** The counter idiom as two statements: `if k not in d: d[k] = 0`, then
      `d[k] += c`. */
  method Increment<K(==)>(d: seq<(K, nat)>, k: K, c: nat) returns (r: seq<(K, nat)>)
    ensures r == Bump(d, k, c)
  {
    r := d;
    if k !in Keys(r) {
      BumpNewKey(d, k, c);
      r := Put<K, nat>(r, k, 0);
    } else {
      BumpIsPut(d, k, c, Count(d, k) + c);
    }
    r := Put<K, nat>(r, k, Count(r, k) + c);
  }

  lemma BumpIsPut<K>(p: seq<(K, nat)>, k: K, c: nat, v: nat)
    requires v == Count(p, k) + c
    ensures Bump(p, k, c) == Put<K, nat>(p, k, v)
  {
  }

  /** The sum of the values of a dictionary of counts. */
  function SumValues<K>(p: seq<(K, nat)>): nat
  {
    if p == [] then 0 else p[0].1 + SumValues(p[1..])
  }

  lemma {:induction false} SumPut<K>(p: seq<(K, nat)>, k: K, v: nat)
    ensures SumValues(Put(p, k, v)) + Count(p, k) == SumValues(p) + v
  {
    if p != [] && p[0].0 != k {
      SumPut(p[1..], k, v);
    }
  }

  lemma SumBump<K>(p: seq<(K, nat)>, k: K, c: nat)
    ensures SumValues(Bump(p, k, c)) == SumValues(p) + c
  {
    var v: nat := Count(p, k) + c;
    BumpIsPut(p, k, c, v);
    SumPut(p, k, v);
  }

  /** The counting loop run over s, starting from the table acc. */
  function CountInto<K(==)>(acc: seq<(K, nat)>, s: seq<K>): seq<(K, nat)>
    decreases |s|
  {
    if s == [] then acc else CountInto(Bump(acc, s[0], 1), s[1..])
  }

  /** The term-count table of s: each distinct element with its number of occurrences. */
  function Counts<K(==)>(s: seq<K>): seq<(K, nat)>
  {
    CountInto([], s)
  }

  lemma CountIntoFacts<K>(acc: seq<(K, nat)>, s: seq<K>)
    requires Unique(Keys(acc))
    ensures Unique(Keys(CountInto(acc, s)))
    ensures forall k :: k in Keys(CountInto(acc, s)) <==> k in Keys(acc) || k in s
    ensures forall k :: Count(CountInto(acc, s), k) == Count(acc, k) + multiset(s)[k]
    ensures SumValues(CountInto(acc, s)) == SumValues(acc) + |s|
  {
    CountIntoUnique(acc, s);
    forall k
      ensures k in Keys(CountInto(acc, s)) <==> k in Keys(acc) || k in s
      ensures Count(CountInto(acc, s), k) == Count(acc, k) + multiset(s)[k]
    {
      CountIntoKeys(acc, s, k);
      CountIntoCount(acc, s, k);
    }
    CountIntoSum(acc, s);
  }

  lemma {:induction false} CountIntoUnique<K>(acc: seq<(K, nat)>, s: seq<K>)
    requires Unique(Keys(acc))
    ensures Unique(Keys(CountInto(acc, s)))
    decreases |s|
  {
    if s != [] {
      var v: nat := Count(acc, s[0]) + 1;
      BumpIsPut(acc, s[0], 1, v);
      PutUnique<K, nat>(acc, s[0], v);
      CountIntoUnique(Bump(acc, s[0], 1), s[1..]);
    }
  }

  lemma {:induction false} CountIntoKeys<K>(acc: seq<(K, nat)>, s: seq<K>, k: K)
    ensures k in Keys(CountInto(acc, s)) <==> k in Keys(acc) || k in s
    decreases |s|
  {
    if s != [] {
      var x, t := s[0], s[1..];
      var v: nat := Count(acc, x) + 1;
      BumpIsPut(acc, x, 1, v);
      CountIntoKeys(Bump(acc, x, 1), t, k);
      assert k in s <==> k == x || k in t by { assert s == [x] + t; }
    }
  }

  lemma {:induction false} CountIntoCount<K>(acc: seq<(K, nat)>, s: seq<K>, k: K)
    ensures Count(CountInto(acc, s), k) == Count(acc, k) + multiset(s)[k]
    decreases |s|
  {
    if s != [] {
      var x, t := s[0], s[1..];
      BumpCount(acc, x, 1, k);
      CountIntoCount(Bump(acc, x, 1), t, k);
      assert multiset(s)[k] == (if k == x then 1 else 0) + multiset(t)[k] by { assert s == [x] + t; }
    }
  }

  lemma {:induction false} CountIntoSum<K>(acc: seq<(K, nat)>, s: seq<K>)
    ensures SumValues(CountInto(acc, s)) == SumValues(acc) + |s|
    decreases |s|
  {
    if s != [] {
      SumBump(acc, s[0], 1);
      CountIntoSum(Bump(acc, s[0], 1), s[1..]);
    }
  }

  /** The table of `Counts(s)` has exactly the distinct elements of s as keys,
      each once, maps each to its number of occurrences, and its values add
      up to the length of s. */
  lemma CountsFacts<K>(s: seq<K>)
    ensures Unique(Keys(Counts(s)))
    ensures forall k :: k in Keys(Counts(s)) <==> k in s
    ensures forall k :: Count(Counts(s), k) == multiset(s)[k]
    ensures SumValues(Counts(s)) == |s|
  {
    CountIntoFacts([], s);
  }

  /** `for k, c in p.items(): acc[k] = acc.get(k, 0) + c`. */
  function AddAll<K(==)>(acc: seq<(K, nat)>, p: seq<(K, nat)>): seq<(K, nat)>
    decreases |p|
  {
    if p == [] then acc else AddAll(Bump(acc, p[0].0, p[0].1), p[1..])
  }

  /** The sum of the values stored under k, counting every entry with that key. */
  function SumFor<K(==)>(p: seq<(K, nat)>, k: K): nat
  {
    if p == [] then 0 else (if p[0].0 == k then p[0].1 else 0) + SumFor(p[1..], k)
  }

  lemma {:induction false} AddAllFacts<K>(acc: seq<(K, nat)>, p: seq<(K, nat)>)
    requires Unique(Keys(acc))
    ensures Unique(Keys(AddAll(acc, p)))
    ensures forall k :: k in Keys(AddAll(acc, p)) <==> k in Keys(acc) || k in Keys(p)
    ensures forall k :: Count(AddAll(acc, p), k) == Count(acc, k) + SumFor(p, k)
    decreases |p|
  {
    if p != [] {
      var acc' := Bump(acc, p[0].0, p[0].1);
      PutUnique<K, nat>(acc, p[0].0, Count(acc, p[0].0) + p[0].1);
      AddAllFacts(acc', p[1..]);
      assert Keys(p) == [p[0].0] + Keys(p[1..]);
      forall k ensures Count(AddAll(acc, p), k) == Count(acc, k) + SumFor(p, k) {
        BumpCount(acc, p[0].0, p[0].1, k);
      }
    }
  }

  /** With each key once, the sum for k is the value stored under k. */
  lemma {:induction false} SumForUnique<K>(p: seq<(K, nat)>, k: K)
    requires Unique(Keys(p))
    ensures SumFor(p, k) == Count(p, k)
  {
    if p != [] {
      SumForUnique(p[1..], k);
      if p[0].0 == k {
        assert Keys(p) == [p[0].0] + Keys(p[1..]);
        assert k !in Keys(p[1..]);
      }
    }
  }

  /** Two dictionaries with the same keys in the same order, each key once,
      and the same value under every key are the same dictionary. */
  lemma Extensional<K, V>(p: seq<(K, V)>, q: seq<(K, V)>)
    requires Unique(Keys(p)) && Keys(p) == Keys(q)
    requires forall k :: Get(p, k) == Get(q, k)
    ensures p == q
  {
    forall i | 0 <= i < |p| ensures p[i] == q[i] {
      GetAt(p, i);
      GetAt(q, i);
    }
  }

  lemma {:induction false} GetAt<K, V>(p: seq<(K, V)>, i: nat)
    requires Unique(Keys(p)) && i < |p|
    ensures Get(p, p[i].0) == Some(p[i].1)
  {
    if i > 0 {
      assert Keys(p)[0] != Keys(p)[i];
      assert Unique(Keys(p[1..]));
      GetAt(p[1..], i - 1);
    }
  }

  /** `set(s)` turned into a list in first-occurrence order. */
  function Dedup<T(==,!new)>(s: seq<T>): (r: seq<T>)
    ensures Unique(r)
    ensures forall x :: x in r <==> x in s
  {
    DedupInto([], s)
  }

  function DedupInto<T(==,!new)>(acc: seq<T>, s: seq<T>): (r: seq<T>)
    requires Unique(acc)
    ensures Unique(r)
    ensures forall x :: x in r <==> x in acc || x in s
    decreases |s|
  {
    if s == [] then acc
    else DedupInto(if s[0] in acc then acc else acc + [s[0]], s[1..])
  }
}
