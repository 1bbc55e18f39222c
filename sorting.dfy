/**
 * Ordering by serialization: `a.localeCompare(b)` on the stable serializations,
 * modelled as lexicographic order on character codes, and a stable sort by key.
 */
module Sorting {

  /** `a` is not after `b` in lexicographic order on character codes. */
  predicate LexLe(a: string, b: string)
  {
    |a| == 0 || (|b| > 0 && (a[0] < b[0] || (a[0] == b[0] && LexLe(a[1..], b[1..]))))
  }

  lemma {:induction false} LexLeTotal(a: string, b: string)
    ensures LexLe(a, b) || LexLe(b, a)
  {
    if |a| > 0 && |b| > 0 && a[0] == b[0] {
      LexLeTotal(a[1..], b[1..]);
    }
  }

  lemma {:induction false} LexLeAntisymmetric(a: string, b: string)
    requires LexLe(a, b) && LexLe(b, a)
    ensures a == b
  {
    if |a| > 0 {
      LexLeAntisymmetric(a[1..], b[1..]);
      assert a == [a[0]] + a[1..] && b == [b[0]] + b[1..];
    }
  }

  lemma {:induction false} LexLeTransitive(a: string, b: string, c: string)
    requires LexLe(a, b) && LexLe(b, c)
    ensures LexLe(a, c)
  {
    if |a| > 0 && a[0] == b[0] && b[0] == c[0] {
      LexLeTransitive(a[1..], b[1..], c[1..]);
    }
  }

  /** Pairwise non-decreasing keys. */
  ghost predicate SortedBy<T>(xs: seq<T>, key: T -> string)
  {
    forall i, j :: 0 <= i < j < |xs| ==> LexLe(key(xs[i]), key(xs[j]))
  }

  /** Inserts `x` before the first element whose key is not below its own. */
  function Insert<T>(x: T, xs: seq<T>, key: T -> string): (r: seq<T>)
  {
    if xs == [] then [x]
    else if LexLe(key(x), key(xs[0])) then [x] + xs
    else [xs[0]] + Insert(x, xs[1..], key)
  }

  /** `Array.prototype.sort` with a key comparator: a stable insertion sort. */
  function SortBy<T>(xs: seq<T>, key: T -> string): (r: seq<T>)
  {
    if xs == [] then [] else Insert(xs[0], SortBy(xs[1..], key), key)
  }

  lemma {:induction false} InsertPermutes<T>(x: T, xs: seq<T>, key: T -> string)
    ensures multiset(Insert(x, xs, key)) == multiset{x} + multiset(xs)
  {
    if xs != [] && !LexLe(key(x), key(xs[0])) {
      InsertPermutes(x, xs[1..], key);
      assert xs == [xs[0]] + xs[1..];
    }
  }

  /** Every key in `xs` is at least `k`. */
  ghost predicate AllAbove<T>(k: string, xs: seq<T>, key: T -> string)
  {
    forall i :: 0 <= i < |xs| ==> LexLe(k, key(xs[i]))
  }

  lemma {:induction false} InsertAbove<T>(k: string, x: T, xs: seq<T>, key: T -> string)
    requires AllAbove(k, xs, key) && LexLe(k, key(x))
    ensures AllAbove(k, Insert(x, xs, key), key)
  {
    if xs != [] && !LexLe(key(x), key(xs[0])) {
      InsertAbove(k, x, xs[1..], key);
    }
  }

  lemma {:induction false} InsertSorted<T>(x: T, xs: seq<T>, key: T -> string)
    requires SortedBy(xs, key)
    ensures SortedBy(Insert(x, xs, key), key)
  {
    if xs == [] {
    } else if LexLe(key(x), key(xs[0])) {
      var r := Insert(x, xs, key);
      forall i, j | 0 <= i < j < |r| ensures LexLe(key(r[i]), key(r[j])) {
        if i == 0 && j > 1 {
          LexLeTransitive(key(x), key(xs[0]), key(xs[j - 1]));
        }
      }
    } else {
      InsertSorted(x, xs[1..], key);
      LexLeTotal(key(x), key(xs[0]));
      assert AllAbove(key(xs[0]), xs[1..], key);
      InsertAbove(key(xs[0]), x, xs[1..], key);
      SortedCons(xs[0], Insert(x, xs[1..], key), key);
    }
  }

  lemma SortedCons<T>(y: T, ys: seq<T>, key: T -> string)
    requires SortedBy(ys, key) && AllAbove(key(y), ys, key)
    ensures SortedBy([y] + ys, key)
  {
    var r := [y] + ys;
    forall i, j | 0 <= i < j < |r| ensures LexLe(key(r[i]), key(r[j])) {
      if i > 0 {
        assert r[i] == ys[i - 1] && r[j] == ys[j - 1];
      }
    }
  }

  /** The sort returns a permutation of its input. */
  lemma {:induction false} SortPermutes<T>(xs: seq<T>, key: T -> string)
    ensures multiset(SortBy(xs, key)) == multiset(xs)
  {
    if xs != [] {
      SortPermutes(xs[1..], key);
      InsertPermutes(xs[0], SortBy(xs[1..], key), key);
      assert xs == [xs[0]] + xs[1..];
    }
  }

  /** The sort returns its input ordered by key. */
  lemma {:induction false} SortSorts<T>(xs: seq<T>, key: T -> string)
    ensures SortedBy(SortBy(xs, key), key)
  {
    if xs != [] {
      SortSorts(xs[1..], key);
      InsertSorted(xs[0], SortBy(xs[1..], key), key);
    }
  }

  ghost predicate Injective<T(!new)>(key: T -> string)
  {
    forall x, y :: key(x) == key(y) ==> x == y
  }

  /** Under an injective key there is only one sorted arrangement of a multiset. */
  lemma {:induction false} SortedUnique<T(!new)>(a: seq<T>, b: seq<T>, key: T -> string)
    requires Injective(key)
    requires SortedBy(a, key) && SortedBy(b, key)
    requires multiset(a) == multiset(b)
    ensures a == b
  {
    if a != [] {
      assert |b| == |multiset(b)| == |multiset(a)| == |a|;
      assert a[0] in multiset(b) && b[0] in multiset(a);
      var i :| 0 <= i < |a| && a[i] == b[0];
      var j :| 0 <= j < |b| && b[j] == a[0];
      if i > 0 && j > 0 {
        assert LexLe(key(a[0]), key(a[i]));
        assert LexLe(key(b[0]), key(b[j]));
        LexLeAntisymmetric(key(a[0]), key(b[0]));
      }
      assert key(a[0]) == key(b[0]);
      assert a[0] == b[0];
      RemoveAt(a, 0);
      RemoveAt(b, 0);
      SortedUnique(a[1..], b[1..], key);
    }
  }

  /** Sorting by an injective key forgets the input order. */
  lemma SortForgetsOrder<T(!new)>(xs: seq<T>, ys: seq<T>, key: T -> string)
    requires Injective(key)
    requires multiset(xs) == multiset(ys)
    ensures SortBy(xs, key) == SortBy(ys, key)
  {
    SortPermutes(xs, key);
    SortPermutes(ys, key);
    SortSorts(xs, key);
    SortSorts(ys, key);
    SortedUnique(SortBy(xs, key), SortBy(ys, key), key);
  }

  /** Sorting an already sorted sequence changes nothing. */
  lemma SortKeepsSorted<T(!new)>(xs: seq<T>, key: T -> string)
    requires Injective(key)
    requires SortedBy(xs, key)
    ensures SortBy(xs, key) == xs
  {
    SortPermutes(xs, key);
    SortSorts(xs, key);
    SortedUnique(SortBy(xs, key), xs, key);
  }

  function MapSeq<T, U>(f: T -> U, xs: seq<T>): (r: seq<U>)
  {
    seq(|xs|, i requires 0 <= i < |xs| => f(xs[i]))
  }

  lemma RemoveAt<T>(s: seq<T>, j: nat)
    requires j < |s|
    ensures multiset(s[..j] + s[j + 1..]) == multiset(s) - multiset{s[j]}
    ensures j == 0 ==> s[..j] + s[j + 1..] == s[1..]
  {
    assert s == s[..j] + [s[j]] + s[j + 1..];
  }

  lemma MapAppend<T, U>(f: T -> U, xs: seq<T>, ys: seq<T>)
    ensures MapSeq(f, xs + ys) == MapSeq(f, xs) + MapSeq(f, ys)
  {
  }

  lemma MapRemoved<T, U>(f: T -> U, ys: seq<T>, j: nat)
    requires j < |ys|
    ensures multiset(MapSeq(f, ys)) == multiset(MapSeq(f, ys[..j] + ys[j + 1..])) + multiset{f(ys[j])}
  {
    var left, right := ys[..j], ys[j + 1..];
    assert ys == left + ([ys[j]] + right);
    MapAppend(f, left, [ys[j]] + right);
    MapAppend(f, [ys[j]], right);
    MapAppend(f, left, right);
  }

  /** Mapping two permutations of each other gives two permutations of each other. */
  lemma {:induction false} MapPermutes<T, U>(f: T -> U, xs: seq<T>, ys: seq<T>)
    requires multiset(xs) == multiset(ys)
    ensures multiset(MapSeq(f, xs)) == multiset(MapSeq(f, ys))
    decreases |xs|, 1
  {
    if xs == [] {
      assert |ys| == |multiset(ys)| == 0;
    } else {
      assert xs[0] in multiset(ys);
      var j :| 0 <= j < |ys| && ys[j] == xs[0];
      MapPermutesAt(f, xs, ys, j);
    }
  }

  lemma {:induction false} MapPermutesAt<T, U>(f: T -> U, xs: seq<T>, ys: seq<T>, j: nat)
    requires multiset(xs) == multiset(ys)
    requires xs != [] && j < |ys| && ys[j] == xs[0]
    ensures multiset(MapSeq(f, xs)) == multiset(MapSeq(f, ys))
    decreases |xs|, 0
  {
    var rest := ys[..j] + ys[j + 1..];
    RemoveAt(ys, j);
    RemoveAt(xs, 0);
    assert multiset(xs[1..]) == multiset(rest);
    MapPermutes(f, xs[1..], rest);
    MapRemoved(f, ys, j);
    MapRemoved(f, xs, 0);
    assert multiset(MapSeq(f, xs)) == multiset(MapSeq(f, xs[1..])) + multiset{f(xs[0])};
  }
}
