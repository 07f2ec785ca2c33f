/** The site sorts with `Array.prototype.sort` and a comparator `b - a` on a
    number derived from each element (a win percentage, a win count, a date,
    a per-game average). That sort is stable, and a comparator result of 0
    keeps the two elements in their original order.

    Every such key is modelled here as a fraction `num / den` with a
    positive denominator; fractions are compared by cross-multiplication,
    so win percentages are compared exactly and never divided. A plain
    integer key `n` is `Ratio(n, 1)`, and an ascending sort on `n` is the
    descending sort on `Ratio(-n, 1)`. */
module Sorting {
  import opened Seqs

  datatype Ratio = Ratio(num: int, den: int)

  /** `a >= b` as fractions, when both denominators are positive. */
  predicate AtLeast(a: Ratio, b: Ratio) { a.num * b.den >= b.num * a.den }

  /** `a == b` as fractions: the comparator returns 0. */
  predicate SameRank(a: Ratio, b: Ratio) { a.num * b.den == b.num * a.den }

  predicate KeysDefined<T(==,!new)>(s: seq<T>, key: T -> Ratio)
  {
    forall x :: x in s ==> key(x).den > 0
  }

  /** Non-increasing in `key`. */
  predicate SortedDesc<T>(s: seq<T>, key: T -> Ratio)
  {
    forall i, j :: 0 <= i < j < |s| ==> AtLeast(key(s[i]), key(s[j]))
  }

  lemma MulMonotone(x: int, y: int, k: int)
    requires k > 0 && x >= y
    ensures x * k >= y * k
  {
    assert (x - y) * k >= 0;
  }

  lemma MulCancel(x: int, y: int, k: int)
    requires k > 0 && x * k >= y * k
    ensures x >= y
  {
    if x < y { MulMonotone(y, x + 1, k); }
  }

  lemma AtLeastTrans(a: Ratio, b: Ratio, c: Ratio)
    requires a.den > 0 && b.den > 0 && c.den > 0
    requires AtLeast(a, b) && AtLeast(b, c)
    ensures AtLeast(a, c)
  {
    MulMonotone(a.num * b.den, b.num * a.den, c.den);
    MulMonotone(b.num * c.den, c.num * b.den, a.den);
    assert a.num * b.den * c.den == (a.num * c.den) * b.den;
    assert b.num * a.den * c.den == b.num * c.den * a.den;
    assert c.num * b.den * a.den == (c.num * a.den) * b.den;
    MulCancel(a.num * c.den, c.num * a.den, b.den);
  }

  lemma SameRankTrans(a: Ratio, b: Ratio, k: Ratio)
    requires a.den > 0 && b.den > 0 && k.den > 0
    requires SameRank(a, k) && SameRank(b, k)
    ensures SameRank(a, b)
  {
    assert a.num * k.den * b.den == k.num * a.den * b.den;
    assert b.num * k.den * a.den == k.num * b.den * a.den;
    assert (a.num * b.den) * k.den == (b.num * a.den) * k.den;
    MulCancel(a.num * b.den, b.num * a.den, k.den);
    MulCancel(b.num * a.den, a.num * b.den, k.den);
  }

  /** Places `x` in front of the first element it is at least as large as,
      so that `x` stays ahead of the elements that rank equal to it. */
  function Insert<T>(x: T, s: seq<T>, key: T -> Ratio): seq<T>
  {
    if s == [] then [x]
    else if AtLeast(key(x), key(s[0])) then [x] + s
    else [s[0]] + Insert(x, s[1..], key)
  }

  /** Every element of `t` ranks at most `h`. */
  predicate Dominates<T(==,!new)>(h: T, t: seq<T>, key: T -> Ratio)
  {
    forall y :: y in t ==> AtLeast(key(h), key(y))
  }

  lemma SortedCons<T(!new)>(h: T, t: seq<T>, key: T -> Ratio)
    requires SortedDesc(t, key) && Dominates(h, t, key)
    ensures SortedDesc([h] + t, key)
  {
    var r := [h] + t;
    forall i, j | 0 <= i < j < |r| ensures AtLeast(key(r[i]), key(r[j])) {
      if i == 0 { assert r[j] == t[j - 1]; } else { assert r[i] == t[i - 1] && r[j] == t[j - 1]; }
    }
  }

  lemma SortedHead<T(!new)>(s: seq<T>, key: T -> Ratio)
    requires s != [] && SortedDesc(s, key)
    ensures Dominates(s[0], s[1..], key) && SortedDesc(s[1..], key)
  {
    forall y | y in s[1..] ensures AtLeast(key(s[0]), key(y)) {
      var j :| 0 <= j < |s[1..]| && s[1..][j] == y;
      assert s[j + 1] == y;
    }
    forall i, j | 0 <= i < j < |s[1..]| ensures AtLeast(key(s[1..][i]), key(s[1..][j])) {
      assert s[1..][i] == s[i + 1] && s[1..][j] == s[j + 1];
    }
  }

  lemma DominatesTrans<T(!new)>(x: T, h: T, t: seq<T>, key: T -> Ratio)
    requires KeysDefined(t, key) && key(x).den > 0 && key(h).den > 0
    requires AtLeast(key(x), key(h)) && Dominates(h, t, key)
    ensures Dominates(x, [h] + t, key)
  {
    forall y | y in [h] + t ensures AtLeast(key(x), key(y)) {
      if y != h { AtLeastTrans(key(x), key(h), key(y)); }
    }
  }

  lemma DominatesMultiset<T(!new)>(h: T, a: seq<T>, b: seq<T>, key: T -> Ratio)
    requires multiset(a) == multiset(b) && Dominates(h, a, key)
    ensures Dominates(h, b, key)
  {
    forall y | y in b ensures AtLeast(key(h), key(y)) {
      assert y in multiset(b);
    }
  }

  lemma {:induction false} InsertSorted<T(!new)>(x: T, s: seq<T>, key: T -> Ratio)
    requires KeysDefined(s, key) && key(x).den > 0 && SortedDesc(s, key)
    ensures multiset(Insert(x, s, key)) == multiset(s) + multiset{x}
    ensures SortedDesc(Insert(x, s, key), key)
  {
    if s == [] {
    } else {
      assert s == [s[0]] + s[1..];
      SortedHead(s, key);
      if AtLeast(key(x), key(s[0])) {
        DominatesTrans(x, s[0], s[1..], key);
        SortedCons(x, s, key);
      } else {
        InsertSorted(x, s[1..], key);
        var t := Insert(x, s[1..], key);
        assert Dominates(s[0], [x] + s[1..], key);
        DominatesMultiset(s[0], [x] + s[1..], t, key);
        SortedCons(s[0], t, key);
      }
    }
  }

  /** The list sorted by non-increasing key; ties keep their input order. */
  function SortDesc<T(==,!new)>(s: seq<T>, key: T -> Ratio): (r: seq<T>)
    requires KeysDefined(s, key)
    ensures multiset(r) == multiset(s)
    ensures |r| == |s|
    ensures SortedDesc(r, key)
  {
    if s == [] then []
    else
      assert s == [s[0]] + s[1..];
      var rest := SortDesc(s[1..], key);
      assert forall y :: y in rest ==> y in multiset(s[1..]);
      InsertSorted(s[0], rest, key);
      assert |multiset(Insert(s[0], rest, key))| == |s|;
      Insert(s[0], rest, key)
  }

  /** A list that is already in order is left as it is; in particular
      sorting twice is sorting once. */
  lemma {:induction false} SortDescSorted<T(!new)>(s: seq<T>, key: T -> Ratio)
    requires KeysDefined(s, key) && SortedDesc(s, key)
    ensures SortDesc(s, key) == s
  {
    if s != [] {
      SortedHead(s, key);
      SortDescSorted(s[1..], key);
      if |s| > 1 {
        assert AtLeast(key(s[0]), key(s[1]));
      }
      assert [s[0]] + s[1..] == s;
    }
  }

  lemma SortDescIdempotent<T(!new)>(s: seq<T>, key: T -> Ratio)
    requires KeysDefined(s, key)
    ensures KeysDefined(SortDesc(s, key), key) && SortDesc(SortDesc(s, key), key) == SortDesc(s, key)
  {
    var r := SortDesc(s, key);
    assert forall x :: x in r ==> x in multiset(s);
    SortDescSorted(r, key);
  }

  lemma NotBothSameRank(a: Ratio, b: Ratio, k: Ratio)
    requires a.den > 0 && b.den > 0 && k.den > 0 && !AtLeast(a, b)
    ensures !(SameRank(a, k) && SameRank(b, k))
  {
    if SameRank(a, k) && SameRank(b, k) {
      SameRankTrans(a, b, k);
    }
  }

  /** Moving `x` past `h` does not change a filter that keeps at most one of them. */
  lemma StableStep<T(!new)>(x: T, h: T, t: seq<T>, rest: seq<T>, p: T -> bool)
    requires !(p(x) && p(h))
    requires Filter(t, p) == Filter([x], p) + Filter(rest, p)
    ensures Filter([h] + t, p) == Filter([x], p) + Filter([h] + rest, p)
  {
    assert ([h] + t)[1..] == t && ([h] + rest)[1..] == rest;
    assert ([h] + t)[0] == h && ([h] + rest)[0] == h;
    assert [x][1..] == [];
    if p(h) {
      assert Filter([x], p) == [];
    }
  }

  lemma {:induction false} InsertStable<T(!new)>(x: T, s: seq<T>, key: T -> Ratio, k: Ratio)
    requires KeysDefined(s, key) && key(x).den > 0 && k.den > 0
    ensures Filter(Insert(x, s, key), y => SameRank(key(y), k))
         == Filter([x], y => SameRank(key(y), k)) + Filter(s, y => SameRank(key(y), k))
  {
    if s == [] {
    } else if AtLeast(key(x), key(s[0])) {
      FilterAppend([x], s, y => SameRank(key(y), k));
    } else {
      assert s == [s[0]] + s[1..];
      InsertStable(x, s[1..], key, k);
      NotBothSameRank(key(x), key(s[0]), k);
      StableStep(x, s[0], Insert(x, s[1..], key), s[1..], y => SameRank(key(y), k));
    }
  }

  lemma {:induction false} SortDescStableRank<T(!new)>(s: seq<T>, key: T -> Ratio, k: Ratio)
    requires KeysDefined(s, key) && k.den > 0
    ensures Filter(SortDesc(s, key), y => SameRank(key(y), k)) == Filter(s, y => SameRank(key(y), k))
  {
    var P := (y: T) => SameRank(key(y), k);
    if s != [] {
      assert s == [s[0]] + s[1..];
      var rest := SortDesc(s[1..], key);
      assert forall y :: y in rest ==> y in multiset(s[1..]);
      SortDescStableRank(s[1..], key, k);
      InsertStable(s[0], rest, key, k);
      FilterAppend([s[0]], s[1..], P);
    }
  }

  /** Stability: for every rank `k`, the elements of rank `k` (those that
      `sameRank` selects) appear in the sorted list in exactly the order they
      had in `s`. */
  lemma SortDescStable<T(!new)>(s: seq<T>, key: T -> Ratio, k: Ratio, sameRank: T -> bool)
    requires KeysDefined(s, key) && k.den > 0
    requires forall y :: sameRank(y) == SameRank(key(y), k)
    ensures Filter(SortDesc(s, key), sameRank) == Filter(s, sameRank)
  {
    SortDescStableRank(s, key, k);
    FilterSame(SortDesc(s, key), sameRank, y => SameRank(key(y), k));
    FilterSame(s, sameRank, y => SameRank(key(y), k));
  }

  /** What a `slice(0, n)` of the sorted list keeps dominates what it drops. */
  lemma PrefixDominates<T(!new)>(s: seq<T>, key: T -> Ratio, n: nat)
    requires KeysDefined(s, key)
    ensures var r := SortDesc(s, key);
      forall p, q :: p in s && p !in r[..Min(n, |r|)] && q in r[..Min(n, |r|)] ==> AtLeast(key(q), key(p))
  {
    var r := SortDesc(s, key);
    var m := Min(n, |r|);
    forall p, q | p in s && p !in r[..m] && q in r[..m] ensures AtLeast(key(q), key(p)) {
      assert p in multiset(r);
      var i :| 0 <= i < |r| && r[i] == p;
      var j :| 0 <= j < m && r[..m][j] == q;
      assert i >= m;
    }
  }

  /** What a `slice(-n)` of the sorted list keeps is dominated by what it drops. */
  lemma SuffixDominated<T(!new)>(s: seq<T>, key: T -> Ratio, n: nat)
    requires KeysDefined(s, key)
    ensures var r := SortDesc(s, key); var b := |r| - Min(n, |r|);
      forall p, q :: p in s && p !in r[b..] && q in r[b..] ==> AtLeast(key(p), key(q))
  {
    var r := SortDesc(s, key);
    var b := |r| - Min(n, |r|);
    forall p, q | p in s && p !in r[b..] && q in r[b..] ensures AtLeast(key(p), key(q)) {
      assert p in multiset(r);
      var i :| 0 <= i < |r| && r[i] == p;
      var j :| 0 <= j < |r| - b && r[b..][j] == q;
      assert r[b + j] == q;
      assert i < b;
    }
  }
}
