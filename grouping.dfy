/** Grouping a list by a key, the way the site's `reduce` calls build an
    object keyed by date or position and then read it back with
    `Object.entries` or `Object.values`: one group per key, in the order the
    keys first appear, each holding that key's elements in list order. */
module Grouping {
  import opened Seqs

  datatype Group<K, T> = Group(key: K, items: seq<T>)

  /** The elements whose key is `k`. */
  function OnKey<T, K(==,!new)>(key: T -> K, k: K): T -> bool
  {
    (x: T) => key(x) == k
  }

  predicate Distinct<K(==,!new)>(ks: seq<K>)
  {
    forall i, j :: 0 <= i < j < |ks| ==> ks[i] != ks[j]
  }

  /** The keys of `s`, each once, in the order they first appear. */
  function Keys<T(!new), K(==,!new)>(s: seq<T>, key: T -> K): (r: seq<K>)
    ensures forall k :: k in r <==> exists x :: x in s && key(x) == k
    ensures Distinct(r)
  {
    if s == [] then []
    else
      var init := s[..|s| - 1];
      var x := s[|s| - 1];
      var ks := Keys(init, key);
      assert forall y :: y in s <==> y in init || y == x by {
        assert s == init + [x];
      }
      if key(x) in ks then ks else ks + [key(x)]
  }

  /** Adding an element adds its key at the end when the key is new. */
  lemma KeysSnoc<T(!new), K(!new)>(s: seq<T>, key: T -> K, x: T)
    ensures Keys(s + [x], key) == if key(x) in Keys(s, key) then Keys(s, key) else Keys(s, key) + [key(x)]
  {
    var t := s + [x];
    assert t[..|t| - 1] == s;
  }

  /** Some element with key `a` comes before every element with key `b`. */
  predicate SeenBefore<T, K(==,!new)>(s: seq<T>, key: T -> K, a: K, b: K)
  {
    exists i :: 0 <= i < |s| && key(s[i]) == a && forall j :: 0 <= j <= i ==> key(s[j]) != b
  }

  /** The keys are listed in the order they first appear in `s`. */
  lemma {:induction false} KeysOrder<T(!new), K(!new)>(s: seq<T>, key: T -> K)
    ensures var ks := Keys(s, key);
      forall k, l :: 0 <= k < l < |ks| ==> SeenBefore(s, key, ks[k], ks[l])
  {
    if s != [] {
      var init := s[..|s| - 1];
      var x := s[|s| - 1];
      assert init + [x] == s;
      KeysOrder(init, key);
      KeysSnoc(init, key, x);
      var ks := Keys(init, key);
      var r := Keys(s, key);
      forall k, l | 0 <= k < l < |r| ensures SeenBefore(s, key, r[k], r[l]) {
        if l < |ks| {
          assert SeenBefore(init, key, ks[k], ks[l]);
          var i :| 0 <= i < |init| && key(init[i]) == ks[k] && forall j :: 0 <= j <= i ==> key(init[j]) != ks[l];
          assert s[i] == init[i];
        } else {
          assert ks[k] in ks && r[l] == key(x) && key(x) !in ks;
          var y :| y in init && key(y) == ks[k];
          var i :| 0 <= i < |init| && init[i] == y;
          assert forall j :: 0 <= j <= i ==> s[j] == init[j] && init[j] in init;
          assert key(s[i]) == r[k];
        }
      }
    }
  }

  /** The groups of `s` by `key`. */
  function GroupBy<T(==,!new), K(==,!new)>(s: seq<T>, key: T -> K): (r: seq<Group<K, T>>)
    ensures |r| == |Keys(s, key)|
    ensures forall k :: 0 <= k < |r| ==> r[k] == Group(Keys(s, key)[k], Filter(s, OnKey(key, Keys(s, key)[k])))
  {
    var ks := Keys(s, key);
    seq(|ks|, k requires 0 <= k < |ks| => Group(ks[k], Filter(s, OnKey(key, ks[k]))))
  }

  /** Where the group of key `k` is, if there is one. */
  function GroupOf<K(==), T>(groups: seq<Group<K, T>>, k: K): (r: Option<nat>)
    ensures r.Some? ==> r.value < |groups| && groups[r.value].key == k
    ensures r.None? ==> forall i :: 0 <= i < |groups| ==> groups[i].key != k
  {
    if groups == [] then None
    else if groups[|groups| - 1].key == k then Some(|groups| - 1)
    else GroupOf(groups[..|groups| - 1], k)
  }

  /** Adding an element extends its own key's filter and no other. */
  lemma FilterSnoc<T(!new), K(!new)>(s: seq<T>, key: T -> K, x: T, k: K)
    ensures Filter(s + [x], OnKey(key, k)) == if k == key(x) then Filter(s, OnKey(key, k)) + [x] else Filter(s, OnKey(key, k))
  {
    FilterAppend(s, [x], OnKey(key, k));
  }

  /** An element of a key already present joins that key's group. */
  lemma GroupBySnocOld<T(!new), K(!new)>(s: seq<T>, key: T -> K, x: T, k: nat)
    requires k < |GroupBy(s, key)| && GroupBy(s, key)[k].key == key(x)
    ensures var g := GroupBy(s, key); GroupBy(s + [x], key) == g[k := Group(key(x), g[k].items + [x])]
  {
    var g := GroupBy(s, key);
    var g' := GroupBy(s + [x], key);
    var ks := Keys(s, key);
    KeysSnoc(s, key, x);
    assert key(x) in ks;
    forall i | 0 <= i < |g'| ensures g'[i] == g[k := Group(key(x), g[k].items + [x])][i] {
      FilterSnoc(s, key, x, ks[i]);
      if i == k {
        assert g'[i] == Group(key(x), g[k].items + [x]);
      } else {
        assert g'[i] == g[i];
      }
    }
  }

  /** An element of a new key opens a group at the end. */
  lemma GroupBySnocNew<T(!new), K(!new)>(s: seq<T>, key: T -> K, x: T)
    requires forall k :: 0 <= k < |GroupBy(s, key)| ==> GroupBy(s, key)[k].key != key(x)
    ensures GroupBy(s + [x], key) == GroupBy(s, key) + [Group(key(x), [x])]
  {
    var g := GroupBy(s, key);
    var g' := GroupBy(s + [x], key);
    var ks := Keys(s, key);
    KeysSnoc(s, key, x);
    assert key(x) !in ks;
    FilterNone(s, OnKey(key, key(x)));
    forall i | 0 <= i < |g'| ensures g'[i] == (g + [Group(key(x), [x])])[i] {
      FilterSnoc(s, key, x, Keys(s + [x], key)[i]);
    }
  }

  /** Adding one element adds it to its key's group, or opens a new group
      at the end for a new key. */
  lemma GroupBySnoc<T(!new), K(!new)>(s: seq<T>, key: T -> K, x: T)
    ensures var g := GroupBy(s, key); var g' := GroupBy(s + [x], key);
      match GroupOf(g, key(x))
      case Some(k) => g' == g[k := Group(key(x), g[k].items + [x])]
      case None => g' == g + [Group(key(x), [x])]
  {
    match GroupOf(GroupBy(s, key), key(x))
    case Some(k) => GroupBySnocOld(s, key, x, k);
    case None => GroupBySnocNew(s, key, x);
  }

  /** The number of elements in all groups. */
  function Total<K, T>(groups: seq<Group<K, T>>): nat
  {
    if groups == [] then 0 else Total(groups[..|groups| - 1]) + |groups[|groups| - 1].items|
  }

  lemma {:induction false} TotalUpdate<K, T>(groups: seq<Group<K, T>>, k: nat, g: Group<K, T>)
    requires k < |groups|
    ensures Total(groups[k := g]) + |groups[k].items| == Total(groups) + |g.items|
  {
    var n := |groups|;
    var u := groups[k := g];
    if k == n - 1 {
      assert u[..n - 1] == groups[..n - 1];
    } else {
      TotalUpdate(groups[..n - 1], k, g);
      assert u[..n - 1] == groups[..n - 1][k := g];
    }
  }

  /** Every element is in exactly one group: the group sizes add up to the
      length of the list. */
  lemma {:induction false} GroupByTotal<T(!new), K(!new)>(s: seq<T>, key: T -> K)
    ensures Total(GroupBy(s, key)) == |s|
  {
    if s != [] {
      var init := s[..|s| - 1];
      var x := s[|s| - 1];
      assert init + [x] == s;
      GroupByTotal(init, key);
      GroupBySnoc(init, key, x);
      var g := GroupBy(init, key);
      match GroupOf(g, key(x))
      case Some(k) =>
        TotalUpdate(g, k, Group(key(x), g[k].items + [x]));
      case None =>
        assert (g + [Group(key(x), [x])])[..|g|] == g;
    }
  }

  /** No group is empty, a group holds only elements of its key, groups have
      distinct keys, and every element is in some group. */
  lemma GroupByShape<T(!new), K(!new)>(s: seq<T>, key: T -> K)
    ensures var g := GroupBy(s, key);
      (forall k :: 0 <= k < |g| ==> g[k].items != []) &&
      (forall k, x :: 0 <= k < |g| && x in g[k].items ==> x in s && key(x) == g[k].key) &&
      (forall k, l :: 0 <= k < l < |g| ==> g[k].key != g[l].key) &&
      (forall x :: x in s ==> exists k :: 0 <= k < |g| && x in g[k].items)
  {
    var g := GroupBy(s, key);
    var ks := Keys(s, key);
    forall k | 0 <= k < |g| ensures g[k].items != [] {
      assert ks[k] in ks;
      var x :| x in s && key(x) == ks[k];
      assert x in g[k].items;
    }
    forall x | x in s ensures exists k :: 0 <= k < |g| && x in g[k].items {
      assert key(x) in ks;
      var k :| 0 <= k < |ks| && ks[k] == key(x);
      assert x in g[k].items;
    }
  }
}
