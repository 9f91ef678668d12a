/**
 * Grouping a decoded list into a map keyed by one field of each element:
 * `m[key(x)] = append(m[key(x)], x)` for every `x` in input order. The
 * machine directory groups linodes by display group and IP records by the
 * id of the linode that owns them this way.
 */
module Grouping {

  /** No key occurs twice. */
  predicate Distinct<K(==)>(s: seq<K>) {
    forall i, j :: 0 <= i < j < |s| ==> s[i] != s[j]
  }

  /** `order` lists every key of `m` exactly once: one way a Go map range may go. */
  predicate IsKeyOrder<K(==), V>(order: seq<K>, m: map<K, V>) {
    Distinct(order) && (forall k :: k in order ==> k in m) && (forall k :: k in m ==> k in order)
  }

  /** The concatenation of a list of lists, in order. */
  function Concat<V(!new)>(xss: seq<seq<V>>): seq<V> {
    if |xss| == 0 then [] else Concat(xss[..|xss| - 1]) + xss[|xss| - 1]
  }

  /** An element is in the concatenation exactly when one of the lists holds it. */
  lemma {:induction false} ConcatMembers<V(!new)>(xss: seq<seq<V>>)
    ensures forall x :: x in Concat(xss) <==> exists i :: 0 <= i < |xss| && x in xss[i]
  {
    if |xss| > 0 {
      var init := xss[..|xss| - 1];
      ConcatMembers(init);
      forall x | x in Concat(xss)
        ensures exists i :: 0 <= i < |xss| && x in xss[i]
      {
        if x in Concat(init) {
          var i :| 0 <= i < |init| && x in init[i];
          assert x in xss[i];
        } else {
          assert x in xss[|xss| - 1];
        }
      }
      forall x, i | 0 <= i < |xss| && x in xss[i]
        ensures x in Concat(xss)
      {
        if i < |xss| - 1 {
          assert x in init[i];
        }
      }
    }
  }

  /**
   * The elements of `xs` whose key is `k`, in input order: what the group
   * for `k` holds once every element has been appended.
   */
  function Filter<K(==, !new), V(==, !new)>(xs: seq<V>, key: V -> K, k: K): (r: seq<V>)
    ensures |r| <= |xs|
  {
    if |xs| == 0 then []
    else
      var last := xs[|xs| - 1];
      Filter(xs[..|xs| - 1], key, k) + if key(last) == k then [last] else []
  }

  /** The group for `k` holds each element with key `k` as often as the input, and nothing else. */
  lemma {:induction false} FilterCounts<K(!new), V(!new)>(xs: seq<V>, key: V -> K, k: K)
    ensures forall v :: multiset(Filter(xs, key, k))[v] == if key(v) == k then multiset(xs)[v] else 0
    ensures forall v :: v in Filter(xs, key, k) <==> v in xs && key(v) == k
  {
    if |xs| > 0 {
      var init, last := xs[..|xs| - 1], xs[|xs| - 1];
      FilterCounts(init, key, k);
      assert xs == init + [last];
      assert multiset(xs) == multiset(init) + multiset{last};
    }
  }

  function KeysOf<K(==, !new), V(==, !new)>(xs: seq<V>, key: V -> K): set<K> {
    set x | x in xs :: key(x)
  }

  /**
   * The grouped map: one entry per key that occurs, holding exactly the
   * elements with that key, each as often as in the input.
   */
  function GroupBy<K(==, !new), V(==, !new)>(xs: seq<V>, key: V -> K): (m: map<K, seq<V>>)
    ensures forall k :: k in m <==> exists x :: x in xs && key(x) == k
    ensures forall k :: k in m ==> m[k] != []
  {
    FiltersNonEmpty(xs, key);
    map k | k in KeysOf(xs, key) :: Filter(xs, key, k)
  }

  /** A key that occurs has a non-empty group: `append` only ever creates an entry by adding to it. */
  lemma FiltersNonEmpty<K(!new), V(!new)>(xs: seq<V>, key: V -> K)
    ensures forall k :: k in KeysOf(xs, key) ==> Filter(xs, key, k) != []
  {
    forall k | k in KeysOf(xs, key)
      ensures Filter(xs, key, k) != []
    {
      var x :| x in xs && key(x) == k;
      FilterCounts(xs, key, k);
      assert x in Filter(xs, key, k);
    }
  }

  /** Every element sits in the group of its own key, and a group holds only elements with its key. */
  lemma GroupByMembers<K(!new), V(!new)>(xs: seq<V>, key: V -> K)
    ensures forall x :: x in xs ==> key(x) in GroupBy(xs, key) && x in GroupBy(xs, key)[key(x)]
    ensures forall k, v :: k in GroupBy(xs, key) && v in GroupBy(xs, key)[k] ==> key(v) == k && v in xs
  {
    forall k {
      FilterCounts(xs, key, k);
    }
  }

  /**
   * Nothing is lost or duplicated: each group holds every element with its
   * key exactly as often as the input does.
   */
  lemma GroupByCounts<K(!new), V(!new)>(xs: seq<V>, key: V -> K, v: V)
    ensures key(v) in GroupBy(xs, key) ==> multiset(GroupBy(xs, key)[key(v)])[v] == multiset(xs)[v]
    ensures key(v) !in GroupBy(xs, key) ==> v !in xs
  {
    FilterCounts(xs, key, key(v));
  }

  lemma FilterSnoc<K(!new), V(!new)>(xs: seq<V>, x: V, key: V -> K, k: K)
    ensures Filter(xs + [x], key, k) == Filter(xs, key, k) + if key(x) == k then [x] else []
  {
    assert (xs + [x])[..|xs|] == xs;
  }

  lemma FilterAbsent<K(!new), V(!new)>(xs: seq<V>, key: V -> K, k: K)
    requires k !in KeysOf(xs, key)
    ensures Filter(xs, key, k) == []
  {
    FilterCounts(xs, key, k);
    if Filter(xs, key, k) != [] {
      assert Filter(xs, key, k)[0] in Filter(xs, key, k);
    }
  }

  /** `m[k] = append(m[k], v)`, where a missing key reads as an empty slice. */
  function Append<K(==), V>(m: map<K, seq<V>>, k: K, v: V): (r: map<K, seq<V>>)
  {
    m[k := (if k in m then m[k] else []) + [v]]
  }

  /** Appending one element extends the group of its own key and no other. */
  lemma GroupBySnoc<K(!new), V(!new)>(xs: seq<V>, x: V, key: V -> K)
    ensures GroupBy(xs + [x], key) == Append(GroupBy(xs, key), key(x), x)
  {
    var ys := xs + [x];
    var before, after := GroupBy(xs, key), GroupBy(ys, key);
    var expected := before[key(x) := (if key(x) in before then before[key(x)] else []) + [x]];
    assert KeysOf(ys, key) == KeysOf(xs, key) + {key(x)};
    assert after.Keys == expected.Keys;
    forall k | k in after
      ensures after[k] == expected[k]
    {
      FilterSnoc(xs, x, key, k);
      if k == key(x) && k !in before {
        FilterAbsent(xs, key, k);
      }
    }
    assert after == expected;
  }

  /** One step of the grouping loop over a prefix of the input. */
  lemma GroupByStep<K(!new), V(!new)>(xs: seq<V>, i: nat, key: V -> K)
    requires i < |xs|
    ensures GroupBy(xs[..i + 1], key) == Append(GroupBy(xs[..i], key), key(xs[i]), xs[i])
  {
    assert xs[..i + 1] == xs[..i] + [xs[i]];
    GroupBySnoc(xs[..i], xs[i], key);
  }

  /** One step of a grouping loop that continues from the groups of `seen`. */
  lemma GroupByExtend<K(!new), V(!new)>(seen: seq<V>, xs: seq<V>, i: nat, key: V -> K)
    requires i <= |xs|
    ensures i == 0 ==> GroupBy(seen + xs[..i], key) == GroupBy(seen, key)
    ensures i == |xs| ==> GroupBy(seen + xs[..i], key) == GroupBy(seen + xs, key)
    ensures i < |xs| ==> GroupBy(seen + xs[..i + 1], key) == Append(GroupBy(seen + xs[..i], key), key(xs[i]), xs[i])
  {
    assert i == 0 ==> seen + xs[..i] == seen;
    assert i == |xs| ==> seen + xs[..i] == seen + xs;
    if i < |xs| {
      assert seen + xs[..i + 1] == (seen + xs[..i]) + [xs[i]];
      GroupBySnoc(seen + xs[..i], xs[i], key);
    }
  }

  /** The keys of a map grouped from an empty list: none. */
  lemma GroupByEmpty<K(!new), V(!new)>(key: V -> K)
    ensures GroupBy([], key) == map[]
  {
    assert KeysOf([], key) == {};
  }

  // ---------------------------------------------------------------------
  // Order is kept: each group is a subsequence of the input.
  // ---------------------------------------------------------------------

  /** `idx` picks the elements of `s` out of `t` at strictly increasing positions. */
  ghost predicate Embeds<V>(idx: seq<nat>, s: seq<V>, t: seq<V>) {
    && |idx| == |s|
    && (forall i :: 0 <= i < |idx| ==> idx[i] < |t| && s[i] == t[idx[i]])
    && (forall i, j :: 0 <= i < j < |idx| ==> idx[i] < idx[j])
  }

  ghost predicate IsSubsequence<V>(s: seq<V>, t: seq<V>) {
    exists idx :: Embeds(idx, s, t)
  }

  lemma {:induction false} FilterEmbeds<K(!new), V(!new)>(xs: seq<V>, key: V -> K, k: K) returns (idx: seq<nat>)
    ensures Embeds(idx, Filter(xs, key, k), xs)
  {
    if |xs| == 0 {
      idx := [];
    } else {
      var init := xs[..|xs| - 1];
      var last := xs[|xs| - 1];
      idx := FilterEmbeds(init, key, k);
      if key(last) == k {
        idx := idx + [|xs| - 1];
      }
    }
  }

  /** Grouping keeps the input order of the elements that share a key. */
  lemma GroupKeepsOrder<K(!new), V(!new)>(xs: seq<V>, key: V -> K, k: K)
    requires k in GroupBy(xs, key)
    ensures IsSubsequence(GroupBy(xs, key)[k], xs)
  {
    var idx := FilterEmbeds(xs, key, k);
  }

  // ---------------------------------------------------------------------
  // Nothing is lost or duplicated: the group sizes add up to the input size.
  // ---------------------------------------------------------------------

  /** The sizes of the groups named by `order`, added up. */
  function GroupSizes<K(==, !new), V(==, !new)>(xs: seq<V>, key: V -> K, order: seq<K>): nat
  {
    if |order| == 0 then 0
    else GroupSizes(xs, key, order[..|order| - 1]) + |Filter(xs, key, order[|order| - 1])|
  }

  lemma {:induction false} GroupSizesSnoc<K(!new), V(!new)>(xs: seq<V>, x: V, key: V -> K, order: seq<K>)
    requires Distinct(order)
    ensures GroupSizes(xs + [x], key, order) == GroupSizes(xs, key, order) + if key(x) in order then 1 else 0
  {
    var ys := xs + [x];
    assert ys[..|ys| - 1] == xs;
    if |order| > 0 {
      var init := order[..|order| - 1];
      assert order == init + [order[|order| - 1]];
      GroupSizesSnoc(xs, x, key, init);
    }
  }

  /** Over a list of distinct keys covering every element, the group sizes sum to the input size. */
  lemma {:induction false} GroupSizesTotal<K(!new), V(!new)>(xs: seq<V>, key: V -> K, order: seq<K>)
    requires Distinct(order)
    requires forall x :: x in xs ==> key(x) in order
    ensures GroupSizes(xs, key, order) == |xs|
  {
    if |xs| == 0 {
      GroupSizesEmpty(key, order);
    } else {
      var init := xs[..|xs| - 1];
      assert xs == init + [xs[|xs| - 1]];
      GroupSizesTotal(init, key, order);
      GroupSizesSnoc(init, xs[|xs| - 1], key, order);
    }
  }

  lemma {:induction false} GroupSizesEmpty<K(!new), V(!new)>(key: V -> K, order: seq<K>)
    ensures GroupSizes([], key, order) == 0
  {
    if |order| > 0 {
      GroupSizesEmpty(key, order[..|order| - 1]);
    }
  }
}
