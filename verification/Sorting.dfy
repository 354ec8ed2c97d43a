/** The order of sorted dict keys (src/encode.rs, `dict_sorted`): code-point order, whichever form a key is held in. */
module Sorting {
  import opened Common
  import opened Utf8

  // ---- the comparison is a total order -----------------------------------------------------

  lemma {:induction false} CompareFlips(a: seq<int>, b: seq<int>)
    ensures Compare(b, a) == -Compare(a, b)
  {
    if a != [] && b != [] && a[0] == b[0] {
      CompareFlips(a[1..], b[1..]);
    }
  }

  lemma {:induction false} CompareTransitive(a: seq<int>, b: seq<int>, c: seq<int>)
    requires Compare(a, b) <= 0 && Compare(b, c) <= 0
    ensures Compare(a, c) <= 0
    ensures Compare(a, b) < 0 || Compare(b, c) < 0 ==> Compare(a, c) < 0
  {
    if a != [] && b != [] && c != [] && a[0] == b[0] == c[0] {
      CompareTransitive(a[1..], b[1..], c[1..]);
    }
  }

  /** A key as the sort sees it: its UTF-8 where CPython already holds it, and its characters. */
  datatype Keyed<V> = Keyed(utf8: Option<seq<byte>>, cps: seq<codepoint>, value: V)

  predicate KeyedOk<V>(k: Keyed<V>) {
    SurrogateFree(k.cps) && (k.utf8.Some? ==> k.utf8.value == Encode(k.cps))
  }

  /** The comparator: bytes where both keys have UTF-8, code points otherwise. */
  function KeyCompare<V>(a: Keyed<V>, b: Keyed<V>): int {
    if a.utf8.Some? && b.utf8.Some? then Compare(a.utf8.value, b.utf8.value) else Compare(a.cps, b.cps)
  }

  /** Mixing the two comparisons is consistent: both are code-point order. */
  lemma KeyCompareIsCodePointOrder<V>(a: Keyed<V>, b: Keyed<V>)
    requires KeyedOk(a) && KeyedOk(b)
    ensures KeyCompare(a, b) == Compare(a.cps, b.cps)
    ensures KeyCompare(a, b) < 0 <==> Before(a.cps, b.cps)
    ensures KeyCompare(a, b) == 0 <==> a.cps == b.cps
  {
    hide Compare, Before;
    CompareIsLexicographic(a.cps, b.cps);
    if a.utf8.Some? && b.utf8.Some? {
      OrderPreserved(a.cps, b.cps);
    }
  }

  // ---- a stable sort -----------------------------------------------------------------------

  function Insert<V>(x: Keyed<V>, s: seq<Keyed<V>>): seq<Keyed<V>> {
    if s == [] then [x]
    else if Compare(x.cps, s[0].cps) <= 0 then [x] + s
    else [s[0]] + Insert(x, s[1..])
  }

  /** The items in code-point order of their keys, equal keys in their original order. */
  function Sort<V>(s: seq<Keyed<V>>): seq<Keyed<V>> {
    if s == [] then [] else Insert(s[0], Sort(s[1..]))
  }

  ghost predicate Ordered<V>(s: seq<Keyed<V>>) {
    forall i, j | 0 <= i < j < |s| :: Compare(s[i].cps, s[j].cps) <= 0
  }

  lemma {:induction false} InsertPermutes<V>(x: Keyed<V>, s: seq<Keyed<V>>)
    ensures multiset(Insert(x, s)) == multiset{x} + multiset(s)
    ensures |Insert(x, s)| == |s| + 1
  {
    if s != [] {
      assert s == [s[0]] + s[1..];
      if Compare(x.cps, s[0].cps) > 0 { InsertPermutes(x, s[1..]); }
    }
  }

  lemma {:induction false} InsertOrders<V>(x: Keyed<V>, s: seq<Keyed<V>>)
    requires Ordered(s)
    ensures Ordered(Insert(x, s))
  {
    hide Compare;
    var r := Insert(x, s);
    if s != [] {
      CompareFlips(x.cps, s[0].cps);
      if Compare(x.cps, s[0].cps) <= 0 {
        forall j | 0 < j < |r| ensures Compare(r[0].cps, r[j].cps) <= 0 {
          if j > 1 { CompareTransitive(x.cps, s[0].cps, s[j - 1].cps); }
        }
      } else {
        InsertOrders(x, s[1..]);
        InsertPermutes(x, s[1..]);
        forall j | 0 < j < |r| ensures Compare(r[0].cps, r[j].cps) <= 0 {
          assert r[j] == Insert(x, s[1..])[j - 1];
          assert r[j] in multiset(Insert(x, s[1..]));
          if r[j] != x { assert r[j] in s[1..]; }
        }
      }
    }
  }

  lemma OrderedIsInOrder<V>(s: seq<Keyed<V>>)
    requires Ordered(s)
    ensures forall i, j | 0 <= i < j < |s| :: NotAfter(s[i].cps, s[j].cps)
  {
    hide Compare, Before;
    forall i, j | 0 <= i < j < |s| ensures NotAfter(s[i].cps, s[j].cps) {
      CompareIsLexicographic(s[i].cps, s[j].cps);
    }
  }

  /** The items with one key, in their order. */
  function WithKey<V>(s: seq<Keyed<V>>, key: seq<int>): seq<Keyed<V>> {
    if s == [] then [] else IfKey(s[0], key) + WithKey(s[1..], key)
  }

  function IfKey<V>(x: Keyed<V>, key: seq<int>): seq<Keyed<V>> {
    if x.cps == key then [x] else []
  }

  lemma WithKeyFirst<V>(x: Keyed<V>, s: seq<Keyed<V>>, key: seq<int>)
    ensures WithKey([x] + s, key) == IfKey(x, key) + WithKey(s, key)
  {
    assert ([x] + s)[1..] == s;
  }

  lemma DifferentKeys<V>(x: Keyed<V>, y: Keyed<V>, s: seq<Keyed<V>>, key: seq<int>)
    requires x.cps != y.cps
    ensures IfKey(x, key) + (IfKey(y, key) + s) == IfKey(y, key) + (IfKey(x, key) + s)
  {}

  lemma {:induction false} InsertIsStable<V>(x: Keyed<V>, s: seq<Keyed<V>>, key: seq<int>)
    ensures WithKey(Insert(x, s), key) == WithKey([x] + s, key)
  {
    hide Compare, Before, IfKey, WithKey;
    if s != [] && Compare(x.cps, s[0].cps) > 0 {
      var tail := s[1..];
      CompareIsLexicographic(x.cps, s[0].cps);
      InsertIsStable(x, tail, key);
      WithKeyFirst(s[0], Insert(x, tail), key);
      WithKeyFirst(x, tail, key);
      WithKeyFirst(x, s, key);
      WithKeyFirst(s[0], tail, key);
      assert [s[0]] + tail == s;
      DifferentKeys(x, s[0], WithKey(tail, key), key);
    } else {
      InsertHere(x, s);
    }
  }

  /** Items with equal keys keep their order. */
  lemma {:induction false} SortIsStable<V>(s: seq<Keyed<V>>, key: seq<int>)
    ensures WithKey(Sort(s), key) == WithKey(s, key)
  {
    hide Insert, IfKey;
    if s != [] {
      SortIsStable(s[1..], key);
      InsertIsStable(s[0], Sort(s[1..]), key);
      WithKeyFirst(s[0], Sort(s[1..]), key);
    }
  }

  /** The sorted items are an ordered permutation of the items. */
  lemma {:induction false} SortIsOrderedPermutation<V>(s: seq<Keyed<V>>)
    ensures multiset(Sort(s)) == multiset(s) && |Sort(s)| == |s|
    ensures Ordered(Sort(s))
    ensures forall i, j | 0 <= i < j < |Sort(s)| :: NotAfter(Sort(s)[i].cps, Sort(s)[j].cps)
  {
    hide Insert, Compare, Before;
    if s != [] {
      SortIsOrderedPermutation(s[1..]);
      InsertPermutes(s[0], Sort(s[1..]));
      InsertOrders(s[0], Sort(s[1..]));
      assert s == [s[0]] + s[1..];
      OrderedIsInOrder(Sort(s));
    }
  }

  ghost predicate StrictlyOrdered<V>(s: seq<Keyed<V>>) {
    forall i, j | 0 <= i < j < |s| :: Compare(s[i].cps, s[j].cps) < 0
  }

  lemma SameElements<V>(s: seq<Keyed<V>>, t: seq<Keyed<V>>)
    requires multiset(s) == multiset(t)
    ensures forall k | k in s :: k in t
  {
    forall k | k in s ensures k in t {
      assert k in multiset(s);
    }
  }

  lemma SameFirst<V>(s: seq<Keyed<V>>, t: seq<Keyed<V>>)
    requires StrictlyOrdered(s) && StrictlyOrdered(t) && multiset(s) == multiset(t) && s != [] && t != []
    ensures s[0] == t[0]
  {
    hide Compare;
    SameElements(s, t);
    SameElements(t, s);
    assert s[0] in t && t[0] in s;
    var i :| 0 <= i < |t| && t[i] == s[0];
    var j :| 0 <= j < |s| && s[j] == t[0];
    CompareFlips(s[0].cps, t[0].cps);
  }

  lemma TailElements<V>(s: seq<Keyed<V>>)
    requires s != []
    ensures multiset(s[1..]) == multiset(s) - multiset{s[0]}
  {
    assert s == [s[0]] + s[1..];
  }

  /** Where keys differ, as in a dict of `str`, there is only one ordered permutation: any sort gives it. */
  lemma {:induction false} OrderedPermutationUnique<V>(s: seq<Keyed<V>>, t: seq<Keyed<V>>)
    requires StrictlyOrdered(s) && StrictlyOrdered(t) && multiset(s) == multiset(t)
    ensures s == t
    decreases |s|
  {
    hide Compare;
    assert |multiset(s)| == |s| && |multiset(t)| == |t|;
    if s != [] {
      SameFirst(s, t);
      TailElements(s);
      TailElements(t);
      OrderedPermutationUnique(s[1..], t[1..]);
      assert s == [s[0]] + s[1..] && t == [t[0]] + t[1..];
    }
  }

  /** Puts `x` in front of the first key that is not before it. */
  method InsertBy<V>(x: Keyed<V>, s: seq<Keyed<V>>) returns (r: seq<Keyed<V>>)
    requires KeyedOk(x) && forall k | 0 <= k < |s| :: KeyedOk(s[k])
    ensures r == Insert(x, s) && forall k | 0 <= k < |r| :: KeyedOk(r[k])
  {
    hide Compare, KeyCompare, KeyedOk, Before, Insert;
    var at := 0;
    assert [] + Insert(x, s[0..]) == Insert(x, s) by { assert s[0..] == s; }
    while at < |s| && KeyCompare(x, s[at]) > 0
      invariant at <= |s|
      invariant Insert(x, s) == s[..at] + Insert(x, s[at..])
    {
      KeyCompareIsCodePointOrder(x, s[at]);
      InsertLater(x, s, at);
      at := at + 1;
    }
    if at < |s| { KeyCompareIsCodePointOrder(x, s[at]); }
    InsertHere(x, s[at..]);
    r := s[..at] + [x] + s[at..];
    assert r == s[..at] + ([x] + s[at..]);
    Among(s, x, at);
  }

  lemma InsertLater<V>(x: Keyed<V>, s: seq<Keyed<V>>, at: nat)
    requires at < |s| && Compare(x.cps, s[at].cps) > 0
    ensures s[..at] + Insert(x, s[at..]) == s[..at + 1] + Insert(x, s[at + 1..])
  {
    hide Compare;
    assert s[at..][1..] == s[at + 1..];
    assert s[..at] + ([s[at]] + Insert(x, s[at + 1..])) == (s[..at] + [s[at]]) + Insert(x, s[at + 1..]);
    assert s[..at] + [s[at]] == s[..at + 1];
  }

  lemma InsertHere<V>(x: Keyed<V>, s: seq<Keyed<V>>)
    requires s == [] || Compare(x.cps, s[0].cps) <= 0
    ensures Insert(x, s) == [x] + s
  {
    hide Compare;
  }

  lemma Among<V>(s: seq<Keyed<V>>, x: Keyed<V>, at: nat)
    requires at <= |s|
    ensures forall k | 0 <= k < |s| + 1 :: (s[..at] + [x] + s[at..])[k] == if k < at then s[k] else if k == at then x else s[k - 1]
  {}

  /** The sort with the source's comparator; it stands in for the standard library's stable sort. */
  method SortBy<V>(s: seq<Keyed<V>>) returns (r: seq<Keyed<V>>)
    requires forall k | 0 <= k < |s| :: KeyedOk(s[k])
    ensures r == Sort(s)
  {
    hide Insert, KeyedOk;
    r := [];
    for i := |s| downto 0
      invariant r == Sort(s[i..])
      invariant forall k | 0 <= k < |r| :: KeyedOk(r[k])
    {
      assert s[i..][1..] == s[i + 1..];
      r := InsertBy(s[i], r);
    }
    assert s[0..] == s;
  }
}
