/**
 * Declined arrays in whole documents (src/numpy.rs, src/encode.rs): wherever they are, the document
 * is the one with the results of `default` in their places.
 */
module Rollback {
  import opened Common
  import opened JsonText
  import opened Objects
  import opened Sorting
  import opened Document
  import NumpyWalk
  import Numpy
  import Utf8

  /** `b` is `a`, or what `default` returned for an `a` that was handed to it. */
  ghost predicate Moved(env: Env, a: Ref, b: Ref)
    requires EnvOk(env)
  {
    || b == a
    || (a in env.g && GoesToDefault(env, a) && env.default.Some? && a in env.default.value && b == env.default.value[a])
  }

  ghost predicate ItemsMoved(env: Env, s: seq<Ref>, t: seq<Ref>)
    requires EnvOk(env)
  {
    |t| == |s| && forall k | 0 <= k < |s| :: Moved(env, s[k], t[k])
  }

  ghost predicate PairMoved(env: Env, p: (Ref, Ref), q: (Ref, Ref))
    requires EnvOk(env)
  {
    q.0 == p.0 && Moved(env, p.1, q.1)
  }

  ghost predicate PairsMoved(env: Env, s: seq<(Ref, Ref)>, t: seq<(Ref, Ref)>)
    requires EnvOk(env)
  {
    |t| == |s| && forall k | 0 <= k < |s| :: PairMoved(env, s[k], t[k])
  }

  ghost predicate NodeMoved(env: Env, n: Node, m: Node)
    requires EnvOk(env)
  {
    match n
    case NList(items) => m.NList? && ItemsMoved(env, items, m.items)
    case NTuple(items) => m.NTuple? && ItemsMoved(env, items, m.items)
    case NDict(pairs) => m.NDict? && PairsMoved(env, pairs, m.pairs)
    case _ => m == n
  }

  /** The same objects, but any of their items and values may be replaced by what `default` returned for it. */
  ghost predicate Replaced(env: Env, env2: Env)
    requires EnvOk(env)
  {
    && env2.default == env.default && env2.opts == env.opts && env2.digitLimit == env.digitLimit
    && env2.g.Keys == env.g.Keys
    && forall r | r in env.g :: env2.g[r].exact == env.g[r].exact && NodeMoved(env, env.g[r].node, env2.g[r].node)
  }

  lemma MovedInGraph(env: Env, a: Ref, b: Ref)
    requires EnvOk(env) && a in env.g && Moved(env, a, b)
    ensures b in env.g
  {
    hide GoesToDefault, NodeOk;
  }

  lemma ReplacedNode(env: Env, env2: Env, r: Ref)
    requires EnvOk(env) && Replaced(env, env2) && r in env.g
    ensures r in env2.g && NodeOk(env2.g, env2.g[r].node)
    ensures env2.g[r].exact == env.g[r].exact && NodeMoved(env, env.g[r].node, env2.g[r].node)
  {
    hide Moved, NumpyWalk.Readable;
    assert NodeOk(env.g, env.g[r].node);
    match env.g[r].node
    case NList(items) => ItemsInGraph(env, items, env2.g[r].node.items);
    case NTuple(items) => ItemsInGraph(env, items, env2.g[r].node.items);
    case NDict(pairs) => PairsInGraph(env, pairs, env2.g[r].node.pairs);
    case _ =>
  }

  lemma ItemsInGraph(env: Env, s: seq<Ref>, t: seq<Ref>)
    requires EnvOk(env) && Closed(env.g, s) && ItemsMoved(env, s, t)
    ensures Closed(env.g, t)
  {
    hide EnvOk, Moved;
    forall k | 0 <= k < |t| ensures t[k] in env.g {
      MovedInGraph(env, s[k], t[k]);
    }
  }

  lemma PairsInGraph(env: Env, s: seq<(Ref, Ref)>, t: seq<(Ref, Ref)>)
    requires EnvOk(env) && ClosedPairs(env.g, s) && PairsMoved(env, s, t)
    ensures ClosedPairs(env.g, t)
  {
    hide EnvOk, Moved;
    forall k | 0 <= k < |t| ensures t[k].0 in env.g && t[k].1 in env.g {
      assert PairMoved(env, s[k], t[k]);
      MovedInGraph(env, s[k].1, t[k].1);
    }
  }

  lemma ReplacedOk(env: Env, env2: Env)
    requires EnvOk(env) && Replaced(env, env2)
    ensures EnvOk(env2)
  {
    hide NodeOk, NodeMoved;
    forall r | r in env2.g ensures NodeOk(env2.g, env2.g[r].node) {
      ReplacedNode(env, env2, r);
    }
  }

  // ---- the order of keys ---------------------------------------------------------------------

  /** A key is the same text in both. */
  lemma KeySame(env: Env, env2: Env, k: Ref)
    requires EnvOk(env) && Replaced(env, env2) && k in env.g && KeyChars(env.g, k).Ok?
    ensures k in env2.g && env2.g[k] == env.g[k] && KeyChars(env2.g, k) == KeyChars(env.g, k)
  {
    hide EnvOk, Moved, Utf8.SurrogateFree;
  }

  ghost predicate KeyedMoved(env: Env, s: Keyed<(Ref, Ref)>, t: Keyed<(Ref, Ref)>)
    requires EnvOk(env)
  {
    t.utf8 == s.utf8 && t.cps == s.cps && PairMoved(env, s.value, t.value)
  }

  ghost predicate AllKeyedMoved(env: Env, s: seq<Keyed<(Ref, Ref)>>, t: seq<Keyed<(Ref, Ref)>>)
    requires EnvOk(env)
  {
    |t| == |s| && forall k | 0 <= k < |s| :: KeyedMoved(env, s[k], t[k])
  }

  lemma {:induction false} KeyedPairsMoved(env: Env, env2: Env, s: seq<(Ref, Ref)>, t: seq<(Ref, Ref)>)
    requires EnvOk(env) && Replaced(env, env2) && ClosedPairs(env.g, s) && ClosedPairs(env2.g, t) && PairsMoved(env, s, t)
    requires KeyedPairs(env.g, s).Ok?
    ensures KeyedPairs(env2.g, t).Ok? && AllKeyedMoved(env, KeyedPairs(env.g, s).value, KeyedPairs(env2.g, t).value)
    decreases |s|
  {
    hide EnvOk, Moved, KeyChars, Replaced;
    if s != [] {
      assert PairMoved(env, s[0], t[0]);
      KeySame(env, env2, s[0].0);
      KeyedPairsMoved(env, env2, s[1..], t[1..]);
    }
  }

  lemma {:induction false} InsertMoved(env: Env, x: Keyed<(Ref, Ref)>, y: Keyed<(Ref, Ref)>,
                                       s: seq<Keyed<(Ref, Ref)>>, t: seq<Keyed<(Ref, Ref)>>)
    requires EnvOk(env) && KeyedMoved(env, x, y) && AllKeyedMoved(env, s, t)
    ensures AllKeyedMoved(env, Insert(x, s), Insert(y, t))
    decreases |s|
  {
    hide EnvOk, PairMoved, Utf8.Compare;
    if s != [] {
      assert KeyedMoved(env, s[0], t[0]);
      InsertMoved(env, x, y, s[1..], t[1..]);
    }
  }

  lemma {:induction false} SortMoved(env: Env, s: seq<Keyed<(Ref, Ref)>>, t: seq<Keyed<(Ref, Ref)>>)
    requires EnvOk(env) && AllKeyedMoved(env, s, t)
    ensures AllKeyedMoved(env, Sort(s), Sort(t))
    decreases |s|
  {
    hide EnvOk, Insert, KeyedMoved;
    if s != [] {
      SortMoved(env, s[1..], t[1..]);
      InsertMoved(env, s[0], t[0], Sort(s[1..]), Sort(t[1..]));
    }
  }

  /** The members are written in the same order, with moved values. */
  lemma WrittenPairsMoved(env: Env, env2: Env, s: seq<(Ref, Ref)>, t: seq<(Ref, Ref)>)
    requires EnvOk(env) && Replaced(env, env2) && ClosedPairs(env.g, s) && ClosedPairs(env2.g, t) && PairsMoved(env, s, t)
    requires WrittenPairs(env.g, s, env.opts).Ok?
    ensures WrittenPairs(env2.g, t, env2.opts).Ok?
    ensures PairsMoved(env, WrittenPairs(env.g, s, env.opts).value, WrittenPairs(env2.g, t, env2.opts).value)
  {
    hide EnvOk, PairMoved, Sort, KeyedPairs, ClosedPairs, NodeMoved;
    if env.opts.sortKeys {
      KeyedPairsMoved(env, env2, s, t);
      var a, b := KeyedPairs(env.g, s).value, KeyedPairs(env2.g, t).value;
      SortMoved(env, a, b);
      forall k | 0 <= k < |PairsOf(Sort(a))| ensures PairMoved(env, PairsOf(Sort(a))[k], PairsOf(Sort(b))[k]) {
        assert KeyedMoved(env, Sort(a)[k], Sort(b)[k]);
      }
    }
  }

  // ---- the same values -------------------------------------------------------------------------

  lemma SameDefault(env: Env, env2: Env, r: Ref)
    requires EnvOk(env) && EnvOk(env2) && Replaced(env, env2) && r in env.g
    ensures GoesToDefault(env2, r) == GoesToDefault(env, r)
  {
    hide Moved, NumpyWalk.Tree, NumpyWalk.Readable, Numpy.ElemTree, EnvOk;
    ReplacedNode(env, env2, r);
    assert NodeOk(env.g, env.g[r].node) by { NodeIsOk(env, r); }
  }

  lemma NodeIsOk(env: Env, r: Ref)
    requires EnvOk(env) && r in env.g
    ensures NodeOk(env.g, env.g[r].node)
  {}

  /** An object that is moved has the value it had. */
  lemma {:induction false} SameValue(env: Env, env2: Env, r: Ref, r2: Ref, depth: nat, dd: nat)
    requires EnvOk(env) && EnvOk(env2) && Replaced(env, env2) && r in env.g && Moved(env, r, r2)
    requires depth <= MAX_DEPTH && dd <= MAX_DEFAULT_DEPTH && ValueOf(env, r, depth, dd).Ok?
    ensures r2 in env2.g && ValueOf(env2, r2, depth, dd) == ValueOf(env, r, depth, dd)
    decreases Budget(depth, dd), 3, 0
  {
    hide EnvOk, GoesToDefault, ValueOf, NodeMoved;
    if r2 != r {
      DefaultIs(env, r, depth, dd);
      DefaultInGraph(env, r);
      FewerDefaults(env, r2, depth, dd);
    }
    SameNode(env, env2, r2, depth, dd);
  }

  lemma {:induction false} SameNode(env: Env, env2: Env, r: Ref, depth: nat, dd: nat)
    requires EnvOk(env) && EnvOk(env2) && Replaced(env, env2) && r in env.g
    requires depth <= MAX_DEPTH && dd <= MAX_DEFAULT_DEPTH && ValueOf(env, r, depth, dd).Ok?
    ensures r in env2.g && ValueOf(env2, r, depth, dd) == ValueOf(env, r, depth, dd)
    decreases Budget(depth, dd), 2, 0
  {
    hide EnvOk, GoesToDefault, ValueOf, Replaced, NodeMoved;
    ReplacedNode(env, env2, r);
    SameDefault(env, env2, r);
    if GoesToDefault(env, r) {
      DefaultIs(env, r, depth, dd);
      DefaultIs(env2, r, depth, dd);
      SameDefaultValue(env, env2, r, depth, dd);
    } else {
      SameOwnValue(env, env2, r, depth, dd);
    }
  }

  lemma {:induction false} SameDefaultValue(env: Env, env2: Env, r: Ref, depth: nat, dd: nat)
    requires EnvOk(env) && EnvOk(env2) && Replaced(env, env2) && r in env.g && r in env2.g
    requires depth <= MAX_DEPTH && dd <= MAX_DEFAULT_DEPTH && DefaultValue(env, r, depth, dd).Ok?
    ensures DefaultValue(env2, r, depth, dd) == DefaultValue(env, r, depth, dd)
    decreases Budget(depth, dd), 1, 0
  {
    hide EnvOk, ValueOf, NodeMoved;
    DefaultInGraph(env, r);
    SameNode(env, env2, env.default.value[r], depth, dd + 1);
  }

  lemma {:induction false} SameOwnValue(env: Env, env2: Env, r: Ref, depth: nat, dd: nat)
    requires EnvOk(env) && EnvOk(env2) && Replaced(env, env2) && r in env.g && r in env2.g
    requires env2.g[r].exact == env.g[r].exact && NodeMoved(env, env.g[r].node, env2.g[r].node)
    requires !GoesToDefault(env, r) && !GoesToDefault(env2, r)
    requires depth <= MAX_DEPTH && dd <= MAX_DEFAULT_DEPTH && ValueOf(env, r, depth, dd).Ok?
    ensures ValueOf(env2, r, depth, dd) == ValueOf(env, r, depth, dd)
    decreases Budget(depth, dd), 1, 0
  {
    hide EnvOk, Replaced, ItemsMoved, PairsMoved, ListValue, DictValue, DefaultValue, NumpyWalk.Tree, NumpyWalk.Readable;
    hide Numpy.ElemTree, IntValue, DatetimeValue, DateText, TimeText, Utf8.SurrogateFree;
    NodeIsOk(env, r);
    NodeIsOk(env2, r);
    SameOptions(env, env2);
    match env.g[r].node
    case NList(items) => SameList(env, env2, items, env2.g[r].node.items, depth, dd);
    case NTuple(items) => SameList(env, env2, items, env2.g[r].node.items, depth, dd);
    case NDict(pairs) => SameDict(env, env2, pairs, env2.g[r].node.pairs, depth, dd);
    case _ =>
  }

  lemma SameOptions(env: Env, env2: Env)
    requires EnvOk(env) && Replaced(env, env2)
    ensures env2.opts == env.opts && env2.digitLimit == env.digitLimit
  {
    hide EnvOk, NodeMoved;
  }

  lemma {:induction false} SameList(env: Env, env2: Env, s: seq<Ref>, t: seq<Ref>, depth: nat, dd: nat)
    requires EnvOk(env) && EnvOk(env2) && Replaced(env, env2) && Closed(env.g, s) && Closed(env2.g, t) && ItemsMoved(env, s, t)
    requires depth <= MAX_DEPTH && dd <= MAX_DEFAULT_DEPTH && ListValue(env, s, depth, dd).Ok?
    ensures ListValue(env2, t, depth, dd) == ListValue(env, s, depth, dd)
    decreases Budget(depth, dd), 0, 0
  {
    hide EnvOk, Replaced, ItemsMoved, ItemsValue;
    SameItems(env, env2, s, t, depth + 1, dd);
  }

  lemma {:induction false} SameDict(env: Env, env2: Env, s: seq<(Ref, Ref)>, t: seq<(Ref, Ref)>, depth: nat, dd: nat)
    requires EnvOk(env) && EnvOk(env2) && Replaced(env, env2)
    requires ClosedPairs(env.g, s) && ClosedPairs(env2.g, t) && PairsMoved(env, s, t)
    requires depth <= MAX_DEPTH && dd <= MAX_DEFAULT_DEPTH && DictValue(env, s, depth, dd).Ok?
    ensures DictValue(env2, t, depth, dd) == DictValue(env, s, depth, dd)
    decreases Budget(depth, dd), 0, 0
  {
    hide EnvOk, Replaced, PairsMoved, MembersValue, WrittenPairs, ClosedPairs;
    WrittenPairsMoved(env, env2, s, t);
    WrittenPairsPermute(env.g, s, env.opts);
    WrittenPairsPermute(env2.g, t, env2.opts);
    SameMembers(env, env2, WrittenPairs(env.g, s, env.opts).value, WrittenPairs(env2.g, t, env2.opts).value, depth + 1, dd);
  }

  lemma {:induction false} SameItems(env: Env, env2: Env, s: seq<Ref>, t: seq<Ref>, depth: nat, dd: nat)
    requires EnvOk(env) && EnvOk(env2) && Replaced(env, env2) && Closed(env.g, s) && Closed(env2.g, t) && ItemsMoved(env, s, t)
    requires depth <= MAX_DEPTH && dd <= MAX_DEFAULT_DEPTH && ItemsValue(env, s, depth, dd).Ok?
    ensures ItemsValue(env2, t, depth, dd) == ItemsValue(env, s, depth, dd)
    decreases Budget(depth, dd), 4, |s|
  {
    hide EnvOk, Replaced, Moved, ValueOf;
    if s != [] {
      SameValue(env, env2, s[0], t[0], depth, dd);
      SameItems(env, env2, s[1..], t[1..], depth, dd);
    }
  }

  lemma {:induction false} SameMembers(env: Env, env2: Env, s: seq<(Ref, Ref)>, t: seq<(Ref, Ref)>, depth: nat, dd: nat)
    requires EnvOk(env) && EnvOk(env2) && Replaced(env, env2)
    requires ClosedPairs(env.g, s) && ClosedPairs(env2.g, t) && PairsMoved(env, s, t)
    requires depth <= MAX_DEPTH && dd <= MAX_DEFAULT_DEPTH && MembersValue(env, s, depth, dd).Ok?
    ensures MembersValue(env2, t, depth, dd) == MembersValue(env, s, depth, dd)
    decreases Budget(depth, dd), 4, |s|
  {
    hide EnvOk, Replaced, Moved, ValueOf, KeyChars;
    if s != [] {
      assert PairMoved(env, s[0], t[0]);
      KeySame(env, env2, s[0].0);
      SameValue(env, env2, s[0].1, t[0].1, depth, dd);
      SameMembers(env, env2, s[1..], t[1..], depth, dd);
    }
  }

  /** The bytes of a document, if it can be written. */
  ghost function DocumentText(env: Env, r: Ref): Option<seq<byte>>
    requires EnvOk(env) && r in env.g
  {
    match ValueOf(env, r, 0, 0)
    case Ok(v) => Some(Write(v, env.opts.indent2, 0) + Ending(env.opts))
    case Err(_) => None
  }

  /**
   * Rollback is transparent in the finished document: with any number of declined arrays, and other
   * objects handed to `default`, at any depth of lists, tuples and dicts or at the top, replaced by
   * what `default` returned for them, a document that can be written has the same bytes.
   */
  lemma DocumentUnchanged(env: Env, env2: Env, r: Ref, r2: Ref)
    requires EnvOk(env) && Replaced(env, env2) && r in env.g && Moved(env, r, r2)
    requires ValueOf(env, r, 0, 0).Ok?
    ensures EnvOk(env2) && r2 in env2.g
    ensures ValueOf(env2, r2, 0, 0) == ValueOf(env, r, 0, 0)
    ensures DocumentText(env2, r2) == DocumentText(env, r)
  {
    hide EnvOk, Moved, NodeMoved, ValueOf, Write;
    ReplacedOk(env, env2);
    SameValue(env, env2, r, r2, 0, 0);
  }
}
