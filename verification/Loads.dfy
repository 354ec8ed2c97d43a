/**
 * What a loaded value must be, said on constructors: how a tape shows a JSON value, and when an
 * object in the ledger holds one. Nothing here names the functions that choose values or objects.
 */
module Loads {
  import opened Common
  import opened Utf8
  import opened JsonText
  import opened Ledger
  import opened Tape
  import opened Stack

  // ---- JSON values on the tape -----------------------------------------------------------------

  /** `t` is the parsed document of `v`: each kind of leaf is the one its value comes from, and text is UTF-8. */
  predicate TapeShows(t: Tree, v: Json)
    decreases v
  {
    match v
    case Null => t == Leaf(TNull)
    case Bool(b) => t == Leaf(TBool(b))
    case Int(i) => t == Leaf(TI64(i)) || t == Leaf(TU64(i))
    case Real(token) => t == Leaf(TF64(token))
    case Str(cps) => SurrogateFree(cps) && t == Leaf(TString(Encode(cps)))
    case Arr(items) => t.Items? && |t.items| == |items| && forall k | 0 <= k < |items| :: TapeShows(t.items[k], items[k])
    case Obj(ms) =>
      && t.Members? && |t.members| == |ms|
      && forall k | 0 <= k < |ms| ::
           SurrogateFree(ms[k].key) && t.members[k].key == Encode(ms[k].key) && TapeShows(t.members[k].value, ms[k].value)
  }

  /** No string and no key in the value has a surrogate. */
  predicate Clean(v: Json) {
    match v
    case Str(cps) => SurrogateFree(cps)
    case Arr(items) => forall k | 0 <= k < |items| :: Clean(items[k])
    case Obj(ms) => forall k | 0 <= k < |ms| :: SurrogateFree(ms[k].key) && Clean(ms[k].value)
    case _ => true
  }

  /** A document for every value without surrogates. */
  function TreeFor(v: Json): Tree {
    match v
    case Null => Leaf(TNull)
    case Bool(b) => Leaf(TBool(b))
    case Int(i) => if i <= 0x7FFF_FFFF_FFFF_FFFF then Leaf(TI64(i)) else Leaf(TU64(i))
    case Real(token) => Leaf(TF64(token))
    case Str(cps) => Leaf(TString(Encode(cps)))
    case Arr(items) => Items(seq(|items|, k requires 0 <= k < |items| => TreeFor(items[k])))
    case Obj(ms) => Members(seq(|ms|, k requires 0 <= k < |ms| => TreeMember(Encode(ms[k].key), TreeFor(ms[k].value))))
  }

  lemma {:induction false} TreeForShows(v: Json)
    requires Clean(v)
    ensures TapeShows(TreeFor(v), v)
    decreases v
  {
    hide Encode, SurrogateFree;
    match v
    case Arr(items) =>
      forall k | 0 <= k < |items| ensures TapeShows(TreeFor(items[k]), items[k]) { TreeForShows(items[k]); }
    case Obj(ms) =>
      forall k | 0 <= k < |ms| ensures TapeShows(TreeFor(ms[k].value), ms[k].value) { TreeForShows(ms[k].value); }
    case _ =>
  }

  /** The tape is in pre-order: a container's node with its count, then what is in it; a key goes before its value. */
  lemma TapeIsPreOrder(t: Tree, u: Tree, key: seq<byte>)
    ensures TapeOf(Items([])) == [TArray(0)] && TapeOf(Members([])) == [TObject(0)]
    ensures TapeOf(Items([t, u])) == [TArray(2)] + TapeOf(t) + TapeOf(u)
    ensures TapeOf(Members([TreeMember(key, t)])) == [TObject(1), TString(key)] + TapeOf(t)
  {
    assert [t, u][1..] == [u] && [u][1..] == [];
    assert ItemsTape([u]) == TapeOf(u) + ItemsTape([]) == TapeOf(u);
    assert ItemsTape([t, u]) == TapeOf(t) + ItemsTape([u]);
    var m := TreeMember(key, t);
    assert [m][1..] == [] && MembersTape([m]) == [TString(key)] + TapeOf(t) + MembersTape([]);
  }

  // ---- the members of an object -----------------------------------------------------------------

  /** The last member with that name, or their number. */
  function LastOf(ms: seq<Member>, key: seq<codepoint>): (k: nat)
    ensures k <= |ms|
    ensures k < |ms| ==> ms[k].key == key
    ensures forall j | 0 <= j < |ms| && (j > k || k == |ms|) :: ms[j].key != key
  {
    if ms == [] then 0
    else
      var k := LastOf(ms[1..], key);
      if k < |ms| - 1 then k + 1
      else if ms[0].key == key then 0
      else |ms|
  }

  /** Where a key is first among `seen`, or their number. */
  function FirstOf(seen: seq<seq<codepoint>>, key: seq<codepoint>): (k: nat)
    ensures k <= |seen|
    ensures k < |seen| ==> seen[k] == key
    ensures forall j | 0 <= j < k :: seen[j] != key
  {
    if seen == [] then 0 else if seen[0] == key then 0 else 1 + FirstOf(seen[1..], key)
  }

  /** `keys` are those of `seen`, each once, in the order in which they come first. */
  predicate EachOnce(keys: seq<seq<codepoint>>, seen: seq<seq<codepoint>>) {
    && (forall key | key in seen :: key in keys)
    && (forall key | key in keys :: key in seen)
    && forall i, j | 0 <= i < j < |keys| :: FirstOf(seen, keys[i]) < FirstOf(seen, keys[j])
  }

  function Names(ms: seq<Member>): (r: seq<seq<codepoint>>)
    ensures |r| == |ms| && forall k | 0 <= k < |ms| :: r[k] == ms[k].key
  {
    seq(|ms|, k requires 0 <= k < |ms| => ms[k].key)
  }

  function EntryKeys(entries: seq<Entry>): (r: seq<seq<codepoint>>)
    ensures |r| == |entries| && forall k | 0 <= k < |entries| :: r[k] == entries[k].key
  {
    seq(|entries|, k requires 0 <= k < |entries| => entries[k].key)
  }

  /** Value `x` is `v`; a dict has each name once, where it first came, with the value it was given last. */
  ghost predicate Same(x: Value, v: Json)
    decreases v
  {
    match v
    case Null => x == VNone
    case Bool(b) => x == VBool(b)
    case Int(i) => x == VInt(i)
    case Real(token) => x == VFloat(token)
    case Str(cps) => x == VStr(cps)
    case Arr(items) => x.VList? && |x.items| == |items| && forall k | 0 <= k < |items| :: Same(x.items[k], items[k])
    case Obj(ms) =>
      && x.VDict? && EachOnce(EntryKeys(x.entries), Names(ms))
      && forall j | 0 <= j < |x.entries| ::
           var k := LastOf(ms, x.entries[j].key); k < |ms| && Same(x.entries[j].value, ms[k].value)
  }

  /** Object `id` holds `v`, as `Same` says of values. */
  ghost predicate Holds(h: Heap, id: Id, v: Json)
    decreases v
  {
    && id < |h|
    && match v
       case Null => h[id].obj == ONone
       case Bool(b) => h[id].obj == OBool(b)
       case Int(i) => h[id].obj == OInt(i)
       case Real(token) => h[id].obj == OFloat(token)
       case Str(cps) => h[id].obj == OStr(cps)
       case Arr(items) =>
         && h[id].obj.OList? && |h[id].obj.items| == |items|
         && forall k | 0 <= k < |items| :: h[id].obj.items[k].Some? && Holds(h, h[id].obj.items[k].value, items[k])
       case Obj(ms) =>
         && h[id].obj.ODict?
         && exists keys: seq<seq<codepoint>> | KeysAre(h, h[id].obj.pairs, keys) && EachOnce(keys, Names(ms)) ::
              forall j | 0 <= j < |keys| ::
                var k := LastOf(ms, keys[j]); k < |ms| && Holds(h, h[id].obj.pairs[j].1, ms[k].value)
  }

  ghost predicate KeysAre(h: Heap, pairs: seq<(Id, Id)>, keys: seq<seq<codepoint>>) {
    |keys| == |pairs| && forall j | 0 <= j < |pairs| :: IsKey(h, pairs[j].0, keys[j])
  }

  // ---- the tape's value is the JSON value ---------------------------------------------------------

  lemma TextOfEncode(cps: seq<codepoint>)
    requires SurrogateFree(cps)
    ensures Decode(Encode(cps)).Some? && Text(Encode(cps)) == cps
  {
    hide Decode, Encode;
    DecodeIffEncode(Encode(cps), cps);
  }

  /** The tree of a value is well formed, and means that value. */
  lemma {:induction false} TapeMeans(t: Tree, v: Json)
    requires TapeShows(t, v)
    ensures WellFormed(t) && Same(Meaning(t), v)
    decreases v
  {
    hide Decode, Encode, SurrogateFree, Text;
    match v
    case Str(cps) => TextOfEncode(cps);
    case Arr(items) =>
      forall k | 0 <= k < |items| ensures WellFormed(t.items[k]) && Same(Meaning(t.items[k]), items[k]) {
        TapeMeans(t.items[k], items[k]);
      }
      MeaningsAt(t.items);
    case Obj(ms) =>
      forall k | 0 <= k < |ms|
        ensures Decode(t.members[k].key).Some? && Text(t.members[k].key) == ms[k].key
        ensures WellFormed(t.members[k].value) && Same(Meaning(t.members[k].value), ms[k].value)
      {
        TextOfEncode(ms[k].key);
        TapeMeans(t.members[k].value, ms[k].value);
      }
      MembersMean(t.members, ms);
    case _ =>
  }

  lemma {:induction false} MeaningsAt(items: seq<Tree>)
    ensures |ItemMeanings(items)| == |items|
    ensures forall k | 0 <= k < |items| :: ItemMeanings(items)[k] == Meaning(items[k])
  {
    hide Meaning;
    if items != [] { MeaningsAt(items[1..]); }
  }

  lemma {:induction false} NoMember(tms: seq<TreeMember>, key: seq<codepoint>)
    requires forall k | 0 <= k < |tms| :: Text(tms[k].key) != key
    ensures LastMember(tms, key) == None
  {
    hide Text;
    if tms != [] { NoMember(tms[1..], key); }
  }

  lemma {:induction false} LastMemberIs(tms: seq<TreeMember>, key: seq<codepoint>, k: nat)
    requires k < |tms| && Text(tms[k].key) == key && forall j | k < j < |tms| :: Text(tms[j].key) != key
    ensures LastMember(tms, key) == Some(tms[k].value)
    decreases |tms|
  {
    hide Text;
    if k == 0 {
      NoMember(tms[1..], key);
    } else {
      LastMemberIs(tms[1..], key, k - 1);
    }
  }

  lemma FirstOfAppend(seen: seq<seq<codepoint>>, key: seq<codepoint>, other: seq<codepoint>)
    ensures FirstOf(seen, other) < |seen| ==> FirstOf(seen + [key], other) == FirstOf(seen, other)
    ensures key !in seen ==> FirstOf(seen + [key], key) == |seen|
  {
    var a, b := FirstOf(seen, other), FirstOf(seen + [key], other);
    if a < |seen| {
      assert (seen + [key])[a] == other;
      assert b <= a;
    }
    assert key in seen + [key] by { assert (seen + [key])[|seen|] == key; }
  }

  lemma FirstOfKnown(seen: seq<seq<codepoint>>, key: seq<codepoint>)
    ensures key in seen <==> FirstOf(seen, key) < |seen|
  {}

  /** A dict that takes one more member has each key once still. */
  lemma PutEachOnce(entries: seq<Entry>, key: seq<codepoint>, v: Value, seen: seq<seq<codepoint>>)
    requires EachOnce(EntryKeys(entries), seen)
    ensures EachOnce(EntryKeys(Put(entries, key, v)), seen + [key])
  {
    hide FirstOf;
    var keys, keys' := EntryKeys(entries), EntryKeys(Put(entries, key, v));
    var at := Find(entries, key);
    assert keys' == if at < |entries| then keys else keys + [key];
    assert key in keys <==> at < |entries|;
    assert key in seen <==> key in keys;
    forall i, j | 0 <= i < j < |keys'| ensures FirstOf(seen + [key], keys'[i]) < FirstOf(seen + [key], keys'[j]) {
      FirstOfKnown(seen, keys'[i]);
      FirstOfKnown(seen, keys'[j]);
      FirstOfAppend(seen, key, keys'[i]);
      FirstOfAppend(seen, key, keys'[j]);
    }
  }

  function Texts(tms: seq<TreeMember>): (r: seq<seq<codepoint>>)
    ensures |r| == |tms| && forall k | 0 <= k < |tms| :: r[k] == Text(tms[k].key)
  {
    seq(|tms|, k requires 0 <= k < |tms| => Text(tms[k].key))
  }

  lemma {:induction false} PutAllEachOnce(entries: seq<Entry>, tms: seq<TreeMember>, seen: seq<seq<codepoint>>)
    requires EachOnce(EntryKeys(entries), seen)
    ensures EachOnce(EntryKeys(PutAll(entries, tms)), seen + Texts(tms))
    decreases |tms|
  {
    hide EachOnce, Put, Meaning, Text;
    if tms == [] {
      assert seen + Texts(tms) == seen;
    } else {
      var key := Text(tms[0].key);
      PutEachOnce(entries, key, Meaning(tms[0].value), seen);
      PutAllEachOnce(Put(entries, key, Meaning(tms[0].value)), tms[1..], seen + [key]);
      assert (seen + [key]) + Texts(tms[1..]) == seen + Texts(tms);
    }
  }

  lemma LookupAt(entries: seq<Entry>, j: nat)
    requires Distinct(entries) && j < |entries|
    ensures Lookup(entries, entries[j].key) == Some(entries[j].value)
  {}

  /** The dict of an object's members is the object, by the last member of each name. */
  lemma {:induction false} MembersMean(tms: seq<TreeMember>, ms: seq<Member>)
    requires |tms| == |ms| && forall k | 0 <= k < |ms| :: Text(tms[k].key) == ms[k].key
    requires forall k | 0 <= k < |ms| :: Same(Meaning(tms[k].value), ms[k].value)
    ensures Same(VDict(PutAll([], tms)), Obj(ms))
  {
    hide Meaning, Text, EachOnce, PutAll, LastMember, Lookup, Distinct;
    var entries := PutAll([], tms);
    assert EachOnce(EntryKeys([]), []) by { NothingSeen(); }
    PutAllEachOnce([], tms, []);
    assert [] + Texts(tms) == Names(ms);
    assert Distinct([]) by { NothingSeen(); }
    PutAllDistinct([], tms);
    forall j | 0 <= j < |entries|
      ensures var k := LastOf(ms, entries[j].key); k < |ms| && Same(entries[j].value, ms[k].value)
    {
      var key := entries[j].key;
      var k := LastOf(ms, key);
      LookupAt(entries, j);
      LastValueWins([], tms, key);
      EntryIsNamed(entries, ms, j);
      LastMemberIs(tms, key, k);
    }
  }

  lemma NothingSeen()
    ensures EachOnce(EntryKeys([]), []) && Distinct([])
  {}

  lemma {:induction false} EntryIsNamed(entries: seq<Entry>, ms: seq<Member>, j: nat)
    requires EachOnce(EntryKeys(entries), Names(ms)) && j < |entries|
    ensures LastOf(ms, entries[j].key) < |ms|
  {
    assert EntryKeys(entries)[j] in Names(ms);
  }

  // ---- the object in the ledger -------------------------------------------------------------------

  /** An object that represents the value holds the JSON value. */
  lemma {:induction false} ReprHolds(h: Heap, id: Id, x: Value, v: Json, open: set<Id>)
    requires Repr(h, id, x, open) && Same(x, v)
    ensures Holds(h, id, v)
    decreases v
  {
    hide EachOnce, EntryKeys, Names, LastOf;
    match v
    case Arr(items) =>
      forall k | 0 <= k < |items| ensures h[id].obj.items[k].Some? && Holds(h, h[id].obj.items[k].value, items[k]) {
        ReprHolds(h, h[id].obj.items[k].value, x.items[k], items[k], open);
      }
    case Obj(ms) =>
      var keys := EntryKeys(x.entries);
      assert KeysAre(h, h[id].obj.pairs, keys);
      forall j | 0 <= j < |keys|
        ensures var k := LastOf(ms, keys[j]); k < |ms| && Holds(h, h[id].obj.pairs[j].1, ms[k].value)
      {
        var k := LastOf(ms, keys[j]);
        ReprHolds(h, h[id].obj.pairs[j].1, x.entries[j].value, ms[k].value, open);
      }
    case _ =>
  }

  /** What represents the meaning of a document's tree holds the document's value. */
  lemma LoadedHolds(h: Heap, id: Id, root: Tree)
    requires Repr(h, id, Meaning(root), {})
    ensures forall v | TapeShows(root, v) :: Holds(h, id, v)
  {
    hide Repr, Meaning, TapeShows, Same, Holds;
    forall v | TapeShows(root, v) ensures Holds(h, id, v) {
      TapeMeans(root, v);
      ReprHolds(h, id, Meaning(root), v, {});
    }
  }
}
