/** `loads(dumps(x))`: what is loaded is what was dumped (src/encode.rs and src/decode.rs together). */
module Whole {
  import opened Common
  import opened JsonText
  import opened Objects
  import opened KeyCache
  import opened Ledger
  import Build
  import Document
  import Loads
  import Reading
  import Rfc8259
  import Tape

  /**
   * The parser in front of the builder. It may refuse any text; if it does not, the text is JSON by
   * the grammar of RFC 8259 and its tape that of the value read.
   */
  method SimdJson(text: seq<byte>) returns (nodes: Option<seq<Tape.Node>>, ghost root: Tape.Tree)
    ensures nodes.Some? ==>
              && Rfc8259.Parse(text).Some? && Loads.TapeShows(root, Rfc8259.Parse(text).value)
              && Tape.WellFormed(root) && nodes.value == Tape.TapeOf(root)
  {
    hide Rfc8259.Parse, Loads.TapeShows, Tape.WellFormed, Tape.TapeOf, Loads.Clean;
    nodes, root := None, Tape.Leaf(Tape.TNull);
    var read := Rfc8259.Parse(text);
    if * {
      return;
    }
    if read.Some? && Loads.Clean(read.value) {
      var t := Loads.TreeFor(read.value);
      Loads.TreeForShows(read.value);
      Loads.TapeMeans(t, read.value);
      nodes, root := Some(Tape.TapeOf(t)), t;
    }
  }

  /** An object that stands for a tree is written as no other value. */
  lemma OnlyThatTree(env: Env, r: Ref, v: Json)
    requires EnvOk(env) && Document.ArrayTokensOk(env) && r in env.g && ValueOf(env, r, 0, 0) == Ok(v)
    ensures forall w | Document.StandsFor(env, r, w) :: w == v
  {
    hide EnvOk, Document.ArrayTokensOk, ValueOf, Document.StandsFor;
    forall w | Document.StandsFor(env, r, w) ensures w == v {
      Document.TreeRoundTrip(env, r, w);
    }
  }

  /**
   * Dumps an object and loads the bytes. If neither fails, the new object holds a value that shows the
   * object dumped: the very tree, where that is a tree. The ledger is balanced either way.
   */
  method DumpsThenLoads(hint: nat, env: Env, r: Ref, interp: Interpreter, keys: Cache?, ghost base: seq<Id>)
    returns (loaded: Option<Id>, ghost v: Json)
    requires EnvOk(env) && Document.ArrayTokensOk(env) && r in env.g
    requires keys != null ==> keys.Valid() && keys.HoldsStrings(interp.heap)
    requires Balanced(interp.heap, CacheRefs(Build.Slots(keys)) + base)
    modifies interp, if keys == null then {} else {keys.slots}
    ensures loaded.Some? ==>
              && Reading.Shows(env, r, v, 0) && Loads.Holds(interp.heap, loaded.value, v)
              && forall w | Document.StandsFor(env, r, w) :: w == v
    ensures Balanced(interp.heap, (if loaded.Some? then [loaded.value] else []) + (CacheRefs(Build.Slots(keys)) + base))
  {
    hide EnvOk, Document.ArrayTokensOk, ValueOf, Balanced, Rfc8259.Parse, Loads.TapeShows, Loads.Holds, Reading.Shows, Document.StandsFor;
    hide Tape.WellFormed, Tape.TapeOf, Build.NothingElse;
    loaded, v := None, Null;
    ghost var others := CacheRefs(Build.Slots(keys)) + base;
    assert [] + others == others;
    var bytes, _ := Document.Dumps(hint, env, r);
    if bytes == null {
      return;
    }
    v := ValueOf(env, r, 0, 0).value;
    OnlyThatTree(env, r, v);
    var nodes;
    ghost var root;
    nodes, root := SimdJson(bytes[..]);
    if nodes.None? {
      return;
    }
    ghost var read;
    loaded, read := Build.Build(interp, keys, nodes.value, root, base);
    assert loaded.None? ==> [] + (CacheRefs(Build.Slots(keys)) + base) == CacheRefs(Build.Slots(keys)) + base;
  }
}
