/** How objects in the ledger represent values, and the stack of partial containers of `build` (src/decode.rs). */
module Stack {
  import opened Common
  import opened Ledger
  import opened Tape

  // ---- values in the ledger ------------------------------------------------------------------

  predicate IsKey(h: Heap, id: Id, key: seq<codepoint>) {
    id < |h| && h[id].obj == OStr(key)
  }

  /** Object `id` holds value `v`, and none of its parts is one of the containers still open. */
  ghost predicate Repr(h: Heap, id: Id, v: Value, open: set<Id>)
    decreases v
  {
    && id < |h| && id !in open
    && match h[id].obj
       case Freed => false
       case ONone => v == VNone
       case OBool(b) => v == VBool(b)
       case OInt(i) => v == VInt(i)
       case OFloat(token) => v == VFloat(token)
       case OStr(cps) => v == VStr(cps)
       case OList(items) => v.VList? && ItemsRepr(h, items, v.items, open)
       case ODict(pairs) => v.VDict? && PairsRepr(h, pairs, v.entries, open)
       case _ => false
  }

  /** The first items of a list hold `vs`, and the slots after them are empty. */
  ghost predicate ItemsRepr(h: Heap, items: seq<Option<Id>>, vs: seq<Value>, open: set<Id>)
    decreases vs, 0
  {
    && |items| == |vs|
    && forall k | 0 <= k < |vs| :: items[k].Some? && Repr(h, items[k].value, vs[k], open)
  }

  ghost predicate PairsRepr(h: Heap, pairs: seq<(Id, Id)>, entries: seq<Entry>, open: set<Id>)
    decreases entries, 0
  {
    && |pairs| == |entries|
    && forall k | 0 <= k < |entries| ::
         pairs[k].0 !in open && IsKey(h, pairs[k].0, entries[k].key) && Repr(h, pairs[k].1, entries[k].value, open)
  }

  /**
   * What may happen to the ledger while containers are built: other objects are freed or keep
   * their contents, and new ones refer to nothing yet.
   */
  ghost predicate Evolves(h: Heap, h': Heap, open: set<Id>) {
    && |h| <= |h'|
    && (forall i | 0 <= i < |h| && i !in open :: h'[i].obj == h[i].obj || h'[i].obj.Freed?)
    && forall i | |h| <= i < |h'| :: Refs(h'[i].obj) == []
  }

  lemma RefsOfItems(h: Heap, id: Id, k: nat)
    requires id < |h| && h[id].obj.OList? && k < |h[id].obj.items| && h[id].obj.items[k].Some?
    ensures h[id].obj.items[k].value in Refs(h[id].obj)
  {
    ItemRefsHas(h[id].obj.items, k);
  }

  lemma RefsOfPairs(h: Heap, id: Id, k: nat)
    requires id < |h| && h[id].obj.ODict? && k < |h[id].obj.pairs|
    ensures h[id].obj.pairs[k].0 in Refs(h[id].obj) && h[id].obj.pairs[k].1 in Refs(h[id].obj)
  {
    PairRefsHas(h[id].obj.pairs, k);
  }

  /**
   * A value survives: as long as its object is alive, everything it is made of is alive and
   * unchanged, because whatever is still referred to is not freed.
   */
  lemma {:induction false} ReprEvolves(h: Heap, h': Heap, held: seq<Id>, id: Id, v: Value, open: set<Id>, open': set<Id>)
    requires Repr(h, id, v, open) && Evolves(h, h', open) && Balanced(h', held) && Alive(h', id)
    requires forall i | i in open' :: i in open || i >= |h|
    ensures Repr(h', id, v, open')
    decreases v
  {
    hide Refs, BalancedAt;
    match h[id].obj
    case OList(items) =>
      forall k | 0 <= k < |v.items| ensures Repr(h', items[k].value, v.items[k], open') {
        RefsOfItems(h', id, k);
        ChildAlive(h', held, id, items[k].value);
        ReprEvolves(h, h', held, items[k].value, v.items[k], open, open');
      }
    case ODict(pairs) =>
      forall k | 0 <= k < |v.entries|
        ensures pairs[k].0 !in open' && IsKey(h', pairs[k].0, v.entries[k].key) && Repr(h', pairs[k].1, v.entries[k].value, open')
      {
        RefsOfPairs(h', id, k);
        ChildAlive(h', held, id, pairs[k].0);
        ChildAlive(h', held, id, pairs[k].1);
        ReprEvolves(h, h', held, pairs[k].1, v.entries[k].value, open, open');
      }
    case _ =>
  }

  // ---- the stack -------------------------------------------------------------------------------

  /** A list or dict being filled; for a dict, `key` is the key awaiting its value. */
  datatype Frame = Frame(obj: Id, isList: bool, filled: nat, len: nat, key: Option<Id>)

  /** The references a frame owns, in the order they are given back. */
  function FrameRefs(f: Frame): seq<Id> {
    (if f.key.Some? then [f.key.value] else []) + [f.obj]
  }

  /** The references the stack owns, innermost frame first. */
  function StackRefs(stack: seq<Frame>): seq<Id> {
    if stack == [] then [] else FrameRefs(stack[|stack| - 1]) + StackRefs(stack[..|stack| - 1])
  }

  ghost function Open(stack: seq<Frame>): set<Id> {
    set k: int | 0 <= k < |stack| :: stack[k].obj
  }

  /** A frame's container holds what its plan has so far; a busy frame waits for a value. */
  ghost predicate FrameOk(h: Heap, f: Frame, p: Plan, open: set<Id>, busy: bool) {
    && f.obj < |h|
    && f.len == f.filled + TodoCount(p) + (if busy then 1 else 0)
    && TodoWellFormed(p)
    && f.isList == p.PList?
    && match p
       case PList(vs, _) =>
         && f.key.None? && h[f.obj].obj.OList? && |h[f.obj].obj.items| == f.len && f.filled == |vs|
         && ItemsRepr(h, h[f.obj].obj.items[..f.filled], vs, open)
         && forall k | f.filled <= k < f.len :: h[f.obj].obj.items[k].None?
       case PDict(entries, key, _) =>
         && h[f.obj].obj.ODict?
         && PairsRepr(h, h[f.obj].obj.pairs, entries, open)
         && f.key.Some? == busy
         && (busy ==> f.key.value !in open && IsKey(h, f.key.value, key))
  }

  /** All frames, inner ones newer than outer ones, of which the last is busy only if `topBusy`. */
  ghost predicate StackOk(h: Heap, stack: seq<Frame>, plans: seq<Plan>, topBusy: bool) {
    && |stack| == |plans|
    && (forall j, k | 0 <= j < k < |stack| :: stack[j].obj < stack[k].obj)
    && forall k | 0 <= k < |stack| :: FrameOk(h, stack[k], plans[k], Open(stack), k < |stack| - 1 || topBusy)
  }

  lemma {:induction false} FrameHeld(stack: seq<Frame>, k: nat, rest: seq<Id>)
    requires k < |stack|
    ensures stack[k].obj in StackRefs(stack) + rest
    ensures stack[k].key.Some? ==> stack[k].key.value in StackRefs(stack) + rest
  {
    var top, init := stack[|stack| - 1], stack[..|stack| - 1];
    if k == |stack| - 1 {
      assert top.obj in FrameRefs(top);
    } else {
      FrameHeld(init, k, rest);
      assert StackRefs(stack) + rest == FrameRefs(top) + (StackRefs(init) + rest);
    }
  }

  /** A frame is left as it was by whatever does not touch its own container. */
  lemma FrameEvolves(h: Heap, h': Heap, held: seq<Id>, f: Frame, p: Plan, open: set<Id>, open': set<Id>, busy: bool)
    requires FrameOk(h, f, p, open, busy) && Evolves(h, h', open) && Balanced(h', held)
    requires f.obj < |h'| && h'[f.obj].obj == h[f.obj].obj
    requires f.key.Some? ==> Alive(h', f.key.value)
    requires forall i | i in open' :: i in open || i >= |h|
    ensures FrameOk(h', f, p, open', busy)
  {
    hide Refs, BalancedAt, Repr;
    match p
    case PList(vs, _) =>
      var items := h[f.obj].obj.items;
      forall k | 0 <= k < |vs| ensures items[..f.filled][k].Some? && Repr(h', items[..f.filled][k].value, vs[k], open') {
        assert items[..f.filled][k] == items[k];
        RefsOfItems(h', f.obj, k);
        ChildAlive(h', held, f.obj, items[k].value);
        ReprEvolves(h, h', held, items[k].value, vs[k], open, open');
      }
    case PDict(entries, _, _) =>
      var pairs := h[f.obj].obj.pairs;
      forall k | 0 <= k < |entries|
        ensures pairs[k].0 !in open' && IsKey(h', pairs[k].0, entries[k].key) && Repr(h', pairs[k].1, entries[k].value, open')
      {
        RefsOfPairs(h', f.obj, k);
        ChildAlive(h', held, f.obj, pairs[k].0);
        ChildAlive(h', held, f.obj, pairs[k].1);
        KeyInHeap(h, pairs[k].0, entries[k].key);
        ReprEvolves(h, h', held, pairs[k].1, entries[k].value, open, open');
      }
  }

  lemma KeyInHeap(h: Heap, id: Id, key: seq<codepoint>)
    requires IsKey(h, id, key)
    ensures id < |h| && h[id].obj == OStr(key)
  {}

  /** The stack is left as it was by whatever touches none of its containers. */
  lemma StackEvolves(h: Heap, h': Heap, held: seq<Id>, stack: seq<Frame>, plans: seq<Plan>, topBusy: bool,
                     before: seq<Id>, rest: seq<Id>)
    requires StackOk(h, stack, plans, topBusy) && Evolves(h, h', {}) && Balanced(h', held)
    requires held == before + (StackRefs(stack) + rest)
    ensures StackOk(h', stack, plans, topBusy)
  {
    hide Refs, Balanced, FrameOk, Evolves, StackRefs;
    forall k | 0 <= k < |stack| ensures FrameOk(h', stack[k], plans[k], Open(stack), k < |stack| - 1 || topBusy) {
      FrameHeld(stack, k, rest);
      OneEvolves(h, h', held, {}, stack[k], plans[k], Open(stack), Open(stack), k < |stack| - 1 || topBusy);
    }
  }

  /** A frame whose container and key are held, and whose container is not the one changed. */
  lemma OneEvolves(h: Heap, h': Heap, held: seq<Id>, touched: set<Id>, f: Frame, p: Plan, open: set<Id>, open': set<Id>, busy: bool)
    requires FrameOk(h, f, p, open, busy) && Evolves(h, h', touched) && Balanced(h', held)
    requires touched <= open && f.obj !in touched
    requires f.obj in held && (f.key.Some? ==> f.key.value in held)
    requires forall i | i in open' :: i in open || i >= |h|
    ensures FrameOk(h', f, p, open', busy)
  {
    hide Refs, Balanced, FrameOk;
    FrameInHeap(h, f, p, open, busy);
    HeldAlive(h', held, f.obj);
    if f.key.Some? { HeldAlive(h', held, f.key.value); }
    FrameEvolves(h, h', held, f, p, open, open', busy);
  }

  lemma FrameInHeap(h: Heap, f: Frame, p: Plan, open: set<Id>, busy: bool)
    requires FrameOk(h, f, p, open, busy)
    ensures f.obj < |h|
  {}
}
