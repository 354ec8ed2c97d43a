/** What the steps of the builder do to its stack of partial containers (src/decode.rs, `build`). */
module Frames {
  import opened Common
  import opened Ledger
  import opened Tape
  import opened Stack
  import opened KeyCache

  lemma StackSplit(stack: seq<Frame>, f: Frame, rest: seq<Id>)
    ensures StackRefs(stack + [f]) + rest == FrameRefs(f) + (StackRefs(stack) + rest)
  {
    assert (stack + [f])[..|stack|] == stack;
    assert (FrameRefs(f) + StackRefs(stack)) + rest == FrameRefs(f) + (StackRefs(stack) + rest);
  }

  lemma OpenSplit(stack: seq<Frame>, f: Frame)
    ensures Open(stack + [f]) == Open(stack) + {f.obj}
  {
    var s := stack + [f];
    forall x | x in Open(stack) + {f.obj} ensures x in Open(s) {
      if x == f.obj { assert s[|stack|].obj == x; } else {
        var k :| 0 <= k < |stack| && stack[k].obj == x;
        assert s[k].obj == x;
      }
    }
    forall x | x in Open(s) ensures x in Open(stack) + {f.obj} {
      var k :| 0 <= k < |s| && s[k].obj == x;
      if k < |stack| { assert stack[k].obj == x; }
    }
  }

  /** The frames below the top and the top itself. */
  lemma StackParts(h: Heap, stack: seq<Frame>, f: Frame, plans: seq<Plan>, p: Plan, busy: bool)
    requires StackOk(h, stack + [f], plans + [p], busy) && |stack| == |plans|
    ensures FrameOk(h, f, p, Open(stack) + {f.obj}, busy)
    ensures f.obj < |h| && forall k | 0 <= k < |stack| :: stack[k].obj < f.obj
    ensures f.obj !in Open(stack)
  {
    hide FrameOk;
    var s, ps := stack + [f], plans + [p];
    OpenSplit(stack, f);
    assert s[|stack|] == f && ps[|stack|] == p;
    FrameInHeap(h, f, p, Open(s), busy);
    forall k | 0 <= k < |stack| ensures stack[k].obj < f.obj {
      assert s[k].obj < s[|stack|].obj;
    }
  }

  /** Frames below the top survive whatever is done to the top's container. */
  lemma LowerFrames(h: Heap, h': Heap, held: seq<Id>, stack: seq<Frame>, plans: seq<Plan>, f: Frame, p: Plan, busy: bool,
                    open': set<Id>, before: seq<Id>, rest: seq<Id>)
    requires StackOk(h, stack + [f], plans + [p], busy) && |stack| == |plans|
    requires Evolves(h, h', {f.obj}) && Balanced(h', held)
    requires held == before + (StackRefs(stack) + rest)
    requires open' <= Open(stack) + {f.obj}
    ensures forall k | 0 <= k < |stack| :: FrameOk(h', stack[k], plans[k], open', true)
  {
    hide FrameOk, Balanced, Evolves, StackRefs;
    var s, ps := stack + [f], plans + [p];
    OpenSplit(stack, f);
    forall k | 0 <= k < |stack| ensures FrameOk(h', stack[k], plans[k], open', true) {
      assert s[k] == stack[k] && ps[k] == plans[k];
      assert s[k].obj < s[|stack|].obj;
      FrameHeld(stack, k, rest);
      OneEvolves(h, h', held, {f.obj}, stack[k], plans[k], Open(s), open', true);
    }
  }

  /** A stack is put together from sound frames. */
  lemma StackOf(h: Heap, stack: seq<Frame>, plans: seq<Plan>, f: Frame, p: Plan, busy: bool)
    requires |stack| == |plans|
    requires forall k | 0 <= k < |stack| :: FrameOk(h, stack[k], plans[k], Open(stack) + {f.obj}, true)
    requires FrameOk(h, f, p, Open(stack) + {f.obj}, busy)
    requires forall j, k | 0 <= j < k < |stack| :: stack[j].obj < stack[k].obj
    requires forall k | 0 <= k < |stack| :: stack[k].obj < f.obj
    ensures StackOk(h, stack + [f], plans + [p], busy)
  {
    hide FrameOk;
    OpenSplit(stack, f);
  }

  /** The top frame is changed, and its container at most. */
  lemma ChangeTop(h: Heap, h': Heap, held: seq<Id>, stack: seq<Frame>, plans: seq<Plan>, f: Frame, p: Plan, busy: bool,
                  f': Frame, p': Plan, busy': bool, before: seq<Id>, rest: seq<Id>)
    requires StackOk(h, stack + [f], plans + [p], busy) && |stack| == |plans|
    requires Evolves(h, h', {f.obj}) && Balanced(h', held)
    requires held == before + (StackRefs(stack) + rest)
    requires f'.obj == f.obj && FrameOk(h', f', p', Open(stack) + {f.obj}, busy')
    ensures StackOk(h', stack + [f'], plans + [p'], busy')
  {
    hide FrameOk, Balanced, Evolves, StackRefs;
    LowerFrames(h, h', held, stack, plans, f, p, busy, Open(stack) + {f.obj}, before, rest);
    StackParts(h, stack, f, plans, p, busy);
    var s := stack + [f];
    forall j, k | 0 <= j < k < |stack| ensures stack[j].obj < stack[k].obj {
      assert s[j].obj < s[k].obj;
    }
    StackOf(h', stack, plans, f', p', busy');
  }

  /** A new container goes on top of the stack, its reference taken over by the frame. */
  lemma PushFrame(h: Heap, h': Heap, stack: seq<Frame>, plans: seq<Plan>, f: Frame, p: Plan, rest: seq<Id>)
    requires StackOk(h, stack, plans, true)
    requires |h'| == |h| + 1 && h' == New(h, h'[|h|].obj) && f.obj == |h|
    requires Balanced(h', [f.obj] + (StackRefs(stack) + rest))
    requires Refs(h'[|h|].obj) == []
    requires f.key.None? && FrameOk(h', f, p, Open(stack) + {f.obj}, false)
    ensures StackOk(h', stack + [f], plans + [p], false)
    ensures Balanced(h', StackRefs(stack + [f]) + rest)
  {
    hide FrameOk, Balanced, StackRefs, Refs;
    assert FrameRefs(f) == [f.obj];
    StackSplit(stack, f, rest);
    forall k | 0 <= k < |stack|
      ensures FrameOk(h', stack[k], plans[k], Open(stack) + {f.obj}, true) && stack[k].obj < f.obj
    {
      FrameInHeap(h, stack[k], plans[k], Open(stack), true);
      FrameHeld(stack, k, rest);
      OneEvolves(h, h', [f.obj] + (StackRefs(stack) + rest), {}, stack[k], plans[k], Open(stack), Open(stack) + {f.obj}, true);
    }
    StackOf(h', stack, plans, f, p, false);
  }

  /** Frames below the top do not depend on it. */
  lemma PopFrame(h: Heap, stack: seq<Frame>, plans: seq<Plan>, f: Frame, p: Plan, rest: seq<Id>)
    requires StackOk(h, stack + [f], plans + [p], false) && Balanced(h, StackRefs(stack + [f]) + rest)
    requires |stack| == |plans| && f.key.None?
    ensures StackOk(h, stack, plans, true)
    ensures Balanced(h, [f.obj] + (StackRefs(stack) + rest))
  {
    hide FrameOk, Balanced, StackRefs;
    assert FrameRefs(f) == [f.obj];
    StackSplit(stack, f, rest);
    LowerFrames(h, h, [f.obj] + (StackRefs(stack) + rest), stack, plans, f, p, false, Open(stack), [f.obj], rest);
    var s := stack + [f];
    forall j, k | 0 <= j < k < |stack| ensures stack[j].obj < stack[k].obj {
      assert s[j].obj < s[k].obj;
    }
  }

  /** A finished container is the value its plan describes. */
  lemma FinishedValue(h: Heap, stack: seq<Frame>, f: Frame, p: Plan)
    requires FrameOk(h, f, p, Open(stack) + {f.obj}, false) && f.filled == f.len && f.obj !in Open(stack)
    ensures Repr(h, f.obj, Total(p), Open(stack))
  {
    assert TodoCount(p) == 0;
    match p
    case PList(vs, todo) =>
      assert todo == [];
      assert vs + ItemMeanings([]) == vs;
      var items := h[f.obj].obj.items;
      assert items[..f.filled] == items;
      forall k | 0 <= k < |vs| ensures items[k].Some? && Repr(h, items[k].value, vs[k], Open(stack)) {
        assert Repr(h, items[..f.filled][k].value, vs[k], Open(stack) + {f.obj});
        ReprNarrows(h, items[k].value, vs[k], Open(stack) + {f.obj}, Open(stack));
      }
    case PDict(entries, _, more) =>
      assert more == [];
      var pairs := h[f.obj].obj.pairs;
      forall k | 0 <= k < |entries| ensures Repr(h, pairs[k].1, entries[k].value, Open(stack)) {
        ReprNarrows(h, pairs[k].1, entries[k].value, Open(stack) + {f.obj}, Open(stack));
      }
  }

  lemma {:induction false} ReprNarrows(h: Heap, id: Id, v: Value, open: set<Id>, open': set<Id>)
    requires Repr(h, id, v, open) && open' <= open
    ensures Repr(h, id, v, open')
    decreases v
  {
    match h[id].obj
    case OList(items) =>
      forall k | 0 <= k < |v.items| ensures Repr(h, items[k].value, v.items[k], open') {
        ReprNarrows(h, items[k].value, v.items[k], open, open');
      }
    case ODict(pairs) =>
      forall k | 0 <= k < |v.entries| ensures Repr(h, pairs[k].1, v.entries[k].value, open') {
        ReprNarrows(h, pairs[k].1, v.entries[k].value, open, open');
      }
    case _ =>
  }

  // ---- putting a value in its container ----------------------------------------------------------

  /** The next slot of a list gets its item. */
  lemma ItemPut(h: Heap, held: seq<Id>, f: Frame, p: Plan, val: Id, v: Value, open: set<Id>)
    requires FrameOk(h, f, p, open, true) && p.PList? && f.obj in open && Repr(h, val, v, open)
    requires Balanced(SetItem(h, f.obj, f.filled, val), held)
    ensures FrameOk(SetItem(h, f.obj, f.filled, val), f.(filled := f.filled + 1), With(p, v), open, false)
  {
    hide Refs, Balanced, Repr;
    var h' := SetItem(h, f.obj, f.filled, val);
    var was, items, vs := h[f.obj].obj.items, h'[f.obj].obj.items, p.items + [v];
    forall k | 0 <= k < |vs| ensures items[..f.filled + 1][k].Some? && Repr(h', items[..f.filled + 1][k].value, vs[k], open) {
      if k < f.filled { assert was[..f.filled][k] == items[k]; }
      RefsOfItems(h', f.obj, k);
      ChildAlive(h', held, f.obj, items[k].value);
      ReprEvolves(h, h', held, items[k].value, vs[k], open, open);
    }
  }

  /** The dict finds an equal key where the plan has it. */
  lemma {:induction false} KeyPlace(h: Heap, pairs: seq<(Id, Id)>, entries: seq<Entry>, key: Id, text: seq<codepoint>, open: set<Id>)
    requires PairsRepr(h, pairs, entries, open) && IsKey(h, key, text)
    ensures FindPair(h, pairs, key) == Find(entries, text)
    decreases |pairs|
  {
    hide Repr;
    if pairs != [] {
      assert IsKey(h, pairs[0].0, entries[0].key);
      if entries[0].key != text {
        forall k | 0 <= k < |entries[1..]|
          ensures pairs[1..][k].0 !in open && IsKey(h, pairs[1..][k].0, entries[1..][k].key)
               && Repr(h, pairs[1..][k].1, entries[1..][k].value, open)
        {
          assert IsKey(h, pairs[k + 1].0, entries[k + 1].key);
        }
        KeyPlace(h, pairs[1..], entries[1..], key, text, open);
      }
    }
  }

  /** The dict gets the value for the key that was waiting, which the frame no longer holds. */
  lemma MemberPut(h: Heap, h': Heap, held: seq<Id>, f: Frame, p: Plan, val: Id, v: Value, open: set<Id>)
    requires FrameOk(h, f, p, open, true) && p.PDict? && f.obj in open && Repr(h, val, v, open)
    requires Evolves(h, h', {f.obj}) && Balanced(h', held)
    requires f.obj < |h'|
    requires var pairs := h[f.obj].obj.pairs;
             h'[f.obj].obj == ODict(PairsWith(pairs, FindPair(h, pairs, f.key.value), f.key.value, val))
    ensures FrameOk(h', f.(filled := f.filled + 1, key := None), With(p, v), open, false)
  {
    hide Refs, Balanced, Repr, FindPair, Evolves, PairsRepr, Find, WellFormedMember;
    var pairs := h[f.obj].obj.pairs;
    KeyPlace(h, pairs, p.entries, f.key.value, p.key, open);
    PairsPut(h, pairs, p.entries, Find(p.entries, p.key), f.key.value, p.key, val, v, open);
    PairsEvolve(h, h', held, f.obj, PairsWith(pairs, Find(p.entries, p.key), f.key.value, val), Put(p.entries, p.key, v), open);
  }

  /** The pairs with the new one are the entries with the new one. */
  lemma PairsPut(h: Heap, pairs: seq<(Id, Id)>, entries: seq<Entry>, k: nat, key: Id, text: seq<codepoint>, val: Id, v: Value, open: set<Id>)
    requires PairsRepr(h, pairs, entries, open) && k == Find(entries, text)
    requires IsKey(h, key, text) && key !in open && Repr(h, val, v, open)
    ensures PairsRepr(h, PairsWith(pairs, k, key, val), Put(entries, text, v), open)
  {
    hide Repr, IsKey, Find;
    FindGives(entries, text);
  }

  lemma FindGives(entries: seq<Entry>, text: seq<codepoint>)
    ensures var k := Find(entries, text); k <= |entries| && (k < |entries| ==> entries[k].key == text)
  {}

  /** What a dict refers to survives. */
  lemma PairsEvolve(h: Heap, h': Heap, held: seq<Id>, d: Id, pairs: seq<(Id, Id)>, entries: seq<Entry>, open: set<Id>)
    requires PairsRepr(h, pairs, entries, open) && Evolves(h, h', {d}) && d in open && Balanced(h', held)
    requires d < |h'| && h'[d].obj == ODict(pairs)
    ensures PairsRepr(h', pairs, entries, open)
  {
    hide Refs, Balanced, Repr;
    forall k | 0 <= k < |entries|
      ensures pairs[k].0 !in open && IsKey(h', pairs[k].0, entries[k].key) && Repr(h', pairs[k].1, entries[k].value, open)
    {
      RefsOfPairs(h', d, k);
      ChildAlive(h', held, d, pairs[k].0);
      ChildAlive(h', held, d, pairs[k].1);
      ReprEvolves(h, h', held, pairs[k].1, entries[k].value, open, open);
    }
  }

  // ---- nothing is lost -----------------------------------------------------------------------------

  predicate Container(o: Obj) {
    o.OList? || o.ODict? || o.OTuple? || o.OOther?
  }

  /** Since `h0`, old objects kept their contents or were freed, and new containers hold only containers newer than themselves. */
  ghost predicate Tidy(h0: Heap, h: Heap) {
    && |h0| <= |h|
    && (forall i | 0 <= i < |h0| :: h[i].obj == h0[i].obj || h[i].obj.Freed?)
    && forall i, c | |h0| <= i < |h| && c in Refs(h[i].obj) && c < |h| && Container(h[c].obj) :: i < c
  }

  lemma TidyStart(h: Heap)
    ensures Tidy(h, h)
  {}

  lemma TidyEvolves(h0: Heap, h: Heap, h': Heap)
    requires Tidy(h0, h) && Evolves(h, h', {})
    ensures Tidy(h0, h')
  {
    hide Refs;
    NoRefs(0);
  }

  /** One new container is given newer ones. */
  lemma TidyPut(h0: Heap, h: Heap, h': Heap, d: Id)
    requires Tidy(h0, h) && |h0| <= d < |h| && Container(h[d].obj) && Evolves(h, h', {d})
    requires forall c | c in Refs(h'[d].obj) && c < |h'| && Container(h'[c].obj) :: d < c
    ensures Tidy(h0, h')
  {
    hide Refs;
    NoRefs(0);
    forall i, c | |h0| <= i < |h'| && c in Refs(h'[i].obj) && c < |h'| && Container(h'[c].obj) ensures i < c {
      if i != d && i < |h| && c < |h| {
        assert h'[i].obj == h[i].obj;
        assert Container(h[c].obj);
      }
    }
  }

  /** What a list refers to once an empty slot has been filled. */
  lemma ItemRefsAfter(items: seq<Option<Id>>, k: nat, id: Id, c: Id)
    requires k < |items| && items[k].None? && c in ItemRefs(items[k := Some(id)])
    ensures c == id || c in ItemRefs(items)
  {
    hide ItemRefs, Count;
    ItemRefsSet(items, k, id, c);
    CountHas(ItemRefs(items), c);
    CountHas(ItemRefs(items[k := Some(id)]), c);
  }

  /** What a dict refers to once a value has been put. */
  lemma PairRefsAfter(pairs: seq<(Id, Id)>, k: nat, key: Id, val: Id, c: Id)
    requires c in PairRefs(PairsWith(pairs, k, key, val))
    ensures c == key || c == val || c in PairRefs(pairs)
  {
    hide PairRefs, Count;
    if k < |pairs| { PairRefsReplace(pairs, k, val, c); } else { PairRefsAppend(pairs, key, val, c); }
    CountHas(PairRefs(pairs), c);
    CountHas(PairRefs(PairsWith(pairs, k, key, val)), c);
  }

  lemma ItemTidy(h0: Heap, h: Heap, l: Id, k: nat, val: Id)
    requires Tidy(h0, h) && |h0| <= l < |h| && h[l].obj.OList? && k < |h[l].obj.items| && h[l].obj.items[k].None?
    requires val < |h| && (Container(h[val].obj) ==> l < val)
    ensures Tidy(h0, SetItem(h, l, k, val)) && Evolves(h, SetItem(h, l, k, val), {l})
  {
    hide ItemRefs, Tidy;
    var h' := SetItem(h, l, k, val);
    forall c | c in Refs(h'[l].obj) && c < |h'| && Container(h'[c].obj) ensures l < c {
      ItemRefsAfter(h[l].obj.items, k, val, c);
      if c != val { NewerInside(h0, h, l, c); }
    }
    TidyPut(h0, h, h', l);
  }

  lemma NewerInside(h0: Heap, h: Heap, i: Id, c: Id)
    requires Tidy(h0, h) && |h0| <= i < |h| && c in Refs(h[i].obj) && c < |h| && Container(h[c].obj)
    ensures i < c
  {}

  lemma MemberTidy(h0: Heap, h: Heap, h': Heap, d: Id, k: nat, key: Id, val: Id)
    requires Tidy(h0, h) && |h0| <= d < |h| && h[d].obj.ODict? && Evolves(h, h', {d})
    requires h'[d].obj == ODict(PairsWith(h[d].obj.pairs, k, key, val))
    requires key < |h| && h[key].obj.OStr? && val < |h| && (Container(h[val].obj) ==> d < val)
    ensures Tidy(h0, h')
  {
    hide PairRefs, Tidy, PairsWith;
    forall c | c in Refs(h'[d].obj) && c < |h'| && Container(h'[c].obj) ensures d < c {
      PairRefsAfter(h[d].obj.pairs, k, key, val, c);
      if c != val && c != key && c < |h| { NewerInside(h0, h, d, c); }
    }
    TidyPut(h0, h, h', d);
  }

  // ---- who holds what --------------------------------------------------------------------------------

  /** Each object on the path refers to the next. */
  ghost predicate Path(h: Heap, path: seq<Id>) {
    && path != []
    && forall k | 0 <= k < |path| - 1 :: path[k] < |h| && path[k + 1] in Refs(h[path[k]].obj)
  }

  ghost predicate ReachedFrom(h: Heap, held: seq<Id>, i: Id) {
    exists path :: Path(h, path) && path[0] in held && path[|path| - 1] == i
  }

  lemma {:induction false} Referrer(h: Heap, i: Id) returns (j: Id)
    requires InEdges(h, i) >= 1
    ensures j < |h| && i in Refs(h[j].obj)
  {
    hide Refs, Count;
    var n := |h| - 1;
    CountHas(Refs(h[n].obj), i);
    if i in Refs(h[n].obj) {
      j := n;
    } else {
      j := Referrer(h[..n], i);
    }
  }

  lemma Extend(h: Heap, held: seq<Id>, j: Id, i: Id)
    requires ReachedFrom(h, held, j) && j < |h| && i in Refs(h[j].obj)
    ensures ReachedFrom(h, held, i)
  {
    hide Refs;
    var path :| Path(h, path) && path[0] in held && path[|path| - 1] == j;
    var longer := path + [i];
    assert Path(h, longer);
    assert longer[0] in held && longer[|longer| - 1] == i;
  }

  /** A new object is alive only because a path from something held leads to it: no cycle keeps itself alive. */
  lemma {:induction false} Reached(h0: Heap, held0: seq<Id>, h: Heap, held: seq<Id>, i: Id)
    requires Balanced(h0, held0) && Balanced(h, held) && Tidy(h0, h)
    requires |h0| <= i && Alive(h, i)
    ensures ReachedFrom(h, held, i)
    decreases if Container(h[i].obj) then 0 else 1, i
  {
    hide Balanced, InEdges, Count, Refs;
    if i in held {
      assert Path(h, [i]);
    } else {
      HasReferrer(h, held, i);
      var j := Referrer(h, i);
      NotOld(h0, held0, h, held, i, j);
      Reached(h0, held0, h, held, j);
      Extend(h, held, j, i);
    }
  }

  lemma HasReferrer(h: Heap, held: seq<Id>, i: Id)
    requires Balanced(h, held) && Alive(h, i) && i !in held
    ensures InEdges(h, i) >= 1
  {
    hide InEdges, Count;
    assert BalancedAt(h, held, i);
    CountHas(held, i);
  }

  lemma NotOld(h0: Heap, held0: seq<Id>, h: Heap, held: seq<Id>, i: Id, j: Id)
    requires Balanced(h0, held0) && Tidy(h0, h) && |h0| <= i < |h|
    requires j < |h| && i in Refs(h[j].obj)
    ensures |h0| <= j && Alive(h, j) && Container(h[j].obj) && (Container(h[i].obj) ==> j < i)
  {
    hide Balanced;
    if j < |h0| {
      ChildAlive(h0, held0, j, i);
    }
  }
}
