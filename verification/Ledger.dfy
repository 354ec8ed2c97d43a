/**
 * Python objects as a ledger of reference counts: what CPython keeps, and what creating,
 * taking, storing and releasing references does to it.
 */
module Ledger {
  import opened Common

  type Id = nat

  datatype Obj =
    | Freed
    | ONone
    | OBool(b: bool)
    | OInt(i: int)
    | OFloat(token: seq<byte>)
    | OStr(cps: seq<codepoint>)
    | OList(items: seq<Option<Id>>)
    | ODict(pairs: seq<(Id, Id)>)
    | OTuple(elems: seq<Id>)
    | OOther(refs: seq<Id>)

  datatype Slot = Slot(obj: Obj, rc: nat)

  /** Every object ever created, by identity. */
  type Heap = seq<Slot>

  // ---- references inside objects -------------------------------------------------------------

  function One(a: Id, c: Id): nat {
    if a == c then 1 else 0
  }

  function ItemRefs(items: seq<Option<Id>>): seq<Id> {
    if items == [] then []
    else (if items[0].Some? then [items[0].value] else []) + ItemRefs(items[1..])
  }

  function PairRefs(pairs: seq<(Id, Id)>): seq<Id> {
    if pairs == [] then [] else [pairs[0].0, pairs[0].1] + PairRefs(pairs[1..])
  }

  /** The references an object owns. */
  function Refs(o: Obj): seq<Id> {
    match o
    case OList(items) => ItemRefs(items)
    case ODict(pairs) => PairRefs(pairs)
    case OTuple(elems) => elems
    case OOther(refs) => refs
    case _ => []
  }

  /** How often `c` occurs among references. */
  function Count(s: seq<Id>, c: Id): nat {
    if s == [] then 0 else One(s[0], c) + Count(s[1..], c)
  }

  lemma {:induction false} CountConcat(s: seq<Id>, t: seq<Id>, c: Id)
    ensures Count(s + t, c) == Count(s, c) + Count(t, c)
  {
    if s == [] {
      assert s + t == t;
    } else {
      assert (s + t)[1..] == s[1..] + t;
      CountConcat(s[1..], t, c);
    }
  }

  /** How often the objects of the heap together refer to `c`. */
  function InEdges(h: Heap, c: Id): nat {
    if h == [] then 0 else InEdges(h[..|h| - 1], c) + Count(Refs(h[|h| - 1].obj), c)
  }

  lemma {:induction false} InEdgesUpdate(h: Heap, i: nat, s: Slot, c: Id)
    requires i < |h|
    ensures InEdges(h[i := s], c) + Count(Refs(h[i].obj), c) == InEdges(h, c) + Count(Refs(s.obj), c)
  {
    hide Refs, Count;
    var n := |h| - 1;
    if i == n {
      assert h[i := s][..n] == h[..n];
    } else {
      assert h[i := s][..n] == h[..n][i := s];
      InEdgesUpdate(h[..n], i, s, c);
    }
  }

  lemma {:induction false} CountHas(s: seq<Id>, c: Id)
    ensures Count(s, c) >= 1 <==> c in s
  {
    if s != [] {
      CountHas(s[1..], c);
      assert s == [s[0]] + s[1..];
    }
  }

  lemma {:induction false} InEdgesHas(h: Heap, i: nat, c: Id)
    requires i < |h| && c in Refs(h[i].obj)
    ensures InEdges(h, c) >= 1
  {
    hide Refs, Count;
    var n := |h| - 1;
    if i == n {
      CountHas(Refs(h[n].obj), c);
    } else {
      InEdgesHas(h[..n], i, c);
    }
  }

  lemma {:induction false} ItemRefsHas(items: seq<Option<Id>>, k: nat)
    requires k < |items| && items[k].Some?
    ensures items[k].value in ItemRefs(items)
  {
    if k > 0 { ItemRefsHas(items[1..], k - 1); }
  }

  lemma {:induction false} ItemRefsSet(items: seq<Option<Id>>, k: nat, id: Id, c: Id)
    requires k < |items| && items[k].None?
    ensures Count(ItemRefs(items[k := Some(id)]), c) == Count(ItemRefs(items), c) + One(id, c)
  {
    hide One;
    var items' := items[k := Some(id)];
    if k > 0 {
      assert items'[1..] == items[1..][k - 1 := Some(id)];
      ItemRefsSet(items[1..], k - 1, id, c);
      var first := if items[0].Some? then [items[0].value] else [];
      CountConcat(first, ItemRefs(items[1..]), c);
      CountConcat(first, ItemRefs(items'[1..]), c);
    } else {
      assert items'[1..] == items[1..];
      CountConcat([id], ItemRefs(items[1..]), c);
      assert [id][1..] == [];
      assert [] + ItemRefs(items[1..]) == ItemRefs(items[1..]);
    }
  }

  lemma {:induction false} PairRefsHas(pairs: seq<(Id, Id)>, k: nat)
    requires k < |pairs|
    ensures pairs[k].0 in PairRefs(pairs) && pairs[k].1 in PairRefs(pairs)
  {
    if k > 0 { PairRefsHas(pairs[1..], k - 1); }
  }

  lemma PairCount(pairs: seq<(Id, Id)>, c: Id)
    requires pairs != []
    ensures Count(PairRefs(pairs), c) == One(pairs[0].0, c) + One(pairs[0].1, c) + Count(PairRefs(pairs[1..]), c)
  {
    hide One;
    var t := PairRefs(pairs);
    assert t[1..] == [pairs[0].1] + PairRefs(pairs[1..]);
    assert t[1..][1..] == PairRefs(pairs[1..]);
  }

  lemma {:induction false} PairRefsAppend(pairs: seq<(Id, Id)>, key: Id, val: Id, c: Id)
    ensures Count(PairRefs(pairs + [(key, val)]), c) == Count(PairRefs(pairs), c) + One(key, c) + One(val, c)
  {
    hide One, Count, PairRefs;
    var longer := pairs + [(key, val)];
    PairCount(longer, c);
    if pairs == [] {
      assert longer[1..] == pairs;
      NoPairs(c);
    } else {
      assert longer[1..] == pairs[1..] + [(key, val)];
      PairCount(pairs, c);
      PairRefsAppend(pairs[1..], key, val, c);
    }
  }

  lemma NoPairs(c: Id)
    ensures Count(PairRefs([]), c) == 0 && Count(ItemRefs([]), c) == 0 && Count([], c) == 0
  {}

  lemma {:induction false} PairRefsReplace(pairs: seq<(Id, Id)>, k: nat, val: Id, c: Id)
    requires k < |pairs|
    ensures Count(PairRefs(pairs[k := (pairs[k].0, val)]), c) + One(pairs[k].1, c) == Count(PairRefs(pairs), c) + One(val, c)
  {
    hide One, Count, PairRefs;
    var pairs' := pairs[k := (pairs[k].0, val)];
    PairCount(pairs, c);
    PairCount(pairs', c);
    if k > 0 {
      assert pairs'[1..] == pairs[1..][k - 1 := (pairs[k].0, val)];
      PairRefsReplace(pairs[1..], k - 1, val, c);
    } else {
      assert pairs'[1..] == pairs[1..];
    }
  }

  // ---- the balance ---------------------------------------------------------------------------

  predicate Alive(h: Heap, id: Id) {
    id < |h| && !h[id].obj.Freed?
  }

  /**
   * The count of object `i` is exactly the number of its holders: `held` outside the heap, and
   * the objects in it. It is freed exactly when nothing holds it.
   */
  ghost predicate BalancedAt(h: Heap, held: seq<Id>, i: Id) {
    if i < |h| then h[i].rc == Count(held, i) + InEdges(h, i) && (h[i].obj.Freed? <==> h[i].rc == 0)
    else Count(held, i) == 0 && InEdges(h, i) == 0
  }

  ghost predicate Balanced(h: Heap, held: seq<Id>) {
    forall i :: BalancedAt(h, held, i)
  }

  lemma HeldAlive(h: Heap, held: seq<Id>, id: Id)
    requires Balanced(h, held) && id in held
    ensures Alive(h, id) && h[id].rc > 0
  {
    hide Count, InEdges;
    CountHas(held, id);
    assert BalancedAt(h, held, id);
  }

  lemma ChildAlive(h: Heap, held: seq<Id>, i: Id, c: Id)
    requires Balanced(h, held) && i < |h| && c in Refs(h[i].obj)
    ensures Alive(h, c)
  {
    hide Count, InEdges, Refs;
    InEdgesHas(h, i, c);
    assert BalancedAt(h, held, c);
  }

  /** The order in which references are held does not matter. */
  lemma HeldAnyOrder(h: Heap, held: seq<Id>, other: seq<Id>)
    requires Balanced(h, held) && forall c :: Count(held, c) == Count(other, c)
    ensures Balanced(h, other)
  {
    hide Count, InEdges;
    forall i ensures BalancedAt(h, other, i) {
      assert BalancedAt(h, held, i);
    }
  }

  // ---- taking, creating and storing references -------------------------------------------------

  function Incref(h: Heap, id: Id): Heap
    requires Alive(h, id)
  {
    h[id := h[id].(rc := h[id].rc + 1)]
  }

  lemma IncrefBalanced(h: Heap, held: seq<Id>, id: Id)
    requires Balanced(h, held) && Alive(h, id)
    ensures Balanced(Incref(h, id), [id] + held)
  {
    hide Count, InEdges, Refs;
    forall i ensures BalancedAt(Incref(h, id), [id] + held, i) {
      assert BalancedAt(h, held, i);
      CountCons(id, held, i);
      InEdgesUpdate(h, id, Incref(h, id)[id], i);
    }
  }

  lemma CountCons(a: Id, s: seq<Id>, c: Id)
    ensures Count([a] + s, c) == One(a, c) + Count(s, c)
  {
    assert ([a] + s)[1..] == s;
  }

  function New(h: Heap, o: Obj): Heap {
    h + [Slot(o, 1)]
  }

  lemma NewBalanced(h: Heap, held: seq<Id>, o: Obj)
    requires Balanced(h, held) && (forall c :: Count(Refs(o), c) == 0) && !o.Freed?
    ensures Balanced(New(h, o), [|h|] + held)
  {
    hide Count, Refs;
    var h' := New(h, o);
    assert h'[..|h|] == h;
    forall i ensures BalancedAt(h', [|h|] + held, i) {
      assert BalancedAt(h, held, i);
      CountCons(|h|, held, i);
    }
  }

  /** Stores `id` in an empty list slot; the list takes over the caller's reference. */
  function SetItem(h: Heap, l: Id, k: nat, id: Id): Heap
    requires l < |h| && h[l].obj.OList? && k < |h[l].obj.items|
  {
    h[l := h[l].(obj := OList(h[l].obj.items[k := Some(id)]))]
  }

  lemma SetItemBalanced(h: Heap, held: seq<Id>, l: Id, k: nat, id: Id)
    requires Balanced(h, [id] + held)
    requires l < |h| && h[l].obj.OList? && k < |h[l].obj.items| && h[l].obj.items[k].None?
    ensures Balanced(SetItem(h, l, k, id), held)
  {
    hide Count, InEdges, ItemRefs;
    var h' := SetItem(h, l, k, id);
    forall i ensures BalancedAt(h', held, i) {
      assert BalancedAt(h, [id] + held, i);
      CountCons(id, held, i);
      InEdgesUpdate(h, l, h'[l], i);
      ItemRefsSet(h[l].obj.items, k, id, i);
    }
  }

  /** Appends a pair to a dict, which takes its own references to both. */
  function AppendPair(h: Heap, d: Id, key: Id, val: Id): Heap
    requires Alive(h, key) && Alive(h, val) && d < |h| && h[d].obj.ODict?
  {
    var h1 := Incref(Incref(h, key), val);
    h1[d := h1[d].(obj := ODict(h[d].obj.pairs + [(key, val)]))]
  }

  lemma AppendPairBalanced(h: Heap, held: seq<Id>, d: Id, key: Id, val: Id)
    requires Balanced(h, held) && Alive(h, key) && Alive(h, val) && d < |h| && h[d].obj.ODict?
    ensures Balanced(AppendPair(h, d, key, val), held)
  {
    hide Count, InEdges, PairRefs;
    IncrefBalanced(h, held, key);
    var h0 := Incref(h, key);
    IncrefBalanced(h0, [key] + held, val);
    var h1 := Incref(h0, val);
    var h' := AppendPair(h, d, key, val);
    forall i ensures BalancedAt(h', held, i) {
      assert BalancedAt(h1, [val] + ([key] + held), i);
      CountCons(val, [key] + held, i);
      CountCons(key, held, i);
      InEdgesUpdate(h1, d, h'[d], i);
      PairRefsAppend(h[d].obj.pairs, key, val, i);
    }
  }

  /** Puts a new value in a pair of a dict; the reference to the old one is left to be given back. */
  function ReplaceValue(h: Heap, d: Id, k: nat, val: Id): Heap
    requires Alive(h, val) && d < |h| && h[d].obj.ODict? && k < |h[d].obj.pairs|
  {
    var h1 := Incref(h, val);
    var pairs := h[d].obj.pairs;
    h1[d := h1[d].(obj := ODict(pairs[k := (pairs[k].0, val)]))]
  }

  lemma ReplaceValueBalanced(h: Heap, held: seq<Id>, d: Id, k: nat, val: Id)
    requires Balanced(h, held) && Alive(h, val) && d < |h| && h[d].obj.ODict? && k < |h[d].obj.pairs|
    ensures Balanced(ReplaceValue(h, d, k, val), [h[d].obj.pairs[k].1] + held)
  {
    hide Count, InEdges, PairRefs;
    IncrefBalanced(h, held, val);
    var h1 := Incref(h, val);
    var h' := ReplaceValue(h, d, k, val);
    var old' := h[d].obj.pairs[k].1;
    forall i ensures BalancedAt(h', [old'] + held, i) {
      assert BalancedAt(h1, [val] + held, i);
      CountCons(val, held, i);
      CountCons(old', held, i);
      InEdgesUpdate(h1, d, h'[d], i);
      PairRefsReplace(h[d].obj.pairs, k, val, i);
    }
  }

  /** A reference to each of `refs`. */
  function IncrefAll(h: Heap, refs: seq<Id>): Heap
    requires forall x | x in refs :: Alive(h, x)
    decreases |refs|
  {
    if refs == [] then h
    else
      AliveAfterIncref(h, refs[0]);
      IncrefAll(Incref(h, refs[0]), refs[1..])
  }

  lemma AliveAfterIncref(h: Heap, id: Id)
    requires Alive(h, id)
    ensures forall x | Alive(h, x) :: Alive(Incref(h, id), x)
  {}

  lemma {:induction false} IncrefAllBalanced(h: Heap, held: seq<Id>, refs: seq<Id>)
    requires Balanced(h, held) && forall x | x in refs :: Alive(h, x)
    ensures Balanced(IncrefAll(h, refs), refs + held)
    ensures |IncrefAll(h, refs)| == |h| && forall i | 0 <= i < |h| :: IncrefAll(h, refs)[i].obj == h[i].obj
    decreases |refs|
  {
    hide Balanced;
    if refs == [] {
      assert refs + held == held;
    } else {
      IncrefBalanced(h, held, refs[0]);
      AliveAfterIncref(h, refs[0]);
      IncrefAllBalanced(Incref(h, refs[0]), [refs[0]] + held, refs[1..]);
      var h' := IncrefAll(h, refs);
      forall c ensures Count(refs[1..] + ([refs[0]] + held), c) == Count(refs + held, c) {
        RefsReordered(refs, held, c);
      }
      HeldAnyOrder(h', refs[1..] + ([refs[0]] + held), refs + held);
    }
  }

  lemma RefsReordered(refs: seq<Id>, held: seq<Id>, c: Id)
    requires refs != []
    ensures Count(refs[1..] + ([refs[0]] + held), c) == Count(refs + held, c)
  {
    hide Count;
    CountConcat(refs[1..], [refs[0]] + held, c);
    CountConcat([refs[0]], held, c);
    CountConcat([refs[0]], refs[1..], c);
    CountConcat(refs, held, c);
    assert refs == [refs[0]] + refs[1..];
  }

  /** An object's contents are replaced; the references to the old ones are left to be given back. */
  function SetContents(h: Heap, id: Id, o: Obj): Heap
    requires id < |h| && forall x | x in Refs(o) :: Alive(h, x)
  {
    var h1 := IncrefAll(h, Refs(o));
    if id < |h1| then h1[id := h1[id].(obj := o)] else h1
  }

  lemma SetContentsBalanced(h: Heap, held: seq<Id>, id: Id, o: Obj)
    requires Balanced(h, held) && Alive(h, id) && !o.Freed?
    requires forall x | x in Refs(o) :: Alive(h, x)
    ensures Balanced(SetContents(h, id, o), Refs(h[id].obj) + held)
    ensures |SetContents(h, id, o)| == |h| && SetContents(h, id, o)[id].obj == o
    ensures forall i | 0 <= i < |h| && i != id :: SetContents(h, id, o)[i].obj == h[i].obj
  {
    hide Count, InEdges, Refs, IncrefAll;
    IncrefAllBalanced(h, held, Refs(o));
    var h1, h' := IncrefAll(h, Refs(o)), SetContents(h, id, o);
    forall i ensures BalancedAt(h', Refs(h[id].obj) + held, i) {
      assert BalancedAt(h1, Refs(o) + held, i);
      CountConcat(Refs(o), held, i);
      CountConcat(Refs(h[id].obj), held, i);
      InEdgesUpdate(h1, id, h'[id], i);
    }
  }

  /** A new object that takes over references its maker holds. */
  lemma NewHolding(h: Heap, held: seq<Id>, o: Obj)
    requires Balanced(h, Refs(o) + held) && !o.Freed?
    ensures Balanced(New(h, o), [|h|] + held)
  {
    hide Count, Refs;
    var h' := New(h, o);
    assert h'[..|h|] == h;
    forall i ensures BalancedAt(h', [|h|] + held, i) {
      assert BalancedAt(h, Refs(o) + held, i);
      CountConcat(Refs(o), held, i);
      CountCons(|h|, held, i);
    }
  }

  // ---- releasing -------------------------------------------------------------------------------

  function TotalRc(h: Heap): nat {
    if h == [] then 0 else TotalRc(h[..|h| - 1]) + h[|h| - 1].rc
  }

  lemma {:induction false} TotalRcUpdate(h: Heap, i: nat, s: Slot)
    requires i < |h|
    ensures TotalRc(h[i := s]) + h[i].rc == TotalRc(h) + s.rc
  {
    var n := |h| - 1;
    if i == n {
      assert h[i := s][..n] == h[..n];
    } else {
      assert h[i := s][..n] == h[..n][i := s];
      TotalRcUpdate(h[..n], i, s);
    }
  }

  /** Gives one reference back; an object nobody holds any more is freed. */
  function Drop(h: Heap, id: Id): Heap
    requires id < |h| && h[id].rc > 0
  {
    if h[id].rc > 1 then h[id := h[id].(rc := h[id].rc - 1)] else h[id := Slot(Freed, 0)]
  }

  /** The references an object gives back when its last holder goes. */
  function Orphans(h: Heap, id: Id): seq<Id>
    requires id < |h|
  {
    if h[id].rc > 1 then [] else Refs(h[id].obj)
  }

  lemma DropBalanced(h: Heap, held: seq<Id>, id: Id)
    requires Balanced(h, [id] + held)
    ensures id < |h| && h[id].rc > 0
    ensures Balanced(Drop(h, id), Orphans(h, id) + held)
  {
    hide Refs, Count, InEdges;
    HeldAlive(h, [id] + held, id);
    var h' := Drop(h, id);
    forall i ensures BalancedAt(h', Orphans(h, id) + held, i) {
      assert BalancedAt(h, [id] + held, i);
      CountCons(id, held, i);
      CountConcat(Orphans(h, id), held, i);
      InEdgesUpdate(h, id, h'[id], i);
      NoRefs(i);
    }
  }

  lemma NoRefs(c: Id)
    ensures Refs(Freed) == [] && Count([], c) == 0
  {}

  /** Gives back all of `work`, and what that frees in turn. */
  function Release(h: Heap, work: seq<Id>): Heap
    decreases TotalRc(h), |work|
  {
    if work == [] then h
    else if work[0] < |h| && h[work[0]].rc > 0 then
      DropShrinks(h, work[0]);
      Release(Drop(h, work[0]), Orphans(h, work[0]) + work[1..])
    else Release(h, work[1..])
  }

  lemma DropShrinks(h: Heap, id: Id)
    requires id < |h| && h[id].rc > 0
    ensures TotalRc(Drop(h, id)) < TotalRc(h)
  {
    TotalRcUpdate(h, id, Drop(h, id)[id]);
  }

  /** Nothing is lost and nothing is given back twice: afterwards the counts say exactly who still holds what. */
  lemma {:induction false} ReleaseBalanced(h: Heap, held: seq<Id>, work: seq<Id>)
    requires Balanced(h, work + held)
    ensures Balanced(Release(h, work), held)
    decreases TotalRc(h), |work|
  {
    hide Refs, Balanced, Drop, Orphans;
    if work == [] {
      assert work + held == held;
    } else {
      assert work + held == [work[0]] + (work[1..] + held);
      DropBalanced(h, work[1..] + held, work[0]);
      DropShrinks(h, work[0]);
      var more := Orphans(h, work[0]) + work[1..];
      assert Orphans(h, work[0]) + (work[1..] + held) == more + held;
      ReleaseBalanced(Drop(h, work[0]), held, more);
    }
  }

  /** `h'` is `h` with some objects freed and counts changed; what is left is unchanged. */
  ghost predicate Shrunk(h: Heap, h': Heap) {
    |h'| == |h| && forall i | 0 <= i < |h| :: h'[i].obj == h[i].obj || h'[i].obj.Freed?
  }

  lemma {:induction false} ReleaseShrinks(h: Heap, work: seq<Id>)
    ensures Shrunk(h, Release(h, work))
    decreases TotalRc(h), |work|
  {
    hide Refs, TotalRc, Orphans;
    if work != [] {
      if work[0] < |h| && h[work[0]].rc > 0 {
        DropShrinks(h, work[0]);
        ReleaseShrinks(Drop(h, work[0]), Orphans(h, work[0]) + work[1..]);
      } else {
        ReleaseShrinks(h, work[1..]);
      }
    }
  }
}
