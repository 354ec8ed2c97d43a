/**
 * The interpreter's object operations, any of which may run out of memory, and the
 * direct-mapped cache of dict keys (src/decode.rs).
 */
module KeyCache {
  import opened Common
  import opened Ledger
  import opened Stack
  import Swar

  lemma {:induction false} NoItemRefs(n: nat)
    ensures ItemRefs(seq(n, _ => None)) == []
  {
    var items: seq<Option<Id>> := seq(n, _ => None);
    if n > 0 {
      var shorter: seq<Option<Id>> := seq(n - 1, _ => None);
      assert items[1..] == shorter;
      NoItemRefs(n - 1);
    }
  }

  predicate Immutable(o: Obj) {
    o.ONone? || o.OBool? || o.OInt? || o.OFloat? || o.OStr?
  }

  lemma IncrefEvolves(h: Heap, id: Id)
    requires Alive(h, id)
    ensures Evolves(h, Incref(h, id), {})
  {}

  /** Where a dict's keys equal `key`, by their text. */
  function FindPair(h: Heap, pairs: seq<(Id, Id)>, key: Id): (k: nat)
    requires key < |h|
    ensures k <= |pairs|
  {
    if pairs == [] then 0
    else if pairs[0].0 < |h| && h[pairs[0].0].obj == h[key].obj then 0
    else 1 + FindPair(h, pairs[1..], key)
  }

  /** A dict's pairs with a value for `key`, whose place is `k` if the dict has it. */
  function PairsWith(pairs: seq<(Id, Id)>, k: nat, key: Id, val: Id): seq<(Id, Id)> {
    if k < |pairs| then pairs[k := (pairs[k].0, val)] else pairs + [(key, val)]
  }

  /** The objects of one interpreter. A result of `None`, or `false`, is a failed call with nothing changed. */
  class Interpreter {
    var heap: Heap

    constructor ()
      ensures heap == []
    {
      heap := [];
    }

    /** A new reference to an immutable object: a new one, or one that CPython shares. */
    method NewImmutable(o: Obj, ghost rest: seq<Id>) returns (r: Option<Id>)
      requires Balanced(heap, rest) && Immutable(o)
      modifies this
      ensures r.None? ==> heap == old(heap)
      ensures r.Some? ==> Balanced(heap, [r.value] + rest) && r.value < |heap| && heap[r.value].obj == o
      ensures Evolves(old(heap), heap, {})
    {
      hide Balanced;
      if * {
        return None;
      }
      if * {
        if i: nat :| i < |heap| && heap[i].obj == o {
          IncrefBalanced(heap, rest, i);
          IncrefEvolves(heap, i);
          heap := Incref(heap, i);
          return Some(i);
        }
      }
      NewBalanced(heap, rest, o);
      r := Some(|heap|);
      heap := New(heap, o);
    }

    /** A new reference to `None`, `True` or `False`, which exist once and cannot fail. */
    method Shared(o: Obj, ghost rest: seq<Id>) returns (r: Id)
      requires Balanced(heap, rest) && Immutable(o)
      modifies this
      ensures Balanced(heap, [r] + rest) && r < |heap| && heap[r].obj == o
      ensures Evolves(old(heap), heap, {})
    {
      hide Balanced;
      if i: nat :| i < |heap| && heap[i].obj == o {
        IncrefBalanced(heap, rest, i);
        IncrefEvolves(heap, i);
        heap := Incref(heap, i);
        return i;
      }
      NewBalanced(heap, rest, o);
      r := |heap|;
      heap := New(heap, o);
    }

    /** A new list of `n` empty slots. */
    method NewList(n: nat, ghost rest: seq<Id>) returns (r: Option<Id>)
      requires Balanced(heap, rest)
      modifies this
      ensures r.None? ==> heap == old(heap)
      ensures r.Some? ==> r.value == |old(heap)| && heap == New(old(heap), OList(seq(n, _ => None)))
      ensures r.Some? ==> Balanced(heap, [r.value] + rest)
    {
      hide Balanced;
      if * {
        return None;
      }
      var o := OList(seq(n, _ => None));
      NoItemRefs(n);
      NewBalanced(heap, rest, o);
      r := Some(|heap|);
      heap := New(heap, o);
    }

    method NewDict(ghost rest: seq<Id>) returns (r: Option<Id>)
      requires Balanced(heap, rest)
      modifies this
      ensures r.None? ==> heap == old(heap)
      ensures r.Some? ==> r.value == |old(heap)| && heap == New(old(heap), ODict([]))
      ensures r.Some? ==> Balanced(heap, [r.value] + rest)
    {
      hide Balanced;
      if * {
        return None;
      }
      NewBalanced(heap, rest, ODict([]));
      r := Some(|heap|);
      heap := New(heap, ODict([]));
    }

    method Increment(id: Id, ghost rest: seq<Id>)
      requires Balanced(heap, rest) && Alive(heap, id)
      modifies this
      ensures heap == Incref(old(heap), id)
      ensures Balanced(heap, [id] + rest) && Evolves(old(heap), heap, {})
    {
      hide Balanced;
      IncrefBalanced(heap, rest, id);
      IncrefEvolves(heap, id);
      heap := Incref(heap, id);
    }

    /** Gives one reference back, and frees what that leaves without a holder. */
    method Decrement(id: Id, ghost rest: seq<Id>)
      requires Balanced(heap, [id] + rest)
      modifies this
      ensures heap == Release(old(heap), [id])
      ensures Balanced(heap, rest) && Shrunk(old(heap), heap)
    {
      hide Balanced, Release;
      ReleaseBalanced(heap, rest, [id]);
      ReleaseShrinks(heap, [id]);
      heap := Release(heap, [id]);
    }

    /** `PyList_SET_ITEM`: the list takes over the reference to the item. */
    method ListSetItem(l: Id, k: nat, val: Id, ghost rest: seq<Id>)
      requires Balanced(heap, [val] + rest)
      requires l < |heap| && heap[l].obj.OList? && k < |heap[l].obj.items| && heap[l].obj.items[k].None?
      modifies this
      ensures heap == SetItem(old(heap), l, k, val) && Balanced(heap, rest)
    {
      hide Balanced;
      SetItemBalanced(heap, rest, l, k, val);
      heap := SetItem(heap, l, k, val);
    }

    /** `PyDict_SetItem`: borrows key and value; an equal key keeps its place and gets the new value. */
    method DictSetItem(d: Id, key: Id, val: Id, ghost rest: seq<Id>) returns (ok: bool)
      requires Balanced(heap, rest) && Alive(heap, key) && Alive(heap, val)
      requires Alive(heap, d) && heap[d].obj.ODict? && d in rest
      modifies this
      ensures Balanced(heap, rest) && Evolves(old(heap), heap, {d}) && |heap| == |old(heap)|
      ensures !ok ==> heap == old(heap)
      ensures ok ==>
                var pairs := old(heap)[d].obj.pairs;
                heap[d].obj == ODict(PairsWith(pairs, FindPair(old(heap), pairs, key), key, val))
    {
      hide Balanced, Release;
      if * {
        return false;
      }
      var pairs := heap[d].obj.pairs;
      var k := FindPair(heap, pairs, key);
      if k < |pairs| {
        var replaced := ReplaceValue(heap, d, k, val);
        ReplaceValueBalanced(heap, rest, d, k, val);
        ReleaseBalanced(replaced, rest, [pairs[k].1]);
        ReleaseShrinks(replaced, [pairs[k].1]);
        heap := Release(replaced, [pairs[k].1]);
        HeldAlive(heap, rest, d);
      } else {
        AppendPairBalanced(heap, rest, d, key, val);
        heap := AppendPair(heap, d, key, val);
      }
      ok := true;
    }
  }

  // ---- the cache -----------------------------------------------------------------------------

  const CACHE_SLOTS: nat := 2048
  const CACHE_MAX_KEY: nat := 64

  datatype CacheSlot = CacheSlot(hash: bv64, obj: Option<Id>)

  function SlotRefs(s: CacheSlot): seq<Id> {
    if s.obj.Some? then [s.obj.value] else []
  }

  /** The references the cache owns: one for each occupied slot. */
  function CacheRefs(slots: seq<CacheSlot>): seq<Id> {
    if slots == [] then [] else SlotRefs(slots[0]) + CacheRefs(slots[1..])
  }

  lemma {:induction false} CacheRefsUpdate(slots: seq<CacheSlot>, i: nat, s: CacheSlot, c: Id)
    requires i < |slots|
    ensures Count(CacheRefs(slots[i := s]), c) + Count(SlotRefs(slots[i]), c) == Count(CacheRefs(slots), c) + Count(SlotRefs(s), c)
  {
    hide Count, SlotRefs;
    var slots' := slots[i := s];
    CountConcat(SlotRefs(slots[0]), CacheRefs(slots[1..]), c);
    CountConcat(SlotRefs(slots'[0]), CacheRefs(slots'[1..]), c);
    if i > 0 {
      assert slots'[1..] == slots[1..][i - 1 := s];
      CacheRefsUpdate(slots[1..], i - 1, s, c);
    } else {
      assert slots'[1..] == slots[1..];
    }
  }

  lemma {:induction false} CacheHas(slots: seq<CacheSlot>, i: nat)
    requires i < |slots| && slots[i].obj.Some?
    ensures slots[i].obj.value in CacheRefs(slots)
  {
    if i > 0 { CacheHas(slots[1..], i - 1); }
  }

  const HASH_FACTOR: bv64 := 0x517c_c1b7_2722_0a95

  function Mix(h: bv64, w: bv64): bv64 {
    (h.RotateLeft(5) ^ w) * HASH_FACTOR
  }

  /** The last bytes, fewer than eight, padded with zeros. */
  function Tail(b: seq<byte>): bv64
    requires |b| < 8
  {
    Swar.Load(b + seq(8 - |b|, _ => 0), 0)
  }

  function HashFrom(b: seq<byte>, i: nat, h: bv64): bv64
    requires i <= |b|
    decreases |b| - i
  {
    if i + 8 <= |b| then HashFrom(b, i + 8, Mix(h, Swar.Load(b, i))) else Mix(h, Tail(b[i..]))
  }

  function Length(n: nat): bv64
    decreases n
  {
    if n == 0 then 0 else Length(n - 1) + 1
  }

  function Hash(b: seq<byte>): bv64 {
    HashFrom(b, 0, Length(|b|))
  }

  /** The hash, eight bytes at a time and then the padded rest. */
  method HashOf(b: seq<byte>) returns (h: bv64)
    ensures h == Hash(b)
  {
    hide Mix, Tail, Swar.Load;
    h := Length(|b|);
    var i := 0;
    while i + 8 <= |b|
      invariant i <= |b| && HashFrom(b, i, h) == Hash(b)
    {
      h := Mix(h, Swar.Load(b, i));
      i := i + 8;
    }
    h := Mix(h, Tail(b[i..]));
  }

  function Index(h: bv64): (i: nat)
    ensures i < CACHE_SLOTS
  {
    (h & 0x7FF) as bv11 as int
  }

  /** The text of a key that is ASCII: its bytes are its characters. */
  function AsciiText(b: seq<byte>): (r: seq<codepoint>)
    ensures r == b
  {
    b
  }

  class Cache {
    const slots: array<CacheSlot>

    constructor ()
      ensures fresh(slots) && Valid() && CacheRefs(slots[..]) == []
    {
      slots := new CacheSlot[CACHE_SLOTS](_ => CacheSlot(0, None));
      new;
      EmptyCache(slots[..]);
    }

    ghost predicate Valid() {
      slots.Length == CACHE_SLOTS
    }

    ghost predicate HoldsStrings(h: Heap)
      reads slots
    {
      StringSlots(h, slots[..])
    }

    /**
     * A new reference to a string equal to `b`, which must be ASCII. Whatever was looked up
     * before, hits, collisions and evictions only show in who holds which reference: every
     * occupied slot owns exactly one.
     */
    method Get(interp: Interpreter, b: seq<byte>, ghost rest: seq<Id>) returns (r: Option<Id>)
      requires Valid() && Ascii(b) && Balanced(interp.heap, CacheRefs(slots[..]) + rest)
      requires HoldsStrings(interp.heap)
      modifies interp, slots
      ensures Evolves(old(interp.heap), interp.heap, {}) && HoldsStrings(interp.heap)
      ensures r.None? ==> interp.heap == old(interp.heap) && slots[..] == old(slots[..])
      ensures r.Some? ==> Balanced(interp.heap, [r.value] + (CacheRefs(slots[..]) + rest))
      ensures r.Some? ==> IsKey(interp.heap, r.value, b)
    {
      hide Balanced, Hash, Index, CacheRefs;
      ghost var held := CacheRefs(slots[..]) + rest;
      var h := HashOf(b);
      var slot := Index(h);
      var cached := slots[slot];
      if cached.hash == h && cached.obj.Some? {
        var o := cached.obj.value;
        CacheHas(slots[..], slot);
        HeldAlive(interp.heap, held, o);
        if interp.heap[o].obj == OStr(AsciiText(b)) {
          interp.Increment(o, held);
          SlotsEvolve(old(interp.heap), interp.heap, [o] + held, slots[..], [o], rest);
          return Some(o);
        }
      }
      r := interp.NewImmutable(OStr(AsciiText(b)), held);
      if r.None? {
        return;
      }
      SlotsEvolve(old(interp.heap), interp.heap, [r.value] + held, slots[..], [r.value], rest);
      Install(interp, slot, h, r.value, b, rest);
    }

    /** Puts a new key in a slot, for which the cache takes a reference, and gives back the one that was there. */
    method Install(interp: Interpreter, slot: nat, h: bv64, o: Id, ghost key: seq<codepoint>, ghost rest: seq<Id>)
      requires Valid() && slot < CACHE_SLOTS && IsKey(interp.heap, o, key)
      requires Balanced(interp.heap, [o] + (CacheRefs(slots[..]) + rest)) && HoldsStrings(interp.heap)
      modifies interp, slots
      ensures Evolves(old(interp.heap), interp.heap, {}) && HoldsStrings(interp.heap)
      ensures Balanced(interp.heap, [o] + (CacheRefs(slots[..]) + rest))
      ensures IsKey(interp.heap, o, key)
    {
      hide Balanced, CacheRefs, StringSlots;
      ghost var was := slots[..];
      HeldAlive(interp.heap, [o] + (CacheRefs(was) + rest), o);
      interp.Increment(o, [o] + (CacheRefs(was) + rest));
      var evicted := slots[slot];
      ghost var now := [o] + (CacheRefs(was[slot := CacheSlot(h, Some(o))]) + rest);
      MoveIn(interp.heap, was, slot, CacheSlot(h, Some(o)), o, rest);
      if evicted.obj.Some? {
        interp.Decrement(evicted.obj.value, now);
        HeldAlive(interp.heap, now, o);
      } else {
        assert SlotRefs(evicted) + now == now;
      }
      slots[slot] := CacheSlot(h, Some(o));
      assert slots[..] == was[slot := CacheSlot(h, Some(o))];
      SlotPut(old(interp.heap), was, slot, CacheSlot(h, Some(o)));
      SlotsEvolve(old(interp.heap), interp.heap, now, slots[..], [o], rest);
    }

    /** Gives back every key (`KeyCache::clear`). */
    method Clear(interp: Interpreter, ghost rest: seq<Id>)
      requires Valid() && Balanced(interp.heap, CacheRefs(slots[..]) + rest)
      modifies interp, slots
      ensures Balanced(interp.heap, rest) && CacheRefs(slots[..]) == []
      ensures Shrunk(old(interp.heap), interp.heap)
    {
      hide Balanced, CacheRefs;
      for i := 0 to CACHE_SLOTS
        invariant Balanced(interp.heap, CacheRefs(slots[..]) + rest)
        invariant forall k | 0 <= k < i :: slots[k].obj.None?
        invariant Shrunk(old(interp.heap), interp.heap)
      {
        var slot := slots[i];
        if slot.obj.Some? {
          ghost var was := slots[..];
          slots[i] := slot.(obj := None);
          assert slots[..] == was[i := slot.(obj := None)];
          MoveOut(interp.heap, was, i, slot.(obj := None), rest);
          interp.Decrement(slot.obj.value, CacheRefs(slots[..]) + rest);
        }
      }
      EmptyCache(slots[..]);
      assert [] + rest == rest;
    }
  }

  ghost predicate StringSlots(h: Heap, slots: seq<CacheSlot>) {
    forall k | 0 <= k < |slots| && slots[k].obj.Some? :: slots[k].obj.value < |h| && h[slots[k].obj.value].obj.OStr?
  }

  lemma SlotPut(h: Heap, slots: seq<CacheSlot>, i: nat, s: CacheSlot)
    requires StringSlots(h, slots) && i < |slots| && s.obj.Some? && s.obj.value < |h| && h[s.obj.value].obj.OStr?
    ensures StringSlots(h, slots[i := s])
  {}

  /** What the cache refers to stays alive, and so stays a string. */
  lemma SlotsEvolve(h: Heap, h': Heap, held: seq<Id>, slots: seq<CacheSlot>, before: seq<Id>, rest: seq<Id>, open: set<Id> := {})
    requires StringSlots(h, slots) && Evolves(h, h', open)
    requires forall x | x in open && x < |h| :: !h[x].obj.OStr?
    requires held == before + (CacheRefs(slots) + rest) && Balanced(h', held)
    ensures StringSlots(h', slots)
  {
    hide Balanced, Refs, CacheRefs;
    forall k | 0 <= k < |slots| && slots[k].obj.Some? ensures slots[k].obj.value < |h'| && h'[slots[k].obj.value].obj.OStr? {
      CacheHas(slots, k);
      HeldAlive(h', held, slots[k].obj.value);
    }
  }

  /** A slot is emptied: its reference comes out. */
  lemma MoveOut(h: Heap, slots: seq<CacheSlot>, i: nat, s: CacheSlot, rest: seq<Id>)
    requires i < |slots| && s.obj.None? && slots[i].obj.Some?
    requires Balanced(h, CacheRefs(slots) + rest)
    ensures Balanced(h, [slots[i].obj.value] + (CacheRefs(slots[i := s]) + rest))
  {
    hide Balanced, CacheRefs;
    var a, b := CacheRefs(slots) + rest, [slots[i].obj.value] + (CacheRefs(slots[i := s]) + rest);
    forall c ensures Count(a, c) == Count(b, c) {
      CacheRefsUpdate(slots, i, s, c);
      CountConcat(CacheRefs(slots), rest, c);
      CountConcat([slots[i].obj.value], CacheRefs(slots[i := s]) + rest, c);
      CountConcat(CacheRefs(slots[i := s]), rest, c);
    }
    HeldAnyOrder(h, a, b);
  }

  lemma {:induction false} EmptyCache(slots: seq<CacheSlot>)
    requires forall k | 0 <= k < |slots| :: slots[k].obj.None?
    ensures CacheRefs(slots) == []
  {
    if slots != [] { EmptyCache(slots[1..]); }
  }

  /** One reference moves into a slot, and the slot's old one comes out. */
  lemma MoveIn(h: Heap, slots: seq<CacheSlot>, i: nat, s: CacheSlot, o: Id, rest: seq<Id>)
    requires i < |slots| && s.obj == Some(o)
    requires Balanced(h, [o] + ([o] + (CacheRefs(slots) + rest)))
    ensures Balanced(h, SlotRefs(slots[i]) + ([o] + (CacheRefs(slots[i := s]) + rest)))
  {
    hide Balanced, CacheRefs, Count;
    var a, b := [o] + ([o] + (CacheRefs(slots) + rest)), SlotRefs(slots[i]) + ([o] + (CacheRefs(slots[i := s]) + rest));
    forall c ensures Count(a, c) == Count(b, c) {
      CacheRefsUpdate(slots, i, s, c);
      CountConcat([o], [o] + (CacheRefs(slots) + rest), c);
      CountConcat([o], CacheRefs(slots) + rest, c);
      CountConcat(CacheRefs(slots), rest, c);
      CountConcat(SlotRefs(slots[i]), [o] + (CacheRefs(slots[i := s]) + rest), c);
      CountConcat([o], CacheRefs(slots[i := s]) + rest, c);
      CountConcat(CacheRefs(slots[i := s]), rest, c);
    }
    HeldAnyOrder(h, a, b);
  }
}
