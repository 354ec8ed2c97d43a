/** Building Python values from the tape with an explicit stack (src/decode.rs, `build`). */
module Build {
  import opened Common
  import opened Utf8
  import opened Ledger
  import opened Tape
  import opened Stack
  import opened KeyCache
  import opened Frames
  import Loads
  import PyStr
  import Swar

  /** The slots of the cache, if there is one. */
  ghost function Slots(keys: Cache?): seq<CacheSlot>
    reads if keys == null then {} else {keys.slots}
  {
    if keys == null then [] else keys.slots[..]
  }

  /** What holds between any two steps, apart from the balance of references: `h0` is the ledger at the start. */
  ghost predicate Building(h0: Heap, h: Heap, slots: seq<CacheSlot>, stack: seq<Frame>, plans: seq<Plan>, busy: bool) {
    && StackOk(h, stack, plans, busy)
    && StringSlots(h, slots)
    && Tidy(h0, h)
    && forall k | 0 <= k < |stack| :: |h0| <= stack[k].obj
  }

  /** Everything that holds a reference: the stack, the cache, and the callers of `build`. */
  function Held(stack: seq<Frame>, slots: seq<CacheSlot>, base: seq<Id>): seq<Id> {
    StackRefs(stack) + (CacheRefs(slots) + base)
  }

  // ---- the tape and the plans ----------------------------------------------------------------------

  /** Between two values: what is left of the tape is what the plans still need, and gives the document's value. */
  ghost predicate Ahead(root: Tree, nodes: seq<Node>, i: nat, plans: seq<Plan>) {
    && i <= |nodes|
    && if plans == [] then i == 0
       else
         var p := plans[|plans| - 1];
         && TodoCount(p) > 0
         && nodes[i..] == Suffix(plans)
         && Meaning(root) == Resume(plans[..|plans| - 1], Total(p))
  }

  /** The next node starts the value `t`, for which the innermost container waits. */
  ghost predicate Facing(root: Tree, nodes: seq<Node>, i: nat, plans: seq<Plan>, t: Tree) {
    && i <= |nodes|
    && WellFormed(t)
    && nodes[i..] == TapeOf(t) + Suffix(plans)
    && Meaning(root) == Resume(plans, Meaning(t))
  }

  /** The value `v` has been read. */
  ghost predicate Having(root: Tree, nodes: seq<Node>, i: nat, plans: seq<Plan>, v: Value) {
    && i <= |nodes|
    && nodes[i..] == Suffix(plans)
    && Meaning(root) == Resume(plans, v)
  }

  lemma FaceRoot(root: Tree, nodes: seq<Node>)
    requires nodes == TapeOf(root) && WellFormed(root)
    ensures Facing(root, nodes, 0, [], root)
  {
    hide TapeOf, WellFormed, Meaning;
    assert TapeOf(root) + [] == TapeOf(root);
  }

  lemma FaceItem(root: Tree, nodes: seq<Node>, i: nat, plans: seq<Plan>, p: Plan)
    requires Ahead(root, nodes, i, plans + [p]) && p.PList? && TodoWellFormed(p)
    ensures p.todo != [] && Facing(root, nodes, i, plans + [PList(p.items, p.todo[1..])], p.todo[0])
  {
    hide TapeOf, WellFormed, Meaning, Suffix, Resume, Total;
    assert (plans + [p])[..|plans|] == plans;
    StartItem(plans, p.items, p.todo);
  }

  lemma FaceMember(root: Tree, nodes: seq<Node>, i: nat, plans: seq<Plan>, p: Plan)
    requires Ahead(root, nodes, i, plans + [p]) && p.PDict? && TodoWellFormed(p)
    ensures p.rest != [] && i < |nodes| && nodes[i] == TString(p.rest[0].key) && Decode(p.rest[0].key).Some?
    ensures Facing(root, nodes, i + 1, plans + [PDict(p.entries, Text(p.rest[0].key), p.rest[1..])], p.rest[0].value)
  {
    hide TapeOf, WellFormed, Meaning, Suffix, Resume, Total, Text, Decode;
    assert (plans + [p])[..|plans|] == plans;
    StartMember(plans, p.entries, p.key, p.rest);
    var m := p.rest[0];
    var after := TapeOf(m.value) + Suffix(plans + [PDict(p.entries, Text(m.key), p.rest[1..])]);
    assert nodes[i..] == [TString(m.key)] + after;
    assert nodes[i] == nodes[i..][0] && nodes[i + 1..] == nodes[i..][1..] == after;
    assert WellFormedMember(m);
  }

  /** The node that starts a value says what it is. */
  lemma FirstNode(root: Tree, nodes: seq<Node>, i: nat, plans: seq<Plan>, t: Tree)
    requires Facing(root, nodes, i, plans, t)
    ensures i < |nodes|
    ensures nodes[i] == match t case Leaf(n) => n case Items(items) => TArray(|items|) case Members(ms) => TObject(|ms|)
    ensures nodes[i + 1..] == TapeOf(t)[1..] + Suffix(plans)
    ensures t.Leaf? ==> Having(root, nodes, i + 1, plans, LeafValue(t.node)) && IsLeaf(t.node)
  {
    hide Suffix, Resume, ItemsTape, MembersTape, Text;
    assert nodes[i] == nodes[i..][0] && nodes[i + 1..] == nodes[i..][1..];
    if t.Leaf? {
      assert TapeOf(t)[1..] == [];
    }
  }

  /** What a leaf can be. */
  predicate IsLeaf(n: Node) {
    !n.TArray? && !n.TObject? && (n.TString? ==> Decode(n.s).Some?)
  }

  function Started(t: Tree): Plan
    requires !t.Leaf?
  {
    if t.Items? then PList([], t.items) else PDict([], [], t.members)
  }

  /** After the node of a container: an empty one is a value already, any other has its contents ahead. */
  lemma OpenedContainer(root: Tree, nodes: seq<Node>, i: nat, plans: seq<Plan>, t: Tree)
    requires Facing(root, nodes, i, plans, t) && !t.Leaf?
    ensures i < |nodes|
    ensures if TodoCount(Started(t)) == 0 then Having(root, nodes, i + 1, plans, Meaning(t))
            else Ahead(root, nodes, i + 1, plans + [Started(t)])
    ensures TodoWellFormed(Started(t))
    ensures TodoCount(Started(t)) == 0 ==> Meaning(t) == if t.Items? then VList([]) else VDict([])
  {
    hide Resume, TapeOf;
    var p := Started(t);
    FirstNode(root, nodes, i, plans, t);
    OpenContainer(plans, t);
    assert (plans + [p])[..|plans|] == plans;
    MembersWellFormed(t);
    if TodoCount(p) == 0 {
      assert TodoTape(p) == [];
      assert [] + Suffix(plans) == Suffix(plans);
    }
  }

  lemma MembersWellFormed(t: Tree)
    requires WellFormed(t)
    ensures !t.Leaf? ==> TodoWellFormed(Started(t))
  {}

  /** The value is put; the container either waits for more or is a value itself. */
  lemma ValuePut(root: Tree, nodes: seq<Node>, i: nat, plans: seq<Plan>, p: Plan, v: Value)
    requires Having(root, nodes, i, plans + [p], v)
    ensures if TodoCount(With(p, v)) == 0 then Having(root, nodes, i, plans, Total(With(p, v)))
            else Ahead(root, nodes, i, plans + [With(p, v)])
  {
    hide Total, Put, ItemsTape, MembersTape;
    var p' := With(p, v);
    assert (plans + [p])[..|plans|] == plans && (plans + [p'])[..|plans|] == plans;
    assert TodoTape(p') == TodoTape(p);
    if TodoCount(p') == 0 {
      NothingTodo(p');
      assert [] + Suffix(plans) == Suffix(plans);
    }
  }

  lemma NothingTodo(p: Plan)
    requires TodoCount(p) == 0
    ensures TodoTape(p) == []
  {}

  // ---- references --------------------------------------------------------------------------------------

  lemma Swap(h: Heap, before: seq<Id>, a: seq<Id>, b: seq<Id>, c: seq<Id>)
    requires Balanced(h, before + (a + (b + c)))
    ensures Balanced(h, before + (b + (a + c)))
  {
    hide Balanced, Count;
    forall x ensures Count(before + (a + (b + c)), x) == Count(before + (b + (a + c)), x) {
      CountConcat(before, a + (b + c), x);
      CountConcat(before, b + (a + c), x);
      CountConcat(a, b + c, x);
      CountConcat(b, c, x);
      CountConcat(b, a + c, x);
      CountConcat(a, c, x);
    }
    HeldAnyOrder(h, before + (a + (b + c)), before + (b + (a + c)));
  }

  lemma SwapFirst(h: Heap, a: seq<Id>, b: seq<Id>, c: seq<Id>)
    requires Balanced(h, a + (b + c))
    ensures Balanced(h, b + (a + c))
  {
    hide Balanced;
    assert [] + (a + (b + c)) == a + (b + c);
    assert [] + (b + (a + c)) == b + (a + c);
    Swap(h, [], a, b, c);
  }

  /** Whatever touches no open container leaves the builder as it was. */
  lemma Later(h0: Heap, h: Heap, h': Heap, slots: seq<CacheSlot>, slots': seq<CacheSlot>, stack: seq<Frame>, plans: seq<Plan>, busy: bool,
              before: seq<Id>, rest: seq<Id>)
    requires Building(h0, h, slots, stack, plans, busy) && Evolves(h, h', {})
    requires Balanced(h', before + (StackRefs(stack) + rest)) && StringSlots(h', slots')
    ensures Building(h0, h', slots', stack, plans, busy)
  {
    hide StackOk, StringSlots, Tidy, Balanced, StackRefs, Evolves;
    StackEvolves(h, h', before + (StackRefs(stack) + rest), stack, plans, busy, before, rest);
    TidyEvolves(h0, h, h');
  }

  lemma OpenAreContainers(h: Heap, stack: seq<Frame>, plans: seq<Plan>, busy: bool, x: Id)
    requires StackOk(h, stack, plans, busy) && x in Open(stack)
    ensures x < |h| && Container(h[x].obj)
  {
    hide ItemsRepr, PairsRepr, TodoWellFormed;
    var k :| 0 <= k < |stack| && stack[k].obj == x;
    assert FrameOk(h, stack[k], plans[k], Open(stack), k < |stack| - 1 || busy);
  }

  // ---- reading the next key ------------------------------------------------------------------------------

  lemma {:induction false} AsciiDecodes(s: seq<byte>, i: nat)
    requires Ascii(s) && i <= |s|
    ensures DecodeFrom(s, i) == Some(s[i..])
    decreases |s| - i
  {
    if i < |s| {
      AsciiDecodes(s, i + 1);
      assert s[i..] == [s[i]] + s[i + 1..];
    } else {
      assert s[i..] == [];
    }
  }

  /**
   * A new `str` with the text of `s` (`make_str`): its bytes where they are ASCII, and otherwise the
   * characters that were put in a string of the narrowest kind.
   */
  method MakeStr(interp: Interpreter, s: seq<byte>, ghost rest: seq<Id>) returns (r: Option<Id>)
    requires Balanced(interp.heap, rest) && Decode(s).Some?
    modifies interp
    ensures r.None? ==> interp.heap == old(interp.heap)
    ensures r.Some? ==> Balanced(interp.heap, [r.value] + rest) && IsKey(interp.heap, r.value, Text(s))
    ensures Evolves(old(interp.heap), interp.heap, {})
  {
    hide Balanced, Evolves, DecodeFrom, PyStr.Narrowest;
    var ascii := Swar.IsAscii(s);
    if ascii {
      AsciiDecodes(s, 0);
      assert s[0..] == s;
      r := interp.NewImmutable(OStr(AsciiText(s)), rest);
      return;
    }
    ghost var cps := Text(s);
    var _, units := PyStr.NewNonAscii(s, cps);
    assert units[..] == cps;
    r := interp.NewImmutable(OStr(units[..]), rest);
  }

  /** A string for a dict key, from the cache when that may hold it. */
  method MakeKey(interp: Interpreter, keys: Cache?, s: seq<byte>, ghost rest: seq<Id>) returns (r: Option<Id>)
    requires keys != null ==> keys.Valid()
    requires Decode(s).Some?
    requires Balanced(interp.heap, CacheRefs(Slots(keys)) + rest) && StringSlots(interp.heap, Slots(keys))
    modifies interp, if keys == null then {} else {keys.slots}
    ensures Evolves(old(interp.heap), interp.heap, {}) && StringSlots(interp.heap, Slots(keys))
    ensures r.None? ==> Balanced(interp.heap, CacheRefs(Slots(keys)) + rest)
    ensures r.Some? ==> Balanced(interp.heap, [r.value] + (CacheRefs(Slots(keys)) + rest)) && IsKey(interp.heap, r.value, Text(s))
  {
    hide Balanced, Evolves, StringSlots, DecodeFrom, CacheRefs;
    if |s| <= CACHE_MAX_KEY && keys != null {
      var ascii := Swar.IsAscii(s);
      if ascii {
        AsciiDecodes(s, 0);
        assert s[0..] == s;
        r := keys.Get(interp, s, rest);
        return;
      }
    }
    ghost var slots := Slots(keys);
    r := MakeStr(interp, s, CacheRefs(slots) + rest);
    if r.Some? {
      SlotsEvolve(old(interp.heap), interp.heap, [r.value] + (CacheRefs(slots) + rest), slots, [r.value], rest);
    }
  }

  /** The key of the next member goes into the frame of its dict. */
  lemma KeyTaken(h: Heap, stack: seq<Frame>, plans: seq<Plan>, f: Frame, p: Plan, key: Id, rest: seq<Id>)
    requires StackOk(h, stack + [f], plans + [p], false) && |stack| == |plans|
    requires p.PDict? && p.rest != [] && IsKey(h, key, Text(p.rest[0].key))
    requires Balanced(h, [key] + (StackRefs(stack + [f]) + rest))
    ensures StackOk(h, stack + [f.(key := Some(key))], plans + [PDict(p.entries, Text(p.rest[0].key), p.rest[1..])], true)
    ensures Balanced(h, StackRefs(stack + [f.(key := Some(key))]) + rest)
  {
    hide Balanced, StackRefs, Text, PairsRepr, WellFormedMember, Evolves;
    var f', p' := f.(key := Some(key)), PDict(p.entries, Text(p.rest[0].key), p.rest[1..]);
    StackParts(h, stack, f, plans, p, false);
    StackSplit(stack, f, rest);
    StackSplit(stack, f', rest);
    var held := StackRefs(stack + [f']) + rest;
    assert FrameRefs(f) == [f.obj] && FrameRefs(f') == [key] + [f.obj];
    assert [key] + ([f.obj] + (StackRefs(stack) + rest)) == ([key] + [f.obj]) + (StackRefs(stack) + rest);
    OpenSplit(stack, f);
    if key in Open(stack + [f]) {
      OpenAreContainers(h, stack + [f], plans + [p], false, key);
    }
    Unchanged(h, {f.obj});
    ChangeTop(h, h, held, stack, plans, f, p, false, f', p', true, FrameRefs(f'), rest);
  }

  lemma Unchanged(h: Heap, open: set<Id>)
    ensures Evolves(h, h, open)
  {}

  /** The next item of a list is started. */
  lemma ItemStarted(h: Heap, stack: seq<Frame>, plans: seq<Plan>, f: Frame, p: Plan, rest: seq<Id>)
    requires StackOk(h, stack + [f], plans + [p], false) && |stack| == |plans|
    requires p.PList? && p.todo != []
    requires Balanced(h, StackRefs(stack + [f]) + rest)
    ensures StackOk(h, stack + [f], plans + [PList(p.items, p.todo[1..])], true)
  {
    hide Balanced, StackRefs, ItemsRepr, WellFormed, Evolves;
    var p' := PList(p.items, p.todo[1..]);
    StackParts(h, stack, f, plans, p, false);
    StackSplit(stack, f, rest);
    Unchanged(h, {f.obj});
    ChangeTop(h, h, FrameRefs(f) + (StackRefs(stack) + rest), stack, plans, f, p, false, f, p', true, FrameRefs(f), rest);
  }

  lemma FrameKind(h: Heap, stack: seq<Frame>, plans: seq<Plan>, f: Frame, p: Plan, busy: bool)
    requires StackOk(h, stack + [f], plans + [p], busy) && |stack| == |plans|
    ensures f.isList <==> p.PList?
    ensures f.key.Some? <==> !f.isList && busy
    ensures f.len == f.filled + TodoCount(p) + (if busy then 1 else 0)
    ensures TodoWellFormed(p)
    ensures p.PDict? && busy ==> IsKey(h, f.key.value, p.key)
    ensures f.obj < |h| && if p.PList? then h[f.obj].obj.OList? else h[f.obj].obj.ODict?
    ensures p.PList? && busy ==>
              && |h[f.obj].obj.items| == f.len && h[f.obj].obj.items[f.filled].None?
  {
    hide ItemsRepr, PairsRepr, WellFormed, WellFormedMember;
    StackParts(h, stack, f, plans, p, busy);
  }

  /** In a dict, the next node is a key. */
  method ReadKey(interp: Interpreter, keys: Cache?, s: seq<byte>, stack: seq<Frame>, f: Frame,
                 ghost h0: Heap, ghost plans: seq<Plan>, ghost p: Plan, ghost base: seq<Id>) returns (r: Option<Id>)
    requires |stack| == |plans| && p.PDict? && p.rest != [] && p.rest[0].key == s && Decode(s).Some?
    requires keys != null ==> keys.Valid()
    requires Building(h0, interp.heap, Slots(keys), stack + [f], plans + [p], false)
    requires Balanced(interp.heap, Held(stack + [f], Slots(keys), base))
    modifies interp, if keys == null then {} else {keys.slots}
    ensures StringSlots(interp.heap, Slots(keys)) && Tidy(h0, interp.heap)
    ensures r.None? ==> Balanced(interp.heap, Held(stack + [f], Slots(keys), base))
    ensures r.Some? ==>
              && Building(h0, interp.heap, Slots(keys), stack + [f.(key := r)], plans + [PDict(p.entries, Text(s), p.rest[1..])], true)
              && Balanced(interp.heap, Held(stack + [f.(key := r)], Slots(keys), base))
  {
    hide Balanced, Evolves, StringSlots, Text, StackOk, Tidy, StackRefs, CacheRefs;
    ghost var h, slots, refs := interp.heap, Slots(keys), StackRefs(stack + [f]);
    SwapFirst(h, refs, CacheRefs(slots), base);
    r := MakeKey(interp, keys, s, refs + base);
    TidyEvolves(h0, h, interp.heap);
    if r.None? {
      SwapFirst(interp.heap, CacheRefs(Slots(keys)), refs, base);
      return;
    }
    Swap(interp.heap, [r.value], CacheRefs(Slots(keys)), refs, base);
    ghost var rest := CacheRefs(Slots(keys)) + base;
    StackEvolves(h, interp.heap, [r.value] + (refs + rest), stack + [f], plans + [p], false, [r.value], rest);
    KeyTaken(interp.heap, stack, plans, f, p, r.value, rest);
    SameObjects(stack, f, r, |h0|);
  }

  lemma SameObjects(stack: seq<Frame>, f: Frame, key: Option<Id>, n: nat)
    requires forall k | 0 <= k < |stack + [f]| :: n <= (stack + [f])[k].obj
    ensures forall k | 0 <= k < |stack + [f.(key := key)]| :: n <= (stack + [f.(key := key)])[k].obj
  {
    assert (stack + [f])[|stack|] == f;
    forall k | 0 <= k < |stack| ensures n <= stack[k].obj {
      assert (stack + [f])[k] == stack[k];
    }
  }

  // ---- reading the next value --------------------------------------------------------------------------------

  function LeafObject(n: Node): Obj
    requires IsLeaf(n)
  {
    match n
    case TString(s) => OStr(Text(s))
    case TBool(b) => OBool(b)
    case TI64(v) => OInt(v)
    case TU64(v) => OInt(v)
    case TF64(token) => OFloat(token)
    case TNull => ONone
  }

  /** A finished value outside any container: newer than every open one, if it is a container itself. */
  ghost predicate InHand(h: Heap, val: Id, v: Value, stack: seq<Frame>) {
    && Repr(h, val, v, Open(stack))
    && forall k | 0 <= k < |stack| && Container(h[val].obj) :: stack[k].obj < val
  }

  lemma LeafInHand(h: Heap, n: Node, val: Id, stack: seq<Frame>, plans: seq<Plan>, busy: bool)
    requires StackOk(h, stack, plans, busy) && IsLeaf(n)
    requires val < |h| && h[val].obj == LeafObject(n)
    ensures InHand(h, val, LeafValue(n), stack)
  {
    hide StackOk, Open;
    if val in Open(stack) {
      OpenAreContainers(h, stack, plans, busy, val);
    }
  }

  lemma EmptyInHand(h: Heap, o: Obj, stack: seq<Frame>, plans: seq<Plan>, busy: bool)
    requires StackOk(h, stack, plans, busy) && (o == OList([]) || o == ODict([]))
    ensures InHand(New(h, o), |h|, if o.OList? then VList([]) else VDict([]), stack)
  {
    hide FrameOk;
    forall k | 0 <= k < |stack| ensures stack[k].obj < |h| {
      FrameInHeap(h, stack[k], plans[k], Open(stack), k < |stack| - 1 || busy);
    }
  }

  method MakeLeaf(interp: Interpreter, n: Node, ghost rest: seq<Id>) returns (r: Option<Id>)
    requires Balanced(interp.heap, rest) && IsLeaf(n)
    modifies interp
    ensures r.None? ==> interp.heap == old(interp.heap)
    ensures r.Some? ==>
              && Balanced(interp.heap, [r.value] + rest)
              && r.value < |interp.heap| && interp.heap[r.value].obj == LeafObject(n)
    ensures Evolves(old(interp.heap), interp.heap, {})
  {
    hide Balanced, Evolves, Text;
    match n
    case TString(s) =>
      r := MakeStr(interp, s, rest);
    case TNull =>
      var o := interp.Shared(ONone, rest);
      r := Some(o);
    case TBool(b) =>
      var o := interp.Shared(OBool(b), rest);
      r := Some(o);
    case TI64(v) =>
      r := interp.NewImmutable(OInt(v), rest);
    case TU64(v) =>
      r := interp.NewImmutable(OInt(v), rest);
    case TF64(token) =>
      r := interp.NewImmutable(OFloat(token), rest);
  }

  function EmptyContainer(isList: bool, len: nat): Obj {
    if isList then OList(seq(len, _ => None)) else ODict([])
  }

  method MakeContainer(interp: Interpreter, isList: bool, len: nat, ghost rest: seq<Id>) returns (r: Option<Id>)
    requires Balanced(interp.heap, rest)
    modifies interp
    ensures r.None? ==> interp.heap == old(interp.heap)
    ensures r.Some? ==>
              && r.value == |old(interp.heap)| && interp.heap == New(old(interp.heap), EmptyContainer(isList, len))
              && Balanced(interp.heap, [r.value] + rest)
  {
    hide Balanced;
    if isList {
      r := interp.NewList(len, rest);
    } else {
      r := interp.NewDict(rest);
    }
  }

  lemma EmptyRefs(isList: bool, len: nat)
    ensures Refs(EmptyContainer(isList, len)) == []
  {
    NoItemRefs(len);
  }

  /** A new container with everything yet to come. */
  lemma NewFrame(h: Heap, t: Tree, open: set<Id>)
    requires !t.Leaf? && TodoWellFormed(Started(t))
    ensures var h' := New(h, EmptyContainer(t.Items?, TodoCount(Started(t))));
            FrameOk(h', Frame(|h|, t.Items?, 0, TodoCount(Started(t)), None), Started(t), open, false)
  {
    hide WellFormed, WellFormedMember;
  }

  datatype Turn = Failed | Opened | Got(val: Id)

  /** One node that starts a value: a leaf or an empty container is one, any other container goes on the stack. */
  method ReadValue(interp: Interpreter, n: Node, stack: seq<Frame>,
                   ghost h0: Heap, ghost slots: seq<CacheSlot>, ghost base: seq<Id>, ghost plans: seq<Plan>,
                   ghost root: Tree, ghost nodes: seq<Node>, ghost i: nat, ghost t: Tree)
    returns (turn: Turn, stack': seq<Frame>, ghost plans': seq<Plan>, ghost v: Value)
    requires Building(h0, interp.heap, slots, stack, plans, true) && Balanced(interp.heap, Held(stack, slots, base))
    requires Facing(root, nodes, i, plans, t) && i < |nodes| && n == nodes[i]
    modifies interp
    ensures turn.Failed? ==>
              && stack' == stack && Balanced(interp.heap, Held(stack, slots, base))
              && StringSlots(interp.heap, slots) && Tidy(h0, interp.heap)
    ensures turn.Opened? ==>
              && Building(h0, interp.heap, slots, stack', plans', false) && Balanced(interp.heap, Held(stack', slots, base))
              && Ahead(root, nodes, i + 1, plans')
    ensures turn.Got? ==>
              && stack' == stack && plans' == plans
              && Building(h0, interp.heap, slots, stack, plans, true)
              && Balanced(interp.heap, [turn.val] + Held(stack, slots, base))
              && InHand(interp.heap, turn.val, v, stack) && Having(root, nodes, i + 1, plans, v)
  {
    hide Balanced, Evolves, StringSlots, StackOk, Tidy, StackRefs, CacheRefs, Facing, Having, Ahead, InHand, WellFormed, Meaning;
    FirstNode(root, nodes, i, plans, t);
    stack', plans', v := stack, plans, VNone;
    ghost var h := interp.heap;
    if n.TArray? || n.TObject? {
      turn, stack', plans', v := ReadContainer(interp, n.TArray?, n.len, stack, h0, slots, base, plans, root, nodes, i, t);
    } else {
      v := LeafValue(n);
      var r := MakeLeaf(interp, n, Held(stack, slots, base));
      if r.None? {
        return Failed, stack, plans, v;
      }
      turn := Got(r.value);
      SlotsStay(h0, h, interp.heap, slots, stack, base, [r.value]);
      Later(h0, h, interp.heap, slots, slots, stack, plans, true, [r.value], CacheRefs(slots) + base);
      LeafInHand(interp.heap, n, r.value, stack, plans, true);
    }
  }

  /** The cached strings stay while what holds them does. */
  lemma SlotsStay(h0: Heap, h: Heap, h': Heap, slots: seq<CacheSlot>, stack: seq<Frame>, base: seq<Id>, before: seq<Id>)
    requires StringSlots(h, slots) && Tidy(h0, h) && Evolves(h, h', {}) && Balanced(h', before + Held(stack, slots, base))
    ensures StringSlots(h', slots) && Tidy(h0, h')
  {
    hide Balanced, Evolves, StringSlots, Tidy, StackRefs, CacheRefs;
    assert before + (StackRefs(stack) + (CacheRefs(slots) + base)) == (before + StackRefs(stack)) + (CacheRefs(slots) + base);
    SlotsEvolve(h, h', before + Held(stack, slots, base), slots, before + StackRefs(stack), base);
    TidyEvolves(h0, h, h');
  }

  lemma NewEvolves(h: Heap, o: Obj)
    requires Refs(o) == []
    ensures Evolves(h, New(h, o), {})
  {}

  method ReadContainer(interp: Interpreter, isList: bool, len: nat, stack: seq<Frame>,
                       ghost h0: Heap, ghost slots: seq<CacheSlot>, ghost base: seq<Id>, ghost plans: seq<Plan>,
                       ghost root: Tree, ghost nodes: seq<Node>, ghost i: nat, ghost t: Tree)
    returns (turn: Turn, stack': seq<Frame>, ghost plans': seq<Plan>, ghost v: Value)
    requires Building(h0, interp.heap, slots, stack, plans, true) && Balanced(interp.heap, Held(stack, slots, base))
    requires Facing(root, nodes, i, plans, t) && !t.Leaf? && isList == t.Items? && len == TodoCount(Started(t))
    modifies interp
    ensures turn.Failed? ==>
              && stack' == stack && Balanced(interp.heap, Held(stack, slots, base))
              && StringSlots(interp.heap, slots) && Tidy(h0, interp.heap)
    ensures turn.Opened? ==>
              && Building(h0, interp.heap, slots, stack', plans', false) && Balanced(interp.heap, Held(stack', slots, base))
              && Ahead(root, nodes, i + 1, plans')
    ensures turn.Got? ==>
              && stack' == stack && plans' == plans
              && Building(h0, interp.heap, slots, stack, plans, true)
              && Balanced(interp.heap, [turn.val] + Held(stack, slots, base))
              && InHand(interp.heap, turn.val, v, stack) && Having(root, nodes, i + 1, plans, v)
  {
    hide Balanced, Evolves, StringSlots, StackOk, Tidy, StackRefs, CacheRefs, Facing, Having, Ahead, InHand, WellFormed, Meaning, FrameOk, Refs;
    stack', plans', v := stack, plans, Meaning(t);
    ghost var h := interp.heap;
    var r := MakeContainer(interp, isList, len, Held(stack, slots, base));
    if r.None? {
      return Failed, stack, plans, v;
    }
    var o := r.value;
    OpenedContainer(root, nodes, i, plans, t);
    EmptyRefs(isList, len);
    NewEvolves(h, EmptyContainer(isList, len));
    SlotsStay(h0, h, interp.heap, slots, stack, base, [o]);
    if len > 0 {
      var f := Frame(o, isList, 0, len, None);
      NewFrame(h, t, Open(stack) + {o});
      PushFrame(h, interp.heap, stack, plans, f, Started(t), CacheRefs(slots) + base);
      AlsoNew(stack, f, |h0|, h0, h);
      turn, stack', plans' := Opened, stack + [f], plans + [Started(t)];
    } else {
      turn := Got(o);
      Later(h0, h, interp.heap, slots, slots, stack, plans, true, [o], CacheRefs(slots) + base);
      assert isList ==> EmptyContainer(isList, 0) == OList([]);
      EmptyInHand(h, EmptyContainer(isList, 0), stack, plans, true);
    }
  }

  lemma AlsoNew(stack: seq<Frame>, f: Frame, n: nat, h0: Heap, h: Heap)
    requires f.obj == |h| && n == |h0| && Tidy(h0, h)
    requires forall k | 0 <= k < |stack| :: n <= stack[k].obj
    ensures forall k | 0 <= k < |stack + [f]| :: n <= (stack + [f])[k].obj
  {}

  // ---- putting a value into its container ------------------------------------------------------------------------

  /** A list takes over the item; the frame counts it. */
  method PutItem(interp: Interpreter, val: Id, stack: seq<Frame>, f: Frame,
                 ghost h0: Heap, ghost slots: seq<CacheSlot>, ghost base: seq<Id>, ghost plans: seq<Plan>, ghost p: Plan, ghost v: Value)
    requires |stack| == |plans| && f.isList
    requires Building(h0, interp.heap, slots, stack + [f], plans + [p], true)
    requires Balanced(interp.heap, [val] + Held(stack + [f], slots, base)) && InHand(interp.heap, val, v, stack + [f])
    modifies interp
    ensures Building(h0, interp.heap, slots, stack + [f.(filled := f.filled + 1)], plans + [With(p, v)], false)
    ensures Balanced(interp.heap, Held(stack + [f.(filled := f.filled + 1)], slots, base))
  {
    hide Balanced, Evolves, StringSlots, StackOk, Tidy, StackRefs, CacheRefs, FrameOk, Repr;
    ghost var h, f' := interp.heap, f.(filled := f.filled + 1);
    ghost var rest := CacheRefs(slots) + base;
    FrameKind(h, stack, plans, f, p, true);
    StackParts(h, stack, f, plans, p, true);
    OpenSplit(stack, f);
    InHandTop(h, val, v, stack, f, |h0|);
    interp.ListSetItem(f.obj, f.filled, val, Held(stack + [f], slots, base));
    ItemTidy(h0, h, f.obj, f.filled, val);
    StackSplit(stack, f, rest);
    StackSplit(stack, f', rest);
    ItemPut(h, Held(stack + [f], slots, base), f, p, val, v, Open(stack) + {f.obj});
    ChangeTop(h, interp.heap, Held(stack + [f], slots, base), stack, plans, f, p, true, f', With(p, v), false, FrameRefs(f), rest);
    SlotsEvolve(h, interp.heap, Held(stack + [f], slots, base), slots, StackRefs(stack + [f]), base, {f.obj});
    SameTop(stack, f, f', |h0|);
  }

  lemma InHandTop(h: Heap, val: Id, v: Value, stack: seq<Frame>, f: Frame, n: nat)
    requires InHand(h, val, v, stack + [f])
    requires forall k | 0 <= k < |stack + [f]| :: n <= (stack + [f])[k].obj
    ensures Repr(h, val, v, Open(stack + [f])) && val < |h| && (Container(h[val].obj) ==> f.obj < val) && n <= f.obj
  {
    assert (stack + [f])[|stack|] == f;
  }

  lemma SameTop(stack: seq<Frame>, f: Frame, f': Frame, n: nat)
    requires f'.obj == f.obj && forall k | 0 <= k < |stack + [f]| :: n <= (stack + [f])[k].obj
    ensures forall k | 0 <= k < |stack + [f']| :: n <= (stack + [f'])[k].obj
  {
    assert (stack + [f])[|stack|] == f;
    forall k | 0 <= k < |stack| ensures n <= stack[k].obj {
      assert (stack + [f])[k] == stack[k];
    }
  }

  lemma EvolvesThenShrinks(h: Heap, h1: Heap, h2: Heap, open: set<Id>)
    requires Evolves(h, h1, open) && |h1| == |h| && Shrunk(h1, h2)
    ensures Evolves(h, h2, open) && |h2| == |h|
  {}

  lemma ShrunkEvolves(h: Heap, h': Heap)
    requires Shrunk(h, h')
    ensures Evolves(h, h', {})
  {}

  /** A held object keeps what it holds while references to others are given back. */
  lemma ShrunkKeeps(h: Heap, h': Heap, held: seq<Id>, id: Id)
    requires Shrunk(h, h') && Balanced(h', held) && id in held
    ensures id < |h| && h'[id].obj == h[id].obj
  {
    hide Balanced;
    HeldAlive(h', held, id);
  }

  /** Puts a pair into a dict, and gives back the references to its value and its key. */
  method GiveToDict(interp: Interpreter, d: Id, key: Id, val: Id, ghost left: seq<Id>, ghost h0: Heap) returns (ok: bool)
    requires Balanced(interp.heap, [val] + ([key] + left)) && d in left && d < |interp.heap|
    requires interp.heap[d].obj.ODict? && Tidy(h0, interp.heap) && |h0| <= d
    requires key < |interp.heap| && interp.heap[key].obj.OStr?
    requires val < |interp.heap| && (Container(interp.heap[val].obj) ==> d < val)
    modifies interp
    ensures Balanced(interp.heap, left) && Tidy(h0, interp.heap)
    ensures Evolves(old(interp.heap), interp.heap, {d}) && |interp.heap| == |old(interp.heap)|
    ensures ok ==>
              var pairs := old(interp.heap)[d].obj.pairs;
              interp.heap[d].obj == ODict(PairsWith(pairs, FindPair(old(interp.heap), pairs, key), key, val))
  {
    hide Balanced, Evolves, Tidy, FindPair, PairsWith, Shrunk;
    ghost var h, held := interp.heap, [key] + left;
    HeldAlive(h, [val] + held, val);
    HeldAlive(h, [val] + held, key);
    ok := interp.DictSetItem(d, key, val, [val] + held);
    ghost var h1 := interp.heap;
    interp.Decrement(val, held);
    ghost var h2 := interp.heap;
    interp.Decrement(key, left);
    MemberEvolves(h0, h, h1, h2, interp.heap, ok, d, key, val);
    if ok {
      ShrunkKeeps(h1, h2, held, d);
      ShrunkKeeps(h2, interp.heap, left, d);
    }
  }

  /** A dict takes its own references, so those to value and key are given back, whether or not it could take them. */
  method PutMember(interp: Interpreter, val: Id, stack: seq<Frame>, f: Frame,
                   ghost h0: Heap, ghost slots: seq<CacheSlot>, ghost base: seq<Id>, ghost plans: seq<Plan>, ghost p: Plan, ghost v: Value)
    returns (ok: bool)
    requires |stack| == |plans| && !f.isList && f.key.Some?
    requires Building(h0, interp.heap, slots, stack + [f], plans + [p], true)
    requires Balanced(interp.heap, [val] + Held(stack + [f], slots, base)) && InHand(interp.heap, val, v, stack + [f])
    modifies interp
    ensures Balanced(interp.heap, Held(stack + [f.(key := None)], slots, base))
    ensures Tidy(h0, interp.heap) && StringSlots(interp.heap, slots)
    ensures ok ==> Building(h0, interp.heap, slots, stack + [f.(filled := f.filled + 1, key := None)], plans + [With(p, v)], false)
  {
    hide Balanced, Evolves, StringSlots, StackOk, Tidy, StackRefs, CacheRefs, FrameOk, Repr, FindPair, PairsWith, Shrunk, InHand, With;
    var key := f.key.value;
    ghost var h, rest := interp.heap, CacheRefs(slots) + base;
    ghost var held := Held(stack + [f], slots, base);
    ghost var left := [f.obj] + (StackRefs(stack) + rest);
    FrameKind(h, stack, plans, f, p, true);
    StackSplit(stack, f, rest);
    StackSplit(stack, f.(key := None), rest);
    InHandTop(h, val, v, stack, f, |h0|);
    assert FrameRefs(f.(key := None)) == [f.obj];
    assert held == [key] + left by {
      assert FrameRefs(f) == [key] + [f.obj];
      assert ([key] + [f.obj]) + (StackRefs(stack) + rest) == [key] + ([f.obj] + (StackRefs(stack) + rest));
    }
    ok := GiveToDict(interp, f.obj, key, val, left, h0);
    LeftStrings(h, interp.heap, slots, f.obj, stack, base);
    if ok {
      MemberSettled(h, interp.heap, stack, f, plans, p, val, v, rest);
      SameTop(stack, f, f.(filled := f.filled + 1, key := None), |h0|);
    }
  }

  /** The stack once the dict has the member. */
  lemma MemberSettled(h: Heap, h': Heap, stack: seq<Frame>, f: Frame, plans: seq<Plan>, p: Plan, val: Id, v: Value, rest: seq<Id>)
    requires StackOk(h, stack + [f], plans + [p], true) && |stack| == |plans| && p.PDict? && f.key.Some?
    requires f.obj < |h| && h[f.obj].obj.ODict? && f.key.value < |h|
    requires Repr(h, val, v, Open(stack + [f])) && Evolves(h, h', {f.obj}) && |h'| == |h|
    requires h'[f.obj].obj == ODict(PairsWith(h[f.obj].obj.pairs, FindPair(h, h[f.obj].obj.pairs, f.key.value), f.key.value, val))
    requires Balanced(h', [f.obj] + (StackRefs(stack) + rest))
    ensures StackOk(h', stack + [f.(filled := f.filled + 1, key := None)], plans + [With(p, v)], false)
  {
    hide Balanced, Evolves, StackOk, StackRefs, FrameOk, Repr, FindPair, PairsWith;
    var left, f' := [f.obj] + (StackRefs(stack) + rest), f.(filled := f.filled + 1, key := None);
    StackParts(h, stack, f, plans, p, true);
    OpenSplit(stack, f);
    MemberPut(h, h', left, f, p, val, v, Open(stack) + {f.obj});
    ChangeTop(h, h', left, stack, plans, f, p, true, f', With(p, v), false, [f.obj], rest);
  }

  lemma SameRefs(stack: seq<Frame>, f: Frame, f': Frame)
    requires f.obj == f'.obj && f.key == f'.key
    ensures StackRefs(stack + [f]) == StackRefs(stack + [f'])
  {
    assert (stack + [f])[..|stack|] == stack && (stack + [f'])[..|stack|] == stack;
  }

  lemma LeftStrings(h: Heap, h': Heap, slots: seq<CacheSlot>, d: Id, stack: seq<Frame>, base: seq<Id>)
    requires StringSlots(h, slots) && Evolves(h, h', {d}) && d < |h| && h[d].obj.ODict?
    requires Balanced(h', [d] + (StackRefs(stack) + (CacheRefs(slots) + base)))
    ensures StringSlots(h', slots)
  {
    hide Balanced, Evolves, StringSlots, StackRefs, CacheRefs;
    var rest := CacheRefs(slots) + base;
    assert [d] + (StackRefs(stack) + rest) == ([d] + StackRefs(stack)) + rest;
    SlotsEvolve(h, h', [d] + (StackRefs(stack) + rest), slots, [d] + StackRefs(stack), base, {d});
  }

  /** The three calls together: only the dict changes. */
  lemma MemberEvolves(h0: Heap, h: Heap, h1: Heap, h2: Heap, h3: Heap, ok: bool, d: Id, key: Id, val: Id)
    requires Tidy(h0, h) && |h0| <= d < |h| && h[d].obj.ODict?
    requires key < |h| && h[key].obj.OStr? && val < |h| && (Container(h[val].obj) ==> d < val)
    requires Evolves(h, h1, {d}) && |h1| == |h|
    requires if ok then h1[d].obj == ODict(PairsWith(h[d].obj.pairs, FindPair(h, h[d].obj.pairs, key), key, val)) else h1 == h
    requires Shrunk(h1, h2) && Shrunk(h2, h3)
    ensures Tidy(h0, h3) && Evolves(h, h3, {d}) && |h3| == |h|
  {
    hide Tidy, Evolves, Shrunk, PairsWith;
    if ok {
      MemberTidy(h0, h, h1, d, FindPair(h, h[d].obj.pairs, key), key, val);
    }
    EvolvesThenShrinks(h, h1, h2, {d});
    EvolvesThenShrinks(h, h2, h3, {d});
    ShrunkEvolves(h1, h2);
    ShrunkEvolves(h2, h3);
    TidyEvolves(h0, h1, h2);
    TidyEvolves(h0, h2, h3);
  }

  datatype Settled = Done(val: Id) | More | Broken

  /** Puts a finished value into its parent, and closes every container that this completes. */
  method Settle(interp: Interpreter, val0: Id, stack0: seq<Frame>,
                ghost h0: Heap, ghost slots: seq<CacheSlot>, ghost base: seq<Id>, ghost plans0: seq<Plan>,
                ghost root: Tree, ghost nodes: seq<Node>, ghost i: nat, ghost v0: Value)
    returns (out: Settled, stack: seq<Frame>, ghost plans: seq<Plan>)
    requires Building(h0, interp.heap, slots, stack0, plans0, true)
    requires Balanced(interp.heap, [val0] + Held(stack0, slots, base)) && InHand(interp.heap, val0, v0, stack0)
    requires Having(root, nodes, i, plans0, v0)
    modifies interp
    ensures StringSlots(interp.heap, slots) && Tidy(h0, interp.heap)
    ensures out.Done? ==>
              && Balanced(interp.heap, [out.val] + (CacheRefs(slots) + base))
              && Repr(interp.heap, out.val, Meaning(root), {}) && i == |nodes|
    ensures out.More? ==>
              && Building(h0, interp.heap, slots, stack, plans, false)
              && Balanced(interp.heap, Held(stack, slots, base)) && Ahead(root, nodes, i, plans)
    ensures out.Broken? ==> Balanced(interp.heap, Held(stack, slots, base))
  {
    hide Balanced, StringSlots, StackOk, Tidy, StackRefs, CacheRefs, FrameOk, Repr, InHand, Having, Ahead, With, TodoCount;
    var val := val0;
    stack, plans := stack0, plans0;
    ghost var v := v0;
    while true
      invariant Building(h0, interp.heap, slots, stack, plans, true)
      invariant Balanced(interp.heap, [val] + Held(stack, slots, base)) && InHand(interp.heap, val, v, stack)
      invariant Having(root, nodes, i, plans, v)
      decreases |stack|
    {
      SameLength(interp.heap, stack, plans, true);
      if |stack| == 0 {
        Finished(interp.heap, val, v, root, nodes, i, slots, base);
        return Done(val), stack, plans;
      }
      var top, below := stack[|stack| - 1], stack[..|stack| - 1];
      ghost var p, lower := plans[|plans| - 1], plans[..|plans| - 1];
      assert stack == below + [top] && plans == lower + [p];
      FrameKind(interp.heap, below, lower, top, p, true);
      if top.isList {
        PutItem(interp, val, below, top, h0, slots, base, lower, p, v);
      } else {
        var ok := PutMember(interp, val, below, top, h0, slots, base, lower, p, v);
        if !ok {
          return Broken, below + [top.(key := None)], plans;
        }
        SameRefs(below, top.(key := None), top.(filled := top.filled + 1, key := None));
        top := top.(key := None);
      }
      top := top.(filled := top.filled + 1);
      ValuePut(root, nodes, i, lower, p, v);
      stack, plans := below + [top], lower + [With(p, v)];
      FrameKind(interp.heap, below, lower, top, With(p, v), false);
      if top.filled < top.len {
        return More, stack, plans;
      }
      Closed(h0, interp.heap, slots, below, lower, top, With(p, v), base);
      val, v := top.obj, Total(With(p, v));
      stack, plans := below, lower;
    }
  }

  lemma SameLength(h: Heap, stack: seq<Frame>, plans: seq<Plan>, busy: bool)
    requires StackOk(h, stack, plans, busy)
    ensures |stack| == |plans|
  {}

  /** With no container open, the value is the document's, and the whole tape has been read. */
  lemma Finished(h: Heap, val: Id, v: Value, root: Tree, nodes: seq<Node>, i: nat, slots: seq<CacheSlot>, base: seq<Id>)
    requires InHand(h, val, v, []) && Having(root, nodes, i, [], v)
    ensures Repr(h, val, Meaning(root), {}) && i == |nodes|
    ensures Held([], slots, base) == CacheRefs(slots) + base
  {
    hide Repr, Meaning, CacheRefs;
    assert Open([]) == {};
    assert nodes[i..] == [];
    assert [] + (CacheRefs(slots) + base) == CacheRefs(slots) + base;
  }

  /** A container that is complete leaves the stack and is in hand. */
  lemma Closed(h0: Heap, h: Heap, slots: seq<CacheSlot>, stack: seq<Frame>, plans: seq<Plan>, f: Frame, p: Plan, base: seq<Id>)
    requires Building(h0, h, slots, stack + [f], plans + [p], false) && |stack| == |plans|
    requires Balanced(h, Held(stack + [f], slots, base)) && f.filled == f.len && f.key.None?
    ensures Building(h0, h, slots, stack, plans, true)
    ensures Balanced(h, [f.obj] + Held(stack, slots, base)) && InHand(h, f.obj, Total(p), stack)
  {
    hide Balanced, StringSlots, StackOk, Tidy, StackRefs, CacheRefs, FrameOk, Repr, Total;
    StackParts(h, stack, f, plans, p, false);
    PopFrame(h, stack, plans, f, p, CacheRefs(slots) + base);
    FinishedValue(h, stack, f, p);
    forall k | 0 <= k < |stack| ensures |h0| <= stack[k].obj {
      assert (stack + [f])[k] == stack[k];
    }
  }

  // ---- the builder -----------------------------------------------------------------------------------------------

  /** The outermost frame's references. */
  lemma {:induction false} BottomRefs(f: Frame, stack: seq<Frame>)
    ensures StackRefs([f] + stack) == StackRefs(stack) + FrameRefs(f)
  {
    var s := [f] + stack;
    if stack == [] {
      assert s[..0] == [];
      assert FrameRefs(f) + [] == [] + FrameRefs(f);
    } else {
      var top := stack[|stack| - 1];
      assert s[..|s| - 1] == [f] + stack[..|stack| - 1];
      BottomRefs(f, stack[..|stack| - 1]);
      assert FrameRefs(top) + (StackRefs(stack[..|stack| - 1]) + FrameRefs(f)) == (FrameRefs(top) + StackRefs(stack[..|stack| - 1])) + FrameRefs(f);
    }
  }

  lemma DropNext(h: Heap, f: Frame, stack: seq<Frame>, rest: seq<Id>)
    requires Balanced(h, StackRefs([f] + stack) + rest)
    ensures Balanced(h, FrameRefs(f) + (StackRefs(stack) + rest))
  {
    hide Balanced, StackRefs, FrameRefs;
    BottomRefs(f, stack);
    assert (StackRefs(stack) + FrameRefs(f)) + rest == StackRefs(stack) + (FrameRefs(f) + rest);
    SwapFirst(h, StackRefs(stack), FrameRefs(f), rest);
  }

  /** The ledger once the stack is dropped: outermost frame first, and of each frame the waiting key first. */
  function Dropped(h: Heap, stack: seq<Frame>): Heap
    decreases |stack|
  {
    if stack == [] then h else Dropped(DroppedFrame(h, stack[0]), stack[1..])
  }

  function DroppedFrame(h: Heap, f: Frame): Heap {
    Release(if f.key.Some? then Release(h, [f.key.value]) else h, [f.obj])
  }

  lemma DroppedNext(h0: Heap, h: Heap, stack: seq<Frame>, k: nat)
    requires k < |stack| && Dropped(h0, stack) == Dropped(h, stack[k..])
    ensures Dropped(h0, stack) == Dropped(DroppedFrame(h, stack[k]), stack[k + 1..])
  {
    hide DroppedFrame;
    assert stack[k..][1..] == stack[k + 1..];
  }

  /** Gives back every partial container, outermost first, and with each the key that was waiting. */
  method DropFrames(interp: Interpreter, stack: seq<Frame>, ghost h0: Heap, ghost slots: seq<CacheSlot>, ghost base: seq<Id>)
    requires Balanced(interp.heap, Held(stack, slots, base)) && StringSlots(interp.heap, slots) && Tidy(h0, interp.heap)
    modifies interp
    ensures Balanced(interp.heap, CacheRefs(slots) + base) && StringSlots(interp.heap, slots) && Tidy(h0, interp.heap)
    ensures interp.heap == Dropped(old(interp.heap), stack)
  {
    hide Balanced, StringSlots, Tidy, CacheRefs, StackRefs, Shrunk, Evolves, DroppedFrame, Dropped;
    ghost var before := interp.heap;
    assert stack[0..] == stack;
    var k := 0;
    while k < |stack|
      invariant k <= |stack| && Balanced(interp.heap, Held(stack[k..], slots, base))
      invariant StringSlots(interp.heap, slots) && Tidy(h0, interp.heap)
      invariant Dropped(before, stack) == Dropped(interp.heap, stack[k..])
    {
      assert stack[k..] == [stack[k]] + stack[k + 1..];
      DroppedNext(before, interp.heap, stack, k);
      DropFrame(interp, stack[k], stack[k + 1..], h0, slots, base);
      k := k + 1;
    }
    assert stack[|stack|..] == [];
    NoFrames(slots, base);
    DroppedAll(interp.heap);
  }

  lemma DroppedAll(h: Heap)
    ensures Dropped(h, []) == h
  {}

  lemma NoFrames(slots: seq<CacheSlot>, base: seq<Id>)
    ensures Held([], slots, base) == CacheRefs(slots) + base
  {
    assert [] + (CacheRefs(slots) + base) == CacheRefs(slots) + base;
  }

  method DropFrame(interp: Interpreter, f: Frame, ghost stack: seq<Frame>, ghost h0: Heap, ghost slots: seq<CacheSlot>, ghost base: seq<Id>)
    requires Balanced(interp.heap, Held([f] + stack, slots, base)) && StringSlots(interp.heap, slots) && Tidy(h0, interp.heap)
    modifies interp
    ensures Balanced(interp.heap, Held(stack, slots, base)) && StringSlots(interp.heap, slots) && Tidy(h0, interp.heap)
    ensures interp.heap == DroppedFrame(old(interp.heap), f)
  {
    hide Balanced, StringSlots, Tidy, CacheRefs, StackRefs, Shrunk, Evolves, Release;
    ghost var rest := Held(stack, slots, base);
    DropNext(interp.heap, f, stack, CacheRefs(slots) + base);
    assert [] + rest == rest;
    if f.key.Some? {
      assert ([f.key.value] + [f.obj]) + rest == [f.key.value] + ([f.obj] + rest);
      ghost var h := interp.heap;
      interp.Decrement(f.key.value, [f.obj] + rest);
      ShrunkEvolves(h, interp.heap);
      SlotsStay(h0, h, interp.heap, slots, stack, base, [f.obj]);
    } else {
      assert [] + [f.obj] == [f.obj];
    }
    ghost var h := interp.heap;
    interp.Decrement(f.obj, rest);
    ShrunkEvolves(h, interp.heap);
    SlotsStay(h0, h, interp.heap, slots, stack, base, []);
  }

  /** Where the next value starts: in a dict, after its key. */
  method Head(interp: Interpreter, keys: Cache?, nodes: seq<Node>, i: nat, stack: seq<Frame>,
              ghost h0: Heap, ghost base: seq<Id>, ghost plans: seq<Plan>, ghost root: Tree)
    returns (ok: bool, i': nat, stack': seq<Frame>, ghost plans': seq<Plan>, ghost t: Tree)
    requires nodes == TapeOf(root) && WellFormed(root)
    requires keys != null ==> keys.Valid()
    requires Building(h0, interp.heap, Slots(keys), stack, plans, false) && Ahead(root, nodes, i, plans)
    requires Balanced(interp.heap, Held(stack, Slots(keys), base))
    modifies interp, if keys == null then {} else {keys.slots}
    ensures StringSlots(interp.heap, Slots(keys)) && Tidy(h0, interp.heap)
    ensures Balanced(interp.heap, Held(stack', Slots(keys), base))
    ensures ok ==> Building(h0, interp.heap, Slots(keys), stack', plans', true)
    ensures ok ==> i <= i' && Facing(root, nodes, i', plans', t)
  {
    hide Balanced, StringSlots, StackOk, Tidy, StackRefs, CacheRefs, FrameOk, Facing, Ahead, WellFormed, TapeOf;
    ok, i', stack', plans', t := true, i, stack, plans, root;
    SameLength(interp.heap, stack, plans, false);
    if |stack| == 0 {
      AtStart(root, nodes, i);
      NotWaiting(h0, interp.heap, Slots(keys));
      return;
    }
    var top, below := stack[|stack| - 1], stack[..|stack| - 1];
    ghost var p, lower := plans[|plans| - 1], plans[..|plans| - 1];
    assert stack == below + [top] && plans == lower + [p];
    FrameKind(interp.heap, below, lower, top, p, false);
    if !top.isList && top.key.None? {
      FaceMember(root, nodes, i, lower, p);
      var key := ReadKey(interp, keys, nodes[i].s, below, top, h0, lower, p, base);
      if key.None? {
        ok := false;
        return;
      }
      t := p.rest[0].value;
      i', stack', plans' := i + 1, below + [top.(key := key)], lower + [PDict(p.entries, Text(p.rest[0].key), p.rest[1..])];
    } else {
      FaceItem(root, nodes, i, lower, p);
      t := p.todo[0];
      plans' := lower + [PList(p.items, p.todo[1..])];
      ItemStarted(interp.heap, below, lower, top, p, CacheRefs(Slots(keys)) + base);
    }
  }

  lemma AtStart(root: Tree, nodes: seq<Node>, i: nat)
    requires Ahead(root, nodes, i, []) && nodes == TapeOf(root) && WellFormed(root)
    ensures i == 0 && Facing(root, nodes, i, [], root)
  {
    FaceRoot(root, nodes);
  }

  lemma NotWaiting(h0: Heap, h: Heap, slots: seq<CacheSlot>)
    requires StringSlots(h, slots) && Tidy(h0, h)
    ensures Building(h0, h, slots, [], [], true) && Building(h0, h, slots, [], [], false)
  {}

  /** Whatever was made since object `n` and is alive is alive because something held leads to it. */
  ghost predicate NothingElse(n: nat, h: Heap, held: seq<Id>) {
    forall i | n <= i < |h| && Alive(h, i) :: ReachedFrom(h, held, i)
  }

  /** Nothing leaks, and no cycle keeps itself alive. */
  lemma OnlyHeldSurvives(h0: Heap, held0: seq<Id>, h: Heap, held: seq<Id>)
    requires Balanced(h0, held0) && Balanced(h, held) && Tidy(h0, h)
    ensures NothingElse(|h0|, h, held)
  {
    hide Balanced, Tidy, ReachedFrom;
    forall i | |h0| <= i < |h| && Alive(h, i) ensures ReachedFrom(h, held, i) {
      Reached(h0, held0, h, held, i);
    }
  }

  /**
   * Builds the value of a document from its tape, with or without a cache of keys. On success the
   * result holds the JSON value whose tape it is, and the tape has been read to its end; `read` counts its
   * nodes, each read once and in order. On failure every reference taken has been given back.
   * Either way the counts are exact for who is left: the result, the cache and `base`, and
   * whatever is new is alive only because one of them leads to it.
   */
  method Build(interp: Interpreter, keys: Cache?, nodes: seq<Node>, ghost root: Tree, ghost base: seq<Id>)
    returns (r: Option<Id>, ghost read: nat)
    requires nodes == TapeOf(root) && WellFormed(root)
    requires keys != null ==> keys.Valid() && keys.HoldsStrings(interp.heap)
    requires Balanced(interp.heap, CacheRefs(Slots(keys)) + base)
    modifies interp, if keys == null then {} else {keys.slots}
    ensures r.Some? ==>
              && Repr(interp.heap, r.value, Meaning(root), {}) && read == |nodes|
              && (forall v | Loads.TapeShows(root, v) :: Loads.Holds(interp.heap, r.value, v))
              && Balanced(interp.heap, [r.value] + (CacheRefs(Slots(keys)) + base))
    ensures r.None? ==> Balanced(interp.heap, CacheRefs(Slots(keys)) + base)
    ensures keys != null ==> keys.HoldsStrings(interp.heap)
    ensures NothingElse(|old(interp.heap)|, interp.heap, (if r.Some? then [r.value] else []) + (CacheRefs(Slots(keys)) + base))
  {
    hide Balanced, StackOk, Tidy, StackRefs, CacheRefs, Facing, Ahead, Having, InHand, Repr, WellFormed, TapeOf, StringSlots, NothingElse;
    hide Loads.TapeShows, Loads.Holds;
    var stack: seq<Frame> := [];
    var i: nat := 0;
    ghost var h0, held0, plans: seq<Plan> := interp.heap, CacheRefs(Slots(keys)) + base, [];
    read := 0;
    Starting(h0, Slots(keys), nodes, root);
    NoFrames(Slots(keys), base);
    while true
      invariant Building(h0, interp.heap, Slots(keys), stack, plans, false) && Ahead(root, nodes, i, plans)
      invariant Balanced(interp.heap, Held(stack, Slots(keys), base))
      decreases |nodes| - i
    {
      var ok;
      ghost var t;
      ghost var before := i;
      ok, i, stack, plans, t := Head(interp, keys, nodes, i, stack, h0, base, plans, root);
      if !ok {
        DropFrames(interp, stack, h0, Slots(keys), base);
        NoFrames(Slots(keys), base);
        OnlyHeldSurvives(h0, held0, interp.heap, [] + (CacheRefs(Slots(keys)) + base));
        return None, i;
      }
      FirstNode(root, nodes, i, plans, t);
      var turn;
      ghost var v;
      turn, stack, plans, v := ReadValue(interp, nodes[i], stack, h0, Slots(keys), base, plans, root, nodes, i, t);
      i := i + 1;
      if turn.Got? {
        var out;
        out, stack, plans := Settle(interp, turn.val, stack, h0, Slots(keys), base, plans, root, nodes, i, v);
        if out.Done? {
          Loads.LoadedHolds(interp.heap, out.val, root);
          OnlyHeldSurvives(h0, held0, interp.heap, [out.val] + (CacheRefs(Slots(keys)) + base));
          return Some(out.val), i;
        }
        if out.Broken? {
          turn := Failed;
        }
      }
      if turn.Failed? {
        DropFrames(interp, stack, h0, Slots(keys), base);
        NoFrames(Slots(keys), base);
        OnlyHeldSurvives(h0, held0, interp.heap, [] + (CacheRefs(Slots(keys)) + base));
        return None, i;
      }
    }
  }

  lemma Starting(h: Heap, slots: seq<CacheSlot>, nodes: seq<Node>, root: Tree)
    requires slots == [] || StringSlots(h, slots)
    ensures Building(h, h, slots, [], [], false) && Ahead(root, nodes, 0, [])
  {
    TidyStart(h);
  }
}
