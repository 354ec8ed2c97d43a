/**
 * Python code that runs in the middle of `dumps` (src/encode.rs): it may do anything to the
 * objects it can reach, except drop a reference that is not its own.
 */
module Python {
  import opened Common
  import opened Ledger

  /** What the encoder sees of an object's type. */
  datatype Class =
    | Exact
    | Subclass
    | DatetimeType
    | DateType
    | TimeType
    | NdarrayType
    | NumpyScalarType
    | OtherType

  /** Two states of one mutable object. */
  predicate SameKind(a: Obj, b: Obj) {
    (a.OList? && b.OList?) || (a.ODict? && b.ODict?) || (a.OOther? && b.OOther?)
  }

  /** What any running code leaves true of the objects there were: only mutable ones change, and none changes its kind. */
  ghost predicate Evolved(h: Heap, h': Heap) {
    && |h| <= |h'|
    && forall i | 0 <= i < |h| :: h'[i].obj == h[i].obj || h'[i].obj.Freed? || SameKind(h[i].obj, h'[i].obj)
  }

  /** Objects may have been made or freed, but none has changed. */
  ghost predicate Steady(h: Heap, h': Heap) {
    && |h| <= |h'|
    && forall i | 0 <= i < |h| :: h'[i].obj == h[i].obj || h'[i].obj.Freed?
  }

  ghost predicate SameObjects(h: Heap, h': Heap) {
    |h'| == |h| && forall i | 0 <= i < |h| :: h'[i].obj == h[i].obj
  }

  /** Every slot of every list is filled, as for any list that Python code can see. */
  ghost predicate FullLists(h: Heap) {
    forall i, k | 0 <= i < |h| && h[i].obj.OList? && 0 <= k < |h[i].obj.items| :: h[i].obj.items[k].Some?
  }

  predicate Full(o: Obj) {
    o.OList? ==> forall k | 0 <= k < |o.items| :: o.items[k].Some?
  }

  /** From one state to a later one: objects only change while the number of runs left goes down. */
  ghost predicate Ran(h: Heap, h': Heap, steps: nat, steps': nat) {
    && Evolved(h, h')
    && steps' <= steps
    && (steps' == steps ==> Steady(h, h'))
  }

  lemma RanTwice(h: Heap, h1: Heap, h2: Heap, s: nat, s1: nat, s2: nat)
    requires Ran(h, h1, s, s1) && Ran(h1, h2, s1, s2)
    ensures Ran(h, h2, s, s2)
  {
    FreedStaysFreed(h, h1, h2);
  }

  lemma FreedStaysFreed(h: Heap, h1: Heap, h2: Heap)
    requires Evolved(h, h1) && Evolved(h1, h2)
    ensures Evolved(h, h2)
    ensures Steady(h, h1) && Steady(h1, h2) ==> Steady(h, h2)
  {}

  lemma SteadyRan(h: Heap, h': Heap, steps: nat)
    requires Steady(h, h')
    ensures Ran(h, h', steps, steps)
  {}

  lemma {:induction false} CountWithout(s: seq<Id>, k: nat, c: Id)
    requires k < |s|
    ensures Count(s, c) == One(s[k], c) + Count(s[..k] + s[k + 1..], c)
  {
    hide One;
    if k == 0 {
      assert s[..0] + s[1..] == s[1..];
    } else {
      var t := s[..k] + s[k + 1..];
      assert t[1..] == s[1..][..k - 1] + s[1..][k..];
      CountWithout(s[1..], k - 1, c);
    }
  }

  /** A reference more among the others. */
  lemma AddOther(id: Id, mine: seq<Id>, args: seq<Id>, others: seq<Id>, c: Id)
    ensures Count([id] + (mine + (args + others)), c) == Count(mine + (args + ([id] + others)), c)
  {
    hide Count;
    CountConcat([id], mine + (args + others), c);
    CountConcat(mine, args + others, c);
    CountConcat(args, others, c);
    CountConcat(mine, args + ([id] + others), c);
    CountConcat(args, [id] + others, c);
    CountConcat([id], others, c);
  }

  lemma RemoveOther(mine: seq<Id>, args: seq<Id>, others: seq<Id>, k: nat, c: Id)
    requires k < |others|
    ensures Count(mine + (args + others), c) == Count([others[k]] + (mine + (args + (others[..k] + others[k + 1..]))), c)
  {
    hide Count;
    var less := others[..k] + others[k + 1..];
    CountWithout(others, k, c);
    CountConcat(mine, args + others, c);
    CountConcat(args, others, c);
    CountConcat([others[k]], mine + (args + less), c);
    CountConcat(mine, args + less, c);
    CountConcat(args, less, c);
    CountOne(others[k], c);
  }

  lemma CountOne(a: Id, c: Id)
    ensures Count([a], c) == One(a, c)
  {
    assert [a][1..] == [];
  }

  /** Any number. */
  method Any() returns (n: nat) {
    var k: int := *;
    n := if k < 0 then -k else k;
  }

  /** The interpreter while `dumps` runs. */
  class Runtime {
    var heap: Heap
    /** References that other code holds, and may drop. */
    var others: seq<Id>
    /** References that the caller of `dumps` holds until it returns. */
    const args: seq<Id>
    /** The type of an object never changes. */
    const types: Id -> Class
    /** How often Python code will still change anything. */
    var steps: nat
    /** References that the encoder has taken and not given back. */
    ghost var mine: seq<Id>

    constructor (args: seq<Id>, types: Id -> Class, heap: Heap, others: seq<Id>, steps: nat)
      requires Balanced(heap, args + others) && FullLists(heap)
      ensures this.heap == heap && this.args == args && this.others == others && this.types == types && this.steps == steps
      ensures mine == [] && Valid()
    {
      this.heap, this.args, this.others, this.types, this.steps, mine := heap, args, others, types, steps, [];
      assert [] + (args + others) == args + others;
    }

    ghost predicate Valid()
      reads this
    {
      Balanced(heap, mine + (args + others)) && FullLists(heap)
    }

    /** Reads an object, which must not have been freed. */
    method Read(id: Id) returns (o: Obj)
      requires Valid() && Alive(heap, id)
      ensures o == heap[id].obj
    {
      o := heap[id].obj;
    }

    // ---- what Python code can do -----------------------------------------------------------------

    method TakeOther(id: Id)
      requires Valid() && Alive(heap, id)
      modifies `heap, `others
      ensures Valid() && Steady(old(heap), heap)
    {
      hide Balanced, Count, Alive;
      IncrefBalanced(heap, mine + (args + others), id);
      IncrefSteady(heap, id);
      heap := Incref(heap, id);
      forall c ensures Count([id] + (mine + (args + others)), c) == Count(mine + (args + ([id] + others)), c) {
        AddOther(id, mine, args, others, c);
      }
      HeldAnyOrder(heap, [id] + (mine + (args + others)), mine + (args + ([id] + others)));
      others := [id] + others;
    }

    method DropOther(k: nat)
      requires Valid() && k < |others|
      modifies `heap, `others
      ensures Valid() && Steady(old(heap), heap)
    {
      hide Balanced, Count, Release;
      var id, less := others[k], others[..k] + others[k + 1..];
      forall c ensures Count(mine + (args + others), c) == Count([id] + (mine + (args + less)), c) {
        RemoveOther(mine, args, others, k, c);
      }
      HeldAnyOrder(heap, mine + (args + others), [id] + (mine + (args + less)));
      ReleaseBalanced(heap, mine + (args + less), [id]);
      ReleaseShrinks(heap, [id]);
      ShrunkSteady(heap, Release(heap, [id]));
      heap := Release(heap, [id]);
      others := less;
    }

    method Create(o: Obj)
      requires Valid() && (forall x | x in Refs(o) :: Alive(heap, x)) && !o.Freed? && Full(o)
      modifies `heap, `others
      ensures Valid() && Steady(old(heap), heap)
    {
      hide Balanced, Count, Refs, IncrefAll, Alive;
      ghost var held := mine + (args + others);
      IncrefAllBalanced(heap, held, Refs(o));
      NewHolding(IncrefAll(heap, Refs(o)), held, o);
      var id := |heap|;
      heap := New(IncrefAll(heap, Refs(o)), o);
      forall c ensures Count([id] + (mine + (args + others)), c) == Count(mine + (args + ([id] + others)), c) {
        AddOther(id, mine, args, others, c);
      }
      HeldAnyOrder(heap, [id] + held, mine + (args + ([id] + others)));
      others := [id] + others;
    }

    method Mutate(id: Id, o: Obj)
      requires Valid() && Alive(heap, id) && SameKind(heap[id].obj, o) && Full(o)
      requires forall x | x in Refs(o) :: Alive(heap, x)
      modifies `heap
      ensures Valid() && Evolved(old(heap), heap)
    {
      hide Balanced, Refs, Release;
      ghost var held := mine + (args + others);
      var h := SetContents(heap, id, o);
      var was := Refs(heap[id].obj);
      SetContentsBalanced(heap, held, id, o);
      ReleaseBalanced(h, held, was);
      ReleaseShrinks(h, was);
      ChangedAndShrunk(heap, h, Release(h, was), id);
      heap := Release(h, was);
    }

    /** One thing Python code does, if it can. */
    method Move()
      requires Valid()
      modifies `heap, `others
      ensures Valid() && Evolved(old(heap), heap)
    {
      hide Balanced, Refs, FullLists;
      var choice := Any();
      var id := Any();
      var o: Obj := *;
      if choice == 0 && Alive(heap, id) {
        TakeOther(id);
      } else if choice == 1 && id < |others| {
        DropOther(id);
      } else if (forall x | x in Refs(o) :: Alive(heap, x)) && !o.Freed? && Full(o) {
        if choice == 2 {
          Create(o);
        } else if Alive(heap, id) && SameKind(heap[id].obj, o) {
          Mutate(id, o);
        }
      }
    }

    /** Python code runs: any number of such steps, in any order. */
    method RunPython(ghost guard: bool)
      requires guard && Valid()
      modifies `heap, `others, `steps
      ensures Valid() && Ran(old(heap), heap, old(steps), steps)
    {
      hide Balanced, FullLists;
      if steps == 0 {
        return;
      }
      steps := steps - 1;
      var n := Any();
      for i := 0 to n
        invariant Valid() && Evolved(old(heap), heap) && steps < old(steps)
      {
        ghost var h := heap;
        Move();
        FreedStaysFreed(old(heap), h, heap);
      }
    }

    // ---- what the encoder does -----------------------------------------------------------------------

    /** `Py_INCREF`. */
    method Take(id: Id)
      requires Valid() && Alive(heap, id)
      modifies `heap, `mine
      ensures Valid() && mine == [id] + old(mine) && SameObjects(old(heap), heap)
    {
      hide Balanced, Alive;
      IncrefBalanced(heap, mine + (args + others), id);
      IncrefSteady(heap, id);
      heap := Incref(heap, id);
      assert [id] + (mine + (args + others)) == ([id] + mine) + (args + others);
      mine := [id] + mine;
    }

    /**
     * `Py_DECREF`. Freeing an object may run Python code, so without a guard there must be
     * another holder.
     */
    method GiveBack(id: Id, ghost left: seq<Id>, ghost guard: bool)
      requires Valid() && forall c :: Count(mine, c) == Count([id] + left, c)
      requires guard || (id < |heap| && heap[id].rc > 1)
      modifies `heap, `mine, `others, `steps
      ensures Valid() && mine == left && Ran(old(heap), heap, old(steps), steps)
      ensures !guard ==> SameObjects(old(heap), heap) && steps == old(steps)
    {
      hide Balanced, FullLists, Count, Release, Refs, Ran, Steady;
      ghost var h, rest := heap, args + others;
      MoveToFront(heap, mine, id, left, rest);
      HeldAlive(heap, [id] + (left + rest), id);
      if heap[id].rc > 1 {
        LastButOne(heap, id, left + rest);
        heap, mine := Drop(heap, id), left;
        SteadyRan(h, heap, steps);
        return;
      }
      ReleaseBalanced(heap, left + rest, [id]);
      ReleaseShrinks(heap, [id]);
      ShrunkSteady(heap, Release(heap, [id]));
      heap, mine := Release(heap, [id]), left;
      SteadyRan(h, heap, steps);
      ghost var h1, s := heap, steps;
      RunPython(guard);
      RanTwice(h, h1, heap, s, s, steps);
    }

    /** Calls Python code for a result, to which the encoder gets a reference. */
    method CallPython(ghost guard: bool) returns (r: Option<Id>)
      requires guard && Valid()
      modifies this
      ensures Valid() && Ran(old(heap), heap, old(steps), steps)
      ensures mine == if r.Some? then [r.value] + old(mine) else old(mine)
      ensures r.Some? ==> Alive(heap, r.value)
    {
      hide Balanced, FullLists, Ran, SameObjects;
      RunPython(guard);
      var id := Any();
      if Alive(heap, id) {
        ghost var h := heap;
        Take(id);
        SameSteady(h, heap, steps, id);
        RanTwice(old(heap), h, heap, old(steps), steps, steps);
        return Some(id);
      }
      r := None;
    }
  }

  // ---- small facts ---------------------------------------------------------------------------------------

  lemma IncrefSteady(h: Heap, id: Id)
    requires Alive(h, id)
    ensures Steady(h, Incref(h, id)) && SameObjects(h, Incref(h, id))
    ensures FullLists(h) ==> FullLists(Incref(h, id))
  {}

  lemma ShrunkSteady(h: Heap, h': Heap)
    requires Shrunk(h, h')
    ensures Steady(h, h') && (FullLists(h) ==> FullLists(h'))
  {}

  lemma SameSteady(h: Heap, h': Heap, steps: nat, id: Id)
    requires SameObjects(h, h')
    ensures Ran(h, h', steps, steps) && (Alive(h, id) ==> Alive(h', id))
  {}

  lemma ChangedAndShrunk(h: Heap, h1: Heap, h2: Heap, id: Id)
    requires |h1| == |h| && id < |h| && SameKind(h[id].obj, h1[id].obj) && Full(h1[id].obj)
    requires forall i | 0 <= i < |h| && i != id :: h1[i].obj == h[i].obj
    requires Shrunk(h1, h2)
    ensures Evolved(h, h2) && (FullLists(h) ==> FullLists(h2))
  {}

  lemma MoveToFront(h: Heap, mine: seq<Id>, id: Id, left: seq<Id>, rest: seq<Id>)
    requires Balanced(h, mine + rest) && forall c :: Count(mine, c) == Count([id] + left, c)
    ensures Balanced(h, [id] + (left + rest))
  {
    hide Balanced, Count;
    forall c ensures Count(mine + rest, c) == Count([id] + (left + rest), c) {
      CountConcat(mine, rest, c);
      CountConcat([id] + left, rest, c);
      assert ([id] + left) + rest == [id] + (left + rest);
    }
    HeldAnyOrder(h, mine + rest, [id] + (left + rest));
  }

  /** Giving back a reference that is not the last changes nothing but a count. */
  lemma LastButOne(h: Heap, id: Id, held: seq<Id>)
    requires Balanced(h, [id] + held) && id < |h| && h[id].rc > 1
    ensures Balanced(Drop(h, id), held) && SameObjects(h, Drop(h, id)) && Steady(h, Drop(h, id))
    ensures FullLists(h) ==> FullLists(Drop(h, id))
  {
    hide Balanced;
    DropBalanced(h, held, id);
    assert [] + held == held;
  }
}
