/**
 * Reentrancy (src/encode.rs): `default`, `utcoffset()`, numpy attributes and finalizers run Python
 * code in the middle of the walk, which may change the very containers being walked. The walk is
 * modelled with everything it reads, takes, gives back and writes; `Encode` says what is written
 * when nothing changes, this module what holds whatever changes.
 */
module Guard {
  import opened Common
  import opened Utf8
  import opened Ledger
  import opened Python
  import opened JsonText
  import Objects
  import Numpy
  import Layout
  import Rfc8259
  import RoundTrip
  import Sorting

  // ---- what keeps an object alive -------------------------------------------------------------

  /** Each object on the path is a tuple holding the next. */
  ghost predicate ThroughTuples(h: Heap, path: seq<Id>) {
    && path != []
    && forall k | 0 <= k < |path| - 1 :: path[k] < |h| && h[path[k]].obj.OTuple? && path[k + 1] in h[path[k]].obj.elems
  }

  /** Somebody who will not let go holds the object, or a tuple that leads to it. */
  ghost predicate Protected(h: Heap, roots: seq<Id>, id: Id) {
    exists path :: ThroughTuples(h, path) && path[0] in roots && path[|path| - 1] == id
  }

  lemma RootProtected(h: Heap, roots: seq<Id>, id: Id)
    requires id in roots
    ensures Protected(h, roots, id)
  {
    assert ThroughTuples(h, [id]);
    assert [id][|[id]| - 1] == id;
  }

  lemma ElementProtected(h: Heap, roots: seq<Id>, t: Id, id: Id)
    requires Protected(h, roots, t) && t < |h| && h[t].obj.OTuple? && id in h[t].obj.elems
    ensures Protected(h, roots, id)
  {
    var path :| ThroughTuples(h, path) && path[0] in roots && path[|path| - 1] == t;
    var longer := path + [id];
    assert ThroughTuples(h, longer);
    assert longer[|longer| - 1] == id;
  }

  lemma {:induction false} PathStays(h: Heap, h': Heap, held: seq<Id>, path: seq<Id>, k: nat)
    requires ThroughTuples(h, path) && path[0] in held && k < |path|
    requires Evolved(h, h') && Balanced(h', held)
    ensures Alive(h', path[k]) && (k < |path| - 1 ==> h'[path[k]].obj == h[path[k]].obj)
  {
    hide Balanced;
    if k == 0 {
      HeldAlive(h', held, path[0]);
    } else {
      PathStays(h, h', held, path, k - 1);
      ChildAlive(h', held, path[k - 1], path[k]);
    }
  }

  /** Whatever Python code does, a protected object stays alive and protected. */
  lemma ProtectedStays(h: Heap, h': Heap, held: seq<Id>, roots: seq<Id>, id: Id)
    requires Protected(h, roots, id) && (forall r | r in roots :: r in held)
    requires Evolved(h, h') && Balanced(h', held)
    ensures Alive(h', id) && Protected(h', roots, id)
  {
    hide Balanced, Evolved;
    var path :| ThroughTuples(h, path) && path[0] in roots && path[|path| - 1] == id;
    forall k | 0 <= k < |path|
      ensures Alive(h', path[k]) && (k < |path| - 1 ==> h'[path[k]].obj == h[path[k]].obj)
    {
      PathStays(h, h', held, path, k);
    }
    assert ThroughTuples(h', path);
  }

  /** Serializing one of these cannot call back, so it need not be held. */
  predicate RunsNoPython(o: Obj, ty: Class) {
    ty.Exact? && (o.OStr? || o.OInt? || o.OFloat? || o.OBool? || o.ONone?)
  }

  /** The object can be serialized: alive now, and for as long as Python code may run. */
  ghost predicate SafeIn(guard: bool, h: Heap, roots: seq<Id>, ty: Class, id: Id) {
    && Alive(h, id)
    && (guard && !RunsNoPython(h[id].obj, ty) ==> Protected(h, roots, id))
  }

  /** What any part of the walk leaves behind: its references balanced; without a guard, every object as it was. */
  ghost predicate Went(guard: bool, h: Heap, h': Heap, s: nat, s': nat) {
    && Ran(h, h', s, s')
    && (!guard ==> SameObjects(h, h') && s' == s)
  }

  lemma WentTwice(guard: bool, h: Heap, h1: Heap, h2: Heap, s: nat, s1: nat, s2: nat)
    requires Went(guard, h, h1, s, s1) && Went(guard, h1, h2, s1, s2)
    ensures Went(guard, h, h2, s, s2)
  {
    hide Ran;
    RanTwice(h, h1, h2, s, s1, s2);
  }

  lemma WentNowhere(guard: bool, h: Heap, h': Heap, s: nat)
    requires SameObjects(h, h')
    ensures Went(guard, h, h', s, s)
  {}

  /** A container being walked stays safe and of its kind; while no Python code changes anything it stays as it is. */
  lemma SafeStays(guard: bool, h: Heap, h': Heap, s: nat, s': nat, mine: seq<Id>, args: seq<Id>, others: seq<Id>, ty: Class, id: Id)
    requires SafeIn(guard, h, mine + args, ty, id) && !RunsNoPython(h[id].obj, ty)
    requires Went(guard, h, h', s, s') && Balanced(h', mine + (args + others))
    ensures SafeIn(guard, h', mine + args, ty, id) && !RunsNoPython(h'[id].obj, ty)
    ensures SameKind(h[id].obj, h'[id].obj) || h'[id].obj == h[id].obj
    ensures s' == s ==> h'[id].obj == h[id].obj
  {
    hide Balanced, Protected;
    if guard {
      ProtectedStays(h, h', mine + (args + others), mine + args, id);
    }
  }

  datatype Written = Done | PyError | Declined

  /** The walk of one call of `dumps`. */
  class Walker {
    const py: Runtime
    const hasDefault: bool
    const numpy: bool
    const passthroughSubclass: bool
    const passthroughDatetime: bool
    const sortKeys: bool
    /** Whether to indent by two spaces. */
    const indent: bool
    /** What has been written; `Out.OutputBuffer` shows that appending is all the buffer does. */
    var text: seq<byte>
    /** Whether a callback is possible at all; fixed before the walk starts. */
    const guard: bool
    /** The datetime types are known. */
    var dt: bool
    var npRechecked: bool
    var depth: nat
    var defaultDepth: nat

    /** As `dumps` sets it up. */
    constructor (py: Runtime, hasDefault: bool, numpy: bool, passthroughSubclass: bool, passthroughDatetime: bool, sortKeys: bool, indent: bool, dt: bool)
      requires py.Valid()
      ensures Valid() && fresh(this) && this.py == py && depth == 0 && defaultDepth == 0 && text == [] && this.indent == indent
      ensures guard == (hasDefault || numpy || dt) && this.hasDefault == hasDefault && this.numpy == numpy && this.dt == dt
    {
      this.py, this.hasDefault, this.numpy, this.sortKeys := py, hasDefault, numpy, sortKeys;
      this.passthroughSubclass, this.passthroughDatetime := passthroughSubclass, passthroughDatetime;
      this.guard := hasDefault || numpy || dt;
      this.dt, npRechecked, depth, defaultDepth, this.indent, text := dt, false, 0, 0, indent, [];
    }

    /** Every way to Python code is behind the guard. */
    ghost predicate Valid()
      reads this, py
    {
      && py.Valid()
      && (hasDefault || numpy || dt ==> guard)
      && depth <= Objects.MAX_DEPTH && defaultDepth <= Objects.MAX_DEFAULT_DEPTH
    }

    ghost predicate Safe(id: Id)
      reads this, py
    {
      SafeIn(guard, py.heap, py.mine + py.args, py.types(id), id)
    }

    /** A call that succeeds has written one value that can be read back. */
    ghost predicate Said(before: seq<byte>, ok: bool, v: Json)
      reads this
    {
      ok ==> RoundTrip.Readable(v) && text == before + Write(v, indent, depth)
    }

    method Enter() returns (ok: bool)
      requires Valid()
      modifies this`depth
      ensures ok <==> old(depth) < Objects.MAX_DEPTH
      ensures depth == if ok then old(depth) + 1 else old(depth)
    {
      if depth >= Objects.MAX_DEPTH {
        return false;
      }
      depth := depth + 1;
      ok := true;
    }

    /** Whether a call into CPython that runs no Python code succeeds: a text with surrogates, a number out of range. */
    method Succeeds() returns (ok: bool) {
      ok := *;
    }

    // ---- calls that run Python code -------------------------------------------------------------

    /** `obj.dtype.str`. */
    method DtypeStr(id: Id) returns (ok: bool)
      requires Valid() && guard && Safe(id) && !RunsNoPython(py.heap[id].obj, py.types(id))
      modifies py
      ensures Valid() && py.mine == old(py.mine) && Went(guard, old(py.heap), py.heap, old(py.steps), py.steps)
      ensures Safe(id) && !RunsNoPython(py.heap[id].obj, py.types(id))
    {
      hide Balanced, FullLists, Protected, Ran, Count, RunsNoPython;
      ghost var h0, s0, mine := py.heap, py.steps, py.mine;
      var _ := py.Read(id);
      var dtype := py.CallPython(guard);
      if dtype.None? {
        Stays(h0, s0, mine, id);
        return false;
      }
      var _ := py.Read(dtype.value);
      ghost var h1, s1 := py.heap, py.steps;
      var s := py.CallPython(guard);
      RanTwice(h0, h1, py.heap, s0, s1, py.steps);
      h1, s1 := py.heap, py.steps;
      if s.None? {
        py.GiveBack(dtype.value, mine, guard);
        RanTwice(h0, h1, py.heap, s0, s1, py.steps);
        Stays(h0, s0, mine, id);
        return false;
      }
      forall c ensures Count(py.mine, c) == Count([dtype.value] + ([s.value] + mine), c) {
        TwoFirst(s.value, dtype.value, mine, c);
      }
      py.GiveBack(dtype.value, [s.value] + mine, guard);
      RanTwice(h0, h1, py.heap, s0, s1, py.steps);
      MineAlive(s.value);
      var _ := py.Read(s.value);
      h1, s1 := py.heap, py.steps;
      py.GiveBack(s.value, mine, guard);
      RanTwice(h0, h1, py.heap, s0, s1, py.steps);
      Stays(h0, s0, mine, id);
      ok := Succeeds();
    }

    /** The object at hand is still there after Python code has run. */
    lemma Stays(h0: Heap, s0: nat, mine: seq<Id>, id: Id)
      requires Valid() && guard && py.mine == mine
      requires SafeIn(guard, h0, mine + py.args, py.types(id), id) && !RunsNoPython(h0[id].obj, py.types(id))
      requires Ran(h0, py.heap, s0, py.steps)
      ensures Safe(id) && !RunsNoPython(py.heap[id].obj, py.types(id))
      ensures Went(guard, h0, py.heap, s0, py.steps)
    {
      hide Balanced, FullLists, Protected, Ran, RunsNoPython;
      SafeStays(guard, h0, py.heap, s0, py.steps, mine, py.args, py.others, py.types(id), id);
    }

    lemma MineAlive(id: Id)
      requires Valid() && id in py.mine
      ensures Alive(py.heap, id) && Protected(py.heap, py.mine + py.args, id)
    {
      hide Balanced, FullLists;
      HeldAlive(py.heap, py.mine + (py.args + py.others), id);
      RootProtected(py.heap, py.mine + py.args, id);
    }

    /** The text of some datetime, date or time: digits and punctuation, as `IsoText` writes them. */
    method WriteStamp() returns (ghost v: Json)
      modifies this`text
      ensures Said(old(text), true, v)
    {
      hide Numpy.Plain;
      var inner := AnyPlain();
      v := Str(inner);
      PlainText(inner);
      text := text + ([QUOTE] + inner + [QUOTE]);
    }

    /** A value that is written as it stands: a scalar, or an array or scalar of numpy. */
    method WriteValue(x: Json) returns (ghost v: Json)
      requires RoundTrip.Readable(x)
      modifies this`text
      ensures Said(old(text), true, v)
    {
      hide Write, RoundTrip.Readable;
      v := x;
      text := text + Write(x, indent, depth);
    }

    /** `obj.utcoffset()`, whose answer or error is the truth. */
    method AskObject(id: Id) returns (ok: bool)
      requires Valid() && guard && Safe(id) && !RunsNoPython(py.heap[id].obj, py.types(id))
      modifies py
      ensures Valid() && py.mine == old(py.mine) && Went(guard, old(py.heap), py.heap, old(py.steps), py.steps)
      ensures Safe(id) && !RunsNoPython(py.heap[id].obj, py.types(id))
    {
      hide Balanced, FullLists, Protected, Ran, Count, RunsNoPython;
      ghost var h0, s0, mine := py.heap, py.steps, py.mine;
      var _ := py.Read(id);
      var r := py.CallPython(guard);
      if r.None? {
        Stays(h0, s0, mine, id);
        return false;
      }
      var _ := py.Read(r.value);
      ghost var h1, s1 := py.heap, py.steps;
      py.GiveBack(r.value, mine, guard);
      RanTwice(h0, h1, py.heap, s0, s1, py.steps);
      Stays(h0, s0, mine, id);
      ok := true;
    }

    /** The offset of an aware datetime or time: `tzinfo.utcoffset(...)`, or `obj.utcoffset()` for the error if that is invalid. */
    method DatetimeLike(id: Id) returns (ok: bool, ghost v: Json)
      requires Valid() && guard && Safe(id) && !RunsNoPython(py.heap[id].obj, py.types(id))
      modifies this`text, py
      ensures Valid() && py.mine == old(py.mine) && Went(guard, old(py.heap), py.heap, old(py.steps), py.steps)
      ensures Said(old(text), ok, v)
    {
      hide Balanced, FullLists, Protected, Ran, Count, RunsNoPython;
      v := Null;
      ghost var h0, s0, mine := py.heap, py.steps, py.mine;
      WentNowhere(guard, h0, h0, s0);
      var o := py.Read(id);
      if !o.OOther? || o.refs == [] {
        v := WriteStamp();
        return true, v;
      }
      var tzinfo := o.refs[0];
      ChildAlive(py.heap, mine + (py.args + py.others), id, tzinfo);
      var _ := py.Read(tzinfo);
      var r := py.CallPython(guard);
      if r.None? {
        Stays(h0, s0, mine, id);
        return false, v;
      }
      var _ := py.Read(r.value);
      var valid := Succeeds();
      ghost var h1, s1 := py.heap, py.steps;
      py.GiveBack(r.value, mine, guard);
      RanTwice(h0, h1, py.heap, s0, s1, py.steps);
      Stays(h0, s0, mine, id);
      if !valid {
        h1, s1 := py.heap, py.steps;
        ok := AskObject(id);
        WentTwice(guard, h0, h1, py.heap, s0, s1, py.steps);
        if !ok {
          return;
        }
      }
      var _ := py.Read(id);
      v := WriteStamp();
      ok := true;
    }

    /** An array's memory is read while its capsule is held, and its dtype while the array is. */
    method SerializeArray(id: Id) returns (w: Written, ghost v: Json)
      requires Valid() && guard && Safe(id) && !RunsNoPython(py.heap[id].obj, py.types(id))
      modifies this`text, py
      ensures Valid() && py.mine == old(py.mine) && Went(guard, old(py.heap), py.heap, old(py.steps), py.steps)
      ensures Safe(id) && !RunsNoPython(py.heap[id].obj, py.types(id))
      ensures if w.Done? then Said(old(text), true, v) else text == old(text)
    {
      hide Balanced, FullLists, Protected, Ran, Count, RunsNoPython;
      v := Null;
      ghost var h0, s0, mine := py.heap, py.steps, py.mine;
      var _ := py.Read(id);
      var capsule := py.CallPython(guard);
      if capsule.None? {
        Stays(h0, s0, mine, id);
        return PyError, v;
      }
      ghost var h1, s1 := py.heap, py.steps;
      SafeWithMore(h0, h1, s0, s1, mine, capsule.value, id);
      var _ := py.Read(capsule.value);
      var malformed := Succeeds();
      w := if malformed then PyError else Done;
      if w.Done? {
        var needsDtype := Succeeds();
        if needsDtype {
          var got := DtypeStr(id);
          RanTwice(h0, h1, py.heap, s0, s1, py.steps);
          w := if got then Done else PyError;
        }
        if w.Done? {
          MineAlive(capsule.value);
          var _ := py.Read(capsule.value);
          var written := Succeeds();
          w := if written then Done else Declined;
          if written {
            var x := AnyValue(64);
            v := WriteValue(x);
          }
        }
      }
      h1, s1 := py.heap, py.steps;
      py.GiveBack(capsule.value, mine, guard);
      RanTwice(h0, h1, py.heap, s0, s1, py.steps);
      Stays(h0, s0, mine, id);
    }

    /** A further reference does not make anything less safe. */
    lemma SafeWithMore(h0: Heap, h1: Heap, s0: nat, s1: nat, mine: seq<Id>, more: Id, id: Id)
      requires Valid() && guard && py.mine == [more] + mine && py.heap == h1
      requires SafeIn(guard, h0, mine + py.args, py.types(id), id) && !RunsNoPython(h0[id].obj, py.types(id))
      requires Ran(h0, h1, s0, s1)
      ensures Safe(id) && !RunsNoPython(h1[id].obj, py.types(id))
    {
      hide Balanced, FullLists, Ran, RunsNoPython;
      assert Protected(h0, py.mine + py.args, id) by {
        var path :| ThroughTuples(h0, path) && path[0] in mine + py.args && path[|path| - 1] == id;
        assert path[0] in py.mine + py.args;
      }
      SafeStays(guard, h0, h1, s0, s1, py.mine, py.args, py.others, py.types(id), id);
    }

    // ---- the walk ---------------------------------------------------------------------------------

    /** Serializes an object that is safe, whatever it is. */
    method Serialize(id: Id) returns (ok: bool, ghost v: Json)
      requires Valid() && Safe(id)
      modifies this, py
      ensures Valid() && py.mine == old(py.mine) && defaultDepth == old(defaultDepth) && (ok ==> depth == old(depth))
      ensures Went(guard, old(py.heap), py.heap, old(py.steps), py.steps)
      ensures Said(old(text), ok, v)
      decreases Objects.Budget(depth, defaultDepth), 5
    {
      hide Balanced, FullLists, Protected, Ran, Objects.Budget, Went, SafeIn, Alive, Write, RoundTrip.Readable;
      WentNowhere(guard, py.heap, py.heap, py.steps);
      SafeAlive(id);
      v := Null;
      var o := py.Read(id);
      KindSafe(id);
      if py.types(id).Exact? {
        match o {
          case OStr(_) => ok, v := Scalar(o);
          case OInt(_) => ok, v := Scalar(o);
          case OFloat(_) => ok, v := Scalar(o);
          case OBool(_) => ok, v := Scalar(o);
          case ONone => ok, v := Scalar(o);
          case ODict(_) => ok, v := Dict(id);
          case OList(_) => ok, v := List(id);
          case OTuple(_) => ok, v := Tuple(id);
          case OOther(_) => ok, v := SerializeOther(id);
        }
      } else {
        ok, v := SerializeOther(id);
      }
    }

    /** Nothing is freed that is safe, and only exact scalars run no Python code. */
    lemma KindSafe(id: Id)
      requires Safe(id) && Alive(py.heap, id)
      ensures !py.heap[id].obj.Freed?
      ensures !py.types(id).Exact? || py.heap[id].obj.OOther? ==> !RunsNoPython(py.heap[id].obj, py.types(id))
    {}

    /** A scalar of a built-in type; text with surrogates and some integers are refused. */
    method Scalar(o: Obj) returns (ok: bool, ghost v: Json)
      requires o.OStr? || o.OInt? || o.OFloat? || o.OBool? || o.ONone?
      modifies this`text
      ensures Said(old(text), ok, v)
    {
      hide Write, SurrogateFree, Rfc8259.RealToken;
      v := Null;
      match o {
        case OStr(cps) =>
          if !SurrogateFree(cps) {
            return false, v;
          }
          v := WriteValue(Str(cps));
        case OInt(i) =>
          ok := Succeeds();
          if !ok {
            return;
          }
          v := WriteValue(Int(i));
        case OFloat(token) =>
          if Rfc8259.RealToken(token) {
            v := WriteValue(Real(token));
          } else {
            v := WriteValue(Null);
          }
        case OBool(b) => v := WriteValue(Bool(b));
        case ONone => v := WriteValue(Null);
      }
      ok := true;
    }

    /** Everything past the exact built-in types. */
    method SerializeOther(id: Id) returns (ok: bool, ghost v: Json)
      requires Valid() && Safe(id) && !RunsNoPython(py.heap[id].obj, py.types(id))
      modifies this, py
      ensures Valid() && py.mine == old(py.mine) && defaultDepth == old(defaultDepth) && (ok ==> depth == old(depth))
      ensures Went(guard, old(py.heap), py.heap, old(py.steps), py.steps)
      ensures Said(old(text), ok, v)
      decreases Objects.Budget(depth, defaultDepth), 4
    {
      hide Balanced, FullLists, Protected, Went, SafeIn, RunsNoPython, Objects.Budget, Alive, Said;
      v := Null;
      ghost var h0, s0 := py.heap, py.steps;
      WentNowhere(guard, h0, h0, s0);
      SafeAlive(id);
      var ty := py.types(id);
      if dt && IsDatetimeLike(ty) && !passthroughDatetime {
        ok, v := DatetimeLike(id);
        return;
      }
      if !passthroughSubclass {
        var o := py.Read(id);
        if o.OStr? || o.OInt? {
          ok, v := Scalar(o);
          return;
        } else if o.ODict? {
          ok, v := Dict(id);
          return;
        } else if o.OList? {
          ok, v := List(id);
          return;
        }
      }
      if !dt && guard && !passthroughDatetime {
        var found := Lookup(id);
        if !found {
          FailedSays(old(text));
          return false, v;
        }
        dt := *;
        if dt && IsDatetimeLike(ty) {
          ghost var h1, s1 := py.heap, py.steps;
          ok, v := DatetimeLike(id);
          WentTwice(guard, h0, h1, py.heap, s0, s1, py.steps);
          return;
        }
      }
      ghost var h1, s1 := py.heap, py.steps;
      ok, v := NumpyOrDefault(id);
      WentTwice(guard, h0, h1, py.heap, s0, s1, py.steps);
    }

    /** A call that fails has nothing to say. */
    lemma FailedSays(before: seq<byte>)
      ensures forall v :: Said(before, false, v)
    {}

    predicate IsDatetimeLike(ty: Class) {
      ty.DatetimeType? || ty.DateType? || ty.TimeType?
    }

    lemma SafeAlive(id: Id)
      requires Safe(id)
      ensures Alive(py.heap, id)
    {}

    /** Looks for a module's types, which may drop the last reference to an old module. */
    method Lookup(id: Id) returns (ok: bool)
      requires Valid() && guard && Safe(id) && !RunsNoPython(py.heap[id].obj, py.types(id))
      modifies py
      ensures Valid() && py.mine == old(py.mine) && Went(guard, old(py.heap), py.heap, old(py.steps), py.steps)
      ensures Safe(id) && !RunsNoPython(py.heap[id].obj, py.types(id))
    {
      hide Balanced, FullLists, Protected, Ran, RunsNoPython;
      ghost var h0, s0 := py.heap, py.steps;
      py.RunPython(guard);
      Stays(h0, s0, py.mine, id);
      ok := Succeeds();
    }

    /** Numpy's own types where asked for; a declined one, and everything else, goes to `default`. */
    method NumpyOrDefault(id: Id) returns (ok: bool, ghost v: Json)
      requires Valid() && Safe(id) && !RunsNoPython(py.heap[id].obj, py.types(id))
      modifies this, py
      ensures Valid() && py.mine == old(py.mine) && defaultDepth == old(defaultDepth) && (ok ==> depth == old(depth))
      ensures Went(guard, old(py.heap), py.heap, old(py.steps), py.steps)
      ensures Said(old(text), ok, v)
      decreases Objects.Budget(depth, defaultDepth), 3
    {
      hide Balanced, FullLists, Protected, Went, SafeIn, RunsNoPython, Objects.Budget, Alive, Said;
      v := Null;
      ghost var h0, s0 := py.heap, py.steps;
      WentNowhere(guard, h0, h0, s0);
      var ty := py.types(id);
      if numpy {
        if !npRechecked {
          npRechecked := true;
          var found := Lookup(id);
          if !found {
            FailedSays(old(text));
            return false, v;
          }
        }
        var known := Succeeds();
        if known && (ty.NdarrayType? || ty.NumpyScalarType?) {
          ghost var h1, s1 := py.heap, py.steps;
          var w;
          if ty.NdarrayType? {
            w, v := SerializeArray(id);
          } else {
            w, v := SerializeScalar(id);
          }
          WentTwice(guard, h0, h1, py.heap, s0, s1, py.steps);
          if w.Done? || w.PyError? {
            FailedSays(old(text));
            return w.Done?, v;
          }
        }
      }
      ghost var h1, s1 := py.heap, py.steps;
      ok, v := CallDefault(id);
      WentTwice(guard, h0, h1, py.heap, s0, s1, py.steps);
    }

    /** A scalar is read from its own memory; a datetime64 also needs its dtype. */
    method SerializeScalar(id: Id) returns (w: Written, ghost v: Json)
      requires Valid() && guard && Safe(id) && !RunsNoPython(py.heap[id].obj, py.types(id))
      modifies this`text, py
      ensures Valid() && py.mine == old(py.mine) && Went(guard, old(py.heap), py.heap, old(py.steps), py.steps)
      ensures Safe(id) && !RunsNoPython(py.heap[id].obj, py.types(id))
      ensures if w.Done? then Said(old(text), true, v) else text == old(text)
    {
      hide Balanced, FullLists, Protected, Went, SafeIn, RunsNoPython, Alive, Said;
      v := Null;
      WentNowhere(guard, py.heap, py.heap, py.steps);
      var needsDtype := Succeeds();
      if needsDtype {
        var got := DtypeStr(id);
        if !got {
          return PyError, v;
        }
      }
      SafeAlive(id);
      var _ := py.Read(id);
      var written := Succeeds();
      if !written {
        return Declined, v;
      }
      var x := AnyValue(0);
      v := WriteValue(x);
      w := Done;
    }

    /** Calls `default` and serializes what it returns; the object is still needed for the error message. */
    method CallDefault(id: Id) returns (ok: bool, ghost v: Json)
      requires Valid() && Safe(id) && !RunsNoPython(py.heap[id].obj, py.types(id))
      modifies this, py
      ensures Valid() && py.mine == old(py.mine) && defaultDepth == old(defaultDepth) && (ok ==> depth == old(depth))
      ensures Went(guard, old(py.heap), py.heap, old(py.steps), py.steps)
      ensures Said(old(text), ok, v)
      decreases Objects.Budget(depth, defaultDepth), 2
    {
      hide Balanced, FullLists, Protected, Ran, RunsNoPython, Count, Write, RoundTrip.Readable;
      v := Null;
      ghost var h0, s0, mine := py.heap, py.steps, py.mine;
      WentNowhere(guard, h0, h0, s0);
      if !hasDefault || defaultDepth >= Objects.MAX_DEFAULT_DEPTH {
        var _ := py.Read(id);
        return false, v;
      }
      var r := py.CallPython(guard);
      ghost var h1, s1 := py.heap, py.steps;
      if r.None? {
        Stays(h0, s0, mine, id);
        var _ := py.Read(id);
        return false, v;
      }
      MineAlive(r.value);
      defaultDepth := defaultDepth + 1;
      ok, v := Serialize(r.value);
      defaultDepth := defaultDepth - 1;
      RanTwice(h0, h1, py.heap, s0, s1, py.steps);
      h1, s1 := py.heap, py.steps;
      py.GiveBack(r.value, mine, guard);
      RanTwice(h0, h1, py.heap, s0, s1, py.steps);
    }

    /** A borrowed item: held for the length of the call, unless nothing in it can run Python code. */
    method Guarded(id: Id) returns (ok: bool, ghost v: Json)
      requires Valid() && Alive(py.heap, id)
      modifies this, py
      ensures Valid() && py.mine == old(py.mine) && defaultDepth == old(defaultDepth) && (ok ==> depth == old(depth))
      ensures Went(guard, old(py.heap), py.heap, old(py.steps), py.steps)
      ensures Said(old(text), ok, v)
      decreases Objects.Budget(depth, defaultDepth), 6
    {
      hide Balanced, FullLists, Protected, Ran, Count, Objects.Budget, Write, RoundTrip.Readable;
      var o := py.Read(id);
      if !guard || RunsNoPython(o, py.types(id)) {
        ok, v := Serialize(id);
        return;
      }
      ghost var h0, s0, mine := py.heap, py.steps, py.mine;
      py.Take(id);
      ghost var h1, s1 := py.heap, py.steps;
      WentNowhere(guard, h0, h1, s0);
      MineAlive(id);
      ok, v := Serialize(id);
      RanTwice(h0, h1, py.heap, s0, s1, py.steps);
      h1, s1 := py.heap, py.steps;
      py.GiveBack(id, mine, guard);
      RanTwice(h0, h1, py.heap, s0, s1, py.steps);
    }

    method List(id: Id) returns (ok: bool, ghost v: Json)
      requires Valid() && Safe(id) && py.heap[id].obj.OList?
      modifies this, py
      ensures Valid() && py.mine == old(py.mine) && defaultDepth == old(defaultDepth) && (ok ==> depth == old(depth))
      ensures Went(guard, old(py.heap), py.heap, old(py.steps), py.steps)
      ensures Said(old(text), ok, v)
      decreases Objects.Budget(depth, defaultDepth), 1
    {
      hide Balanced, FullLists, Protected, Went, SafeIn, Write, WriteItems, Break, RoundTrip.Readable;
      v := Null;
      WentNowhere(guard, py.heap, py.heap, py.steps);
      SafeAlive(id);
      ghost var before := text;
      var o := py.Read(id);
      ok := Enter();
      if !ok {
        return;
      }
      ghost var vs: seq<Json> := [];
      if |o.items| == 0 {
        depth := depth - 1;
        text := text + [LBRACKET, RBRACKET];
      } else {
        text := text + [LBRACKET];
        ok, vs := Items(id);
        if !ok {
          return;
        }
        depth := depth - 1;
        text := text + Break(indent, depth) + [RBRACKET];
      }
      ArrayText(before, vs, indent, depth);
      v := Arr(vs);
      ArrayReadable(vs);
    }

    /** The list is read anew at every step; items may come and go. */
    method Items(id: Id) returns (ok: bool, ghost vs: seq<Json>)
      requires Valid() && Safe(id) && py.heap[id].obj.OList? && py.heap[id].obj.items != []
      modifies this, py
      ensures Valid() && py.mine == old(py.mine) && defaultDepth == old(defaultDepth) && (ok ==> depth == old(depth))
      ensures Went(guard, old(py.heap), py.heap, old(py.steps), py.steps)
      ensures ok ==> vs != [] && AllReadable(vs) && text == old(text) + WriteItems(vs, true, indent, depth)
      decreases Objects.Budget(depth, defaultDepth), 7
    {
      hide Balanced, FullLists, Protected, Went, SafeIn, Objects.Budget, Ran, Write, WriteItems, Break, Comma, RoundTrip.Readable;
      ghost var h0, s0, mine, start := py.heap, py.steps, py.mine, text;
      vs := [];
      NothingYet(start, indent, depth);
      SafeAlive(id);
      WentNowhere(guard, h0, h0, s0);
      var i: nat := 0;
      while true
        invariant Valid() && Safe(id) && id < |py.heap| && py.heap[id].obj.OList? && py.mine == mine
        invariant i == 0 ==> py.heap == h0
        invariant defaultDepth == old(defaultDepth) && depth == old(depth)
        invariant Went(guard, h0, py.heap, s0, py.steps)
        invariant |vs| == i && AllReadable(vs) && text == start + WriteItems(vs, true, indent, depth)
        decreases py.steps, |py.heap[id].obj.items| - i
      {
        SafeAlive(id);
        var o := py.Read(id);
        if i >= |o.items| {
          break;
        }
        ghost var h1, s1 := py.heap, py.steps;
        ItemAlive(id, i);
        text := text + (Comma(i == 0) + Break(indent, depth));
        ghost var v;
        ok, v := Guarded(o.items[i].value);
        WentTwice(guard, h0, h1, py.heap, s0, s1, py.steps);
        if !ok {
          return;
        }
        AppendItem(start, vs, v, indent, depth);
        vs := vs + [v];
        WalkedOn(h1, s1, id);
        i := i + 1;
      }
      ok := true;
    }

    /** An item of a list that is alive is there and alive. */
    lemma ItemAlive(id: Id, i: nat)
      requires Valid() && Alive(py.heap, id) && py.heap[id].obj.OList? && i < |py.heap[id].obj.items|
      ensures py.heap[id].obj.items[i].Some? && Alive(py.heap, py.heap[id].obj.items[i].value)
    {
      hide Balanced;
      ItemRefsHas(py.heap[id].obj.items, i);
      ChildAlive(py.heap, py.mine + (py.args + py.others), id, py.heap[id].obj.items[i].value);
    }

    /** After an item, its container is still safe to walk. */
    lemma WalkedOn(h: Heap, s: nat, id: Id)
      requires Valid() && SafeIn(guard, h, py.mine + py.args, py.types(id), id)
      requires h[id].obj.OList? || h[id].obj.ODict? || h[id].obj.OTuple?
      requires Went(guard, h, py.heap, s, py.steps)
      ensures Safe(id) && id < |py.heap| && py.steps <= s
      ensures SameKind(h[id].obj, py.heap[id].obj) || h[id].obj == py.heap[id].obj
      ensures py.steps == s ==> py.heap[id].obj == h[id].obj
    {
      hide Balanced, FullLists, Protected, SafeIn, Went;
      SafeStays(guard, h, py.heap, s, py.steps, py.mine, py.args, py.others, py.types(id), id);
      StepsDown(guard, h, py.heap, s, py.steps);
      SafeAlive(id);
    }

    /** A tuple's items are safe because the tuple is: it cannot let go of them. */
    method Tuple(id: Id) returns (ok: bool, ghost v: Json)
      requires Valid() && Safe(id) && py.heap[id].obj.OTuple?
      modifies this, py
      ensures Valid() && py.mine == old(py.mine) && defaultDepth == old(defaultDepth) && (ok ==> depth == old(depth))
      ensures Went(guard, old(py.heap), py.heap, old(py.steps), py.steps)
      ensures Said(old(text), ok, v)
      decreases Objects.Budget(depth, defaultDepth), 1
    {
      hide Balanced, FullLists, Protected, Went, SafeIn, Ran, Write, WriteItems, Break, RoundTrip.Readable;
      v := Null;
      WentNowhere(guard, py.heap, py.heap, py.steps);
      SafeAlive(id);
      ghost var before := text;
      var o := py.Read(id);
      ok := Enter();
      if !ok {
        return;
      }
      ghost var vs: seq<Json> := [];
      if |o.elems| == 0 {
        depth := depth - 1;
        text := text + [LBRACKET, RBRACKET];
      } else {
        text := text + [LBRACKET];
        ok, vs := Elements(id, o.elems);
        if !ok {
          return;
        }
        depth := depth - 1;
        text := text + Break(indent, depth) + [RBRACKET];
      }
      ArrayText(before, vs, indent, depth);
      v := Arr(vs);
      ArrayReadable(vs);
    }

    method Elements(id: Id, elems: seq<Id>) returns (ok: bool, ghost vs: seq<Json>)
      requires Valid() && Safe(id) && py.heap[id].obj == OTuple(elems) && elems != []
      modifies this, py
      ensures Valid() && py.mine == old(py.mine) && defaultDepth == old(defaultDepth) && (ok ==> depth == old(depth))
      ensures Went(guard, old(py.heap), py.heap, old(py.steps), py.steps)
      ensures ok ==> vs != [] && AllReadable(vs) && text == old(text) + WriteItems(vs, true, indent, depth)
      decreases Objects.Budget(depth, defaultDepth), 7
    {
      hide Balanced, FullLists, Protected, Went, SafeIn, Ran, Write, WriteItems, Break, Comma, RoundTrip.Readable, Objects.Budget;
      ghost var h0, s0, mine, start := py.heap, py.steps, py.mine, text;
      vs := [];
      NothingYet(start, indent, depth);
      SafeAlive(id);
      WentNowhere(guard, h0, h0, s0);
      for i := 0 to |elems|
        invariant Valid() && Safe(id) && id < |py.heap| && py.heap[id].obj == OTuple(elems) && py.mine == mine
        invariant defaultDepth == old(defaultDepth) && depth == old(depth)
        invariant Went(guard, h0, py.heap, s0, py.steps)
        invariant |vs| == i && AllReadable(vs) && text == start + WriteItems(vs, true, indent, depth)
      {
        ghost var h1, s1 := py.heap, py.steps;
        ElementSafe(id, elems[i]);
        StepsDown(guard, h0, h1, s0, s1);
        text := text + (Comma(i == 0) + Break(indent, depth));
        ghost var v;
        ok, v := Serialize(elems[i]);
        WentTwice(guard, h0, h1, py.heap, s0, s1, py.steps);
        if !ok {
          return;
        }
        AppendItem(start, vs, v, indent, depth);
        vs := vs + [v];
        WalkedOn(h1, s1, id);
      }
      ok := true;
    }

    lemma ElementSafe(t: Id, id: Id)
      requires Valid() && Safe(t) && py.heap[t].obj.OTuple? && id in py.heap[t].obj.elems
      ensures Safe(id)
    {
      hide Balanced, FullLists, Protected;
      ChildAlive(py.heap, py.mine + (py.args + py.others), t, id);
      if guard {
        ElementProtected(py.heap, py.mine + py.args, t, id);
      }
    }

    method Dict(id: Id) returns (ok: bool, ghost v: Json)
      requires Valid() && Safe(id) && py.heap[id].obj.ODict?
      modifies this, py
      ensures Valid() && py.mine == old(py.mine) && defaultDepth == old(defaultDepth) && (ok ==> depth == old(depth))
      ensures Went(guard, old(py.heap), py.heap, old(py.steps), py.steps)
      ensures Said(old(text), ok, v)
      decreases Objects.Budget(depth, defaultDepth), 1
    {
      hide Balanced, FullLists, Protected, Went, SafeIn, Write, WriteMembers, Break, RoundTrip.Readable, SurrogateFree;
      v := Null;
      WentNowhere(guard, py.heap, py.heap, py.steps);
      ghost var before := text;
      ok := Enter();
      if !ok {
        return;
      }
      SafeAlive(id);
      var o := py.Read(id);
      ghost var ms: seq<Member> := [];
      if |o.pairs| == 0 {
        depth := depth - 1;
        text := text + [LBRACE, RBRACE];
      } else {
        text := text + [LBRACE];
        if sortKeys {
          ok, ms := DictSorted(id);
        } else {
          ok, ms := DictInOrder(id);
        }
        if !ok {
          return;
        }
        depth := depth - 1;
        text := text + Break(indent, depth) + [RBRACE];
      }
      ObjectText(before, ms, indent, depth);
      v := Obj(ms);
      ObjectReadable(ms);
    }

    /** The dict is read anew at every step; key and value are held while Python code may run. */
    method DictInOrder(id: Id) returns (ok: bool, ghost ms: seq<Member>)
      requires Valid() && Safe(id) && py.heap[id].obj.ODict? && py.heap[id].obj.pairs != []
      modifies this, py
      ensures Valid() && py.mine == old(py.mine) && defaultDepth == old(defaultDepth) && (ok ==> depth == old(depth))
      ensures Went(guard, old(py.heap), py.heap, old(py.steps), py.steps)
      ensures ok ==> ms != [] && MembersReadable(ms) && text == old(text) + WriteMembers(ms, true, indent, depth)
      decreases Objects.Budget(depth, defaultDepth), 8
    {
      hide Balanced, FullLists, Protected, Went, SafeIn, Objects.Budget, Ran, Write, WriteMembers, KeyText, RoundTrip.Readable, SurrogateFree;
      ghost var h0, s0, mine, start := py.heap, py.steps, py.mine, text;
      ms := [];
      NothingYet(start, indent, depth);
      SafeAlive(id);
      WentNowhere(guard, h0, h0, s0);
      var pos: nat := 0;
      var first := true;
      while true
        invariant Valid() && Safe(id) && id < |py.heap| && py.heap[id].obj.ODict? && py.mine == mine
        invariant pos == 0 ==> py.heap == h0
        invariant defaultDepth == old(defaultDepth) && depth == old(depth)
        invariant Went(guard, h0, py.heap, s0, py.steps)
        invariant |ms| == pos && (first <==> pos == 0)
        invariant MembersReadable(ms) && text == start + WriteMembers(ms, true, indent, depth)
        decreases py.steps, |py.heap[id].obj.pairs| - pos
      {
        SafeAlive(id);
        var o := py.Read(id);
        if pos >= |o.pairs| {
          break;
        }
        var (key, value) := o.pairs[pos];
        PairAlive(id, pos);
        var k := py.Read(key);
        if !k.OStr? || !SurrogateFree(k.cps) {
          return false, ms;
        }
        ghost var h1, s1 := py.heap, py.steps;
        text := text + KeyText(k.cps, first, indent, depth);
        ghost var v;
        ok, v := OneMember(key, value);
        WentTwice(guard, h0, h1, py.heap, s0, s1, py.steps);
        if !ok {
          return;
        }
        AppendMember(start, ms, Member(k.cps, v), indent, depth);
        ms := ms + [Member(k.cps, v)];
        WalkedOn(h1, s1, id);
        pos, first := pos + 1, false;
      }
      ok := true;
    }

    lemma PairAlive(id: Id, k: nat)
      requires Valid() && Alive(py.heap, id) && py.heap[id].obj.ODict? && k < |py.heap[id].obj.pairs|
      ensures Alive(py.heap, py.heap[id].obj.pairs[k].0) && Alive(py.heap, py.heap[id].obj.pairs[k].1)
    {
      hide Balanced;
      PairRefsHas(py.heap[id].obj.pairs, k);
      ChildAlive(py.heap, py.mine + (py.args + py.others), id, py.heap[id].obj.pairs[k].0);
      ChildAlive(py.heap, py.mine + (py.args + py.others), id, py.heap[id].obj.pairs[k].1);
    }

    // ---- sorted dicts -----------------------------------------------------------------------------------

    /** All pairs are held from before the first write until after the last, on every way out. */
    method DictSorted(id: Id) returns (ok: bool, ghost ms: seq<Member>)
      requires Valid() && Safe(id) && py.heap[id].obj.ODict? && py.heap[id].obj.pairs != []
      modifies this, py
      ensures Valid() && py.mine == old(py.mine) && defaultDepth == old(defaultDepth) && (ok ==> depth == old(depth))
      ensures Went(guard, old(py.heap), py.heap, old(py.steps), py.steps)
      ensures ok ==> ms != [] && MembersReadable(ms) && text == old(text) + WriteMembers(ms, true, indent, depth)
      decreases Objects.Budget(depth, defaultDepth), 8
    {
      hide Balanced, FullLists, Protected, Went, SafeIn, Objects.Budget, Alive, SameObjects, Sorting.Sort, WriteMembers, MembersReadable;
      ms := [];
      ghost var h0, s0, mine := py.heap, py.steps, py.mine;
      SafeAlive(id);
      var items := HoldPairs(id);
      WentNowhere(guard, h0, py.heap, s0);
      ghost var h1, s1 := py.heap, py.steps;
      var keyed;
      ok, keyed := KeyTexts(items, mine);
      if ok {
        var sorted := Sorting.SortBy(keyed);
        StillPairs(keyed, items);
        SameNumber(keyed);
        ok, ms := WriteSorted(sorted, items, mine);
        WentTwice(guard, h0, h1, py.heap, s0, s1, py.steps);
      }
      ghost var h2, s2 := py.heap, py.steps;
      StillThere(guard, h0, h2, s0, s2, id, items);
      Release(id, items, mine);
      WentTwice(guard, h0, h2, py.heap, s0, s2, py.steps);
    }

    method HoldPairs(id: Id) returns (items: seq<(Id, Id)>)
      requires Valid() && Alive(py.heap, id) && py.heap[id].obj.ODict?
      modifies py`heap, py`mine
      ensures Valid() && items == old(py.heap)[id].obj.pairs && py.mine == PairRefs(items) + old(py.mine)
      ensures SameObjects(old(py.heap), py.heap)
    {
      hide Balanced, FullLists, PairRefs, Count;
      ghost var h0, mine := py.heap, py.mine;
      var o := py.Read(id);
      items := [];
      NoPairRefs(mine);
      for pos := 0 to |o.pairs|
        invariant Valid() && items == o.pairs[..pos] && py.mine == PairRefs(items) + mine
        invariant SameObjects(h0, py.heap)
      {
        var (key, value) := o.pairs[pos];
        PairAlive(id, pos);
        py.Take(key);
        py.Take(value);
        HoldOneMore(items, key, value, mine);
        items := items + [(key, value)];
      }
    }

    /** The references just taken are counted with the pairs. */
    ghost method HoldOneMore(items: seq<(Id, Id)>, key: Id, value: Id, before: seq<Id>)
      requires Valid() && py.mine == [value] + ([key] + (PairRefs(items) + before))
      modifies py`mine
      ensures Valid() && py.mine == PairRefs(items + [(key, value)]) + before
    {
      hide Balanced, FullLists, PairRefs, Count;
      var now := PairRefs(items + [(key, value)]) + before;
      var rest := py.args + py.others;
      forall c ensures Count(py.mine + rest, c) == Count(now + rest, c) {
        CountConcat(py.mine, rest, c);
        CountConcat(now, rest, c);
        CountCons(value, [key] + (PairRefs(items) + before), c);
        CountCons(key, PairRefs(items) + before, c);
        CountConcat(PairRefs(items), before, c);
        CountConcat(PairRefs(items + [(key, value)]), before, c);
        PairRefsAppend(items, key, value, c);
      }
      HeldAnyOrder(py.heap, py.mine + rest, now + rest);
      py.mine := now;
    }

    lemma PairHeld(items: seq<(Id, Id)>, before: seq<Id>, pair: (Id, Id))
      requires Valid() && py.mine == PairRefs(items) + before && pair in items
      ensures Alive(py.heap, pair.0) && Alive(py.heap, pair.1) && pair.0 in py.mine && pair.1 in py.mine
    {
      hide Balanced, FullLists, PairRefs;
      var k :| 0 <= k < |items| && items[k] == pair;
      PairRefsHas(items, k);
      MineAlive(pair.0);
      MineAlive(pair.1);
    }

    /** The texts of all keys, or the refusal of one that is not a string or has a surrogate. */
    method KeyTexts(items: seq<(Id, Id)>, ghost before: seq<Id>) returns (ok: bool, keyed: seq<Sorting.Keyed<(Id, Id)>>)
      requires Valid() && py.mine == PairRefs(items) + before
      ensures forall k | 0 <= k < |keyed| :: Sorting.KeyedOk(keyed[k]) && keyed[k].value in items
      ensures ok ==> |keyed| == |items|
    {
      hide Balanced, FullLists, PairRefs, SurrogateFree;
      keyed := [];
      for i := 0 to |items|
        invariant |keyed| == i
        invariant forall k | 0 <= k < |keyed| :: Sorting.KeyedOk(keyed[k]) && keyed[k].value in items
      {
        PairHeld(items, before, items[i]);
        var o := py.Read(items[i].0);
        if !o.OStr? || !SurrogateFree(o.cps) {
          return false, keyed;
        }
        keyed := keyed + [Sorting.Keyed(None, o.cps, items[i])];
      }
      ok := true;
    }

    method WriteSorted(sorted: seq<Sorting.Keyed<(Id, Id)>>, ghost items: seq<(Id, Id)>, ghost before: seq<Id>) returns (ok: bool, ghost ms: seq<Member>)
      requires Valid() && py.mine == PairRefs(items) + before && sorted != []
      requires forall k | 0 <= k < |sorted| :: sorted[k].value in items
      modifies this, py
      ensures Valid() && py.mine == old(py.mine) && defaultDepth == old(defaultDepth) && (ok ==> depth == old(depth))
      ensures Went(guard, old(py.heap), py.heap, old(py.steps), py.steps)
      ensures ok ==> ms != [] && MembersReadable(ms) && text == old(text) + WriteMembers(ms, true, indent, depth)
      decreases Objects.Budget(depth, defaultDepth), 7
    {
      hide Balanced, FullLists, PairRefs, Protected, Went, Objects.Budget, Ran, Write, WriteMembers, KeyText, RoundTrip.Readable, SurrogateFree;
      ghost var h0, s0, mine, start := py.heap, py.steps, py.mine, text;
      ms := [];
      NothingYet(start, indent, depth);
      WentNowhere(guard, h0, h0, s0);
      for i := 0 to |sorted|
        invariant Valid() && py.mine == mine && defaultDepth == old(defaultDepth) && depth == old(depth)
        invariant Went(guard, h0, py.heap, s0, py.steps)
        invariant |ms| == i && MembersReadable(ms) && text == start + WriteMembers(ms, true, indent, depth)
      {
        var (key, value) := sorted[i].value;
        PairHeld(items, before, sorted[i].value);
        var k := py.Read(key);
        if !k.OStr? || !SurrogateFree(k.cps) {
          return false, ms;
        }
        MineAlive(value);
        ghost var h1, s1 := py.heap, py.steps;
        text := text + KeyText(k.cps, i == 0, indent, depth);
        ghost var v;
        ok, v := Serialize(value);
        WentTwice(guard, h0, h1, py.heap, s0, s1, py.steps);
        if !ok {
          return;
        }
        AppendMember(start, ms, Member(k.cps, v), indent, depth);
        ms := ms + [Member(k.cps, v)];
      }
      ok := true;
    }

    /** Gives every pair back; without a guard the dict still holds them, so nothing is freed. */
    method Release(id: Id, items: seq<(Id, Id)>, ghost before: seq<Id>)
      requires Valid() && py.mine == PairRefs(items) + before
      requires !guard ==> id < |py.heap| && py.heap[id].obj == ODict(items)
      modifies py
      ensures Valid() && py.mine == before && Went(guard, old(py.heap), py.heap, old(py.steps), py.steps)
    {
      hide Balanced, FullLists, PairRefs, Count, Went;
      ghost var h0, s0 := py.heap, py.steps;
      WentNowhere(guard, h0, h0, s0);
      assert items[0..] == items;
      for k := 0 to |items|
        invariant Valid() && py.mine == PairRefs(items[k..]) + before
        invariant Went(guard, h0, py.heap, s0, py.steps)
      {
        ghost var h1, s1 := py.heap, py.steps;
        StillHas(guard, h0, h1, s0, s1, id, items);
        assert items[k..][1..] == items[k + 1..];
        ReleasePair(id, items[k], items, k, before);
        WentTwice(guard, h0, h1, py.heap, s0, s1, py.steps);
      }
      assert items[|items|..] == [];
      NoPairRefs(before);
    }

    /** Value first, then key. */
    method ReleasePair(id: Id, pair: (Id, Id), ghost items: seq<(Id, Id)>, ghost k: nat, ghost before: seq<Id>)
      requires Valid() && k < |items| && pair == items[k] && py.mine == PairRefs(items[k..]) + before
      requires !guard ==> id < |py.heap| && py.heap[id].obj == ODict(items)
      modifies py
      ensures Valid() && py.mine == PairRefs(items[k + 1..]) + before
      ensures Went(guard, old(py.heap), py.heap, old(py.steps), py.steps)
    {
      hide Balanced, FullLists, PairRefs, Count, Ran;
      ghost var h0, s0, left := py.heap, py.steps, PairRefs(items[k + 1..]) + before;
      FirstPair(items, k, before);
      if !guard { HeldTwice(id, items, k); }
      forall c ensures Count(py.mine, c) == Count([pair.1] + ([pair.0] + left), c) {
        TwoFirst(pair.0, pair.1, left, c);
      }
      py.GiveBack(pair.1, [pair.0] + left, guard);
      ghost var h1, s1 := py.heap, py.steps;
      if !guard { HeldTwice(id, items, k); }
      py.GiveBack(pair.0, left, guard);
      RanTwice(h0, h1, py.heap, s0, s1, py.steps);
    }

    /** What both the encoder and a dict hold has a count above one. */
    lemma HeldTwice(id: Id, items: seq<(Id, Id)>, k: nat)
      requires Valid() && id < |py.heap| && py.heap[id].obj == ODict(items) && k < |items|
      ensures items[k].1 in py.mine ==> items[k].1 < |py.heap| && py.heap[items[k].1].rc > 1
      ensures items[k].0 in py.mine ==> items[k].0 < |py.heap| && py.heap[items[k].0].rc > 1
    {
      hide Balanced, FullLists, PairRefs;
      PairRefsHas(items, k);
      if items[k].0 in py.mine { CountedTwice(id, items[k].0); }
      if items[k].1 in py.mine { CountedTwice(id, items[k].1); }
    }

    lemma CountedTwice(id: Id, x: Id)
      requires Valid() && id < |py.heap| && x in Refs(py.heap[id].obj) && x in py.mine
      ensures x < |py.heap| && py.heap[x].rc > 1
    {
      hide FullLists, Refs, Count, InEdges;
      var held := py.mine + (py.args + py.others);
      assert BalancedAt(py.heap, held, x);
      CountHas(held, x);
      InEdgesHas(py.heap, id, x);
    }

    /** The value of one member, its key already written. */
    method OneMember(key: Id, value: Id) returns (ok: bool, ghost v: Json)
      requires Valid() && Alive(py.heap, key) && Alive(py.heap, value)
      modifies this, py
      ensures Valid() && py.mine == old(py.mine) && defaultDepth == old(defaultDepth) && (ok ==> depth == old(depth))
      ensures Went(guard, old(py.heap), py.heap, old(py.steps), py.steps)
      ensures Said(old(text), ok, v)
      decreases Objects.Budget(depth, defaultDepth), 7
    {
      hide Balanced, FullLists, Protected, Ran, Count, Objects.Budget, Write, RoundTrip.Readable;
      var o := py.Read(value);
      if !guard || RunsNoPython(o, py.types(value)) {
        ok, v := Serialize(value);
        return;
      }
      ghost var h0, s0, mine := py.heap, py.steps, py.mine;
      py.Take(key);
      ghost var h1, s1 := py.heap, py.steps;
      WentNowhere(guard, h0, h1, s0);
      ok, v := Guarded(value);
      RanTwice(h0, h1, py.heap, s0, s1, py.steps);
      h1, s1 := py.heap, py.steps;
      py.GiveBack(key, mine, guard);
      RanTwice(h0, h1, py.heap, s0, s1, py.steps);
    }
  }

  predicate AllReadable(vs: seq<Json>) {
    forall k | 0 <= k < |vs| :: RoundTrip.Readable(vs[k])
  }

  predicate MembersReadable(ms: seq<Member>) {
    forall k | 0 <= k < |ms| :: SurrogateFree(ms[k].key) && RoundTrip.Readable(ms[k].value)
  }

  lemma ArrayReadable(vs: seq<Json>)
    requires AllReadable(vs)
    ensures RoundTrip.Readable(Arr(vs))
  {}

  lemma ObjectReadable(ms: seq<Member>)
    requires MembersReadable(ms)
    ensures RoundTrip.Readable(Obj(ms))
  {
    hide SurrogateFree;
  }

  /** Text that needs no escapes, as a JSON string. */
  lemma PlainText(inner: seq<byte>)
    requires Numpy.Plain(inner)
    ensures RoundTrip.Readable(Str(inner))
    ensures forall ind, level :: Write(Str(inner), ind, level) == [QUOTE] + inner + [QUOTE]
  {
    Numpy.PlainIsNotEscaped(inner);
  }

  /** Any text of digits and punctuation. */
  method AnyPlain() returns (s: seq<byte>)
    ensures Numpy.Plain(s)
  {
    s := [];
    var n := Any();
    for i := 0 to n
      invariant Numpy.Plain(s)
    {
      var b := Any();
      if b < 256 && Numpy.PlainByte(b) {
        s := s + [b];
      }
    }
  }

  /** Any value that numpy's elements and arrays of at most `nd` dimensions can be written as. */
  method AnyValue(nd: nat) returns (v: Json)
    ensures RoundTrip.Readable(v)
  {
    hide Rfc8259.RealToken, Numpy.Plain;
    var choice := Any();
    v := Null;
    if choice == 0 {
      v := Bool(true);
    } else if choice == 1 {
      v := Bool(false);
    } else if choice == 2 {
      var i: int := *;
      v := Int(i);
    } else if choice == 3 {
      var s := AnyPlain();
      if Rfc8259.RealToken(s) {
        v := Real(s);
      }
    } else if choice == 4 {
      var s := AnyPlain();
      PlainText(s);
      v := Str(s);
    } else if nd > 0 {
      v := AnyRows(nd);
    }
  }

  method AnyRows(nd: nat) returns (v: Json)
    requires nd > 0
    ensures RoundTrip.Readable(v)
    decreases nd, 0
  {
    hide RoundTrip.Readable;
    var items: seq<Json> := [];
    var n := Any();
    for i := 0 to n
      invariant AllReadable(items)
    {
      var x := AnyValue(nd - 1);
      items := items + [x];
    }
    ArrayReadable(items);
    v := Arr(items);
  }

  lemma SameNumber(keyed: seq<Sorting.Keyed<(Id, Id)>>)
    requires forall k | 0 <= k < |keyed| :: Sorting.KeyedOk(keyed[k])
    ensures |Sorting.Sort(keyed)| == |keyed|
  {
    hide Sorting.Sort, Sorting.KeyedOk;
    Sorting.SortIsOrderedPermutation(keyed);
    assert |multiset(Sorting.Sort(keyed))| == |multiset(keyed)|;
  }

  lemma NoPairRefs(before: seq<Id>)
    ensures PairRefs([]) + before == before
  {}

  lemma FirstPair(items: seq<(Id, Id)>, k: nat, before: seq<Id>)
    requires k < |items|
    ensures PairRefs(items[k..]) + before == [items[k].0] + ([items[k].1] + (PairRefs(items[k + 1..]) + before))
  {
    assert items[k..][1..] == items[k + 1..];
  }

  /** Sorting keeps to the pairs it was given. */
  lemma StillPairs(keyed: seq<Sorting.Keyed<(Id, Id)>>, items: seq<(Id, Id)>)
    requires forall k | 0 <= k < |keyed| :: Sorting.KeyedOk(keyed[k]) && keyed[k].value in items
    ensures forall k | 0 <= k < |Sorting.Sort(keyed)| :: Sorting.Sort(keyed)[k].value in items
  {
    hide Sorting.Sort, Sorting.KeyedOk;
    Sorting.SortIsOrderedPermutation(keyed);
    forall k | 0 <= k < |Sorting.Sort(keyed)| ensures Sorting.Sort(keyed)[k].value in items {
      assert Sorting.Sort(keyed)[k] in multiset(Sorting.Sort(keyed));
      assert Sorting.Sort(keyed)[k] in keyed;
    }
  }

  /** Without a guard nothing has changed the dict. */
  lemma StillThere(guard: bool, h: Heap, h': Heap, s: nat, s': nat, id: Id, items: seq<(Id, Id)>)
    requires Went(guard, h, h', s, s') && id < |h| && h[id].obj == ODict(items)
    ensures !guard ==> id < |h'| && h'[id].obj == ODict(items)
  {}

  lemma StillHas(guard: bool, h: Heap, h': Heap, s: nat, s': nat, id: Id, items: seq<(Id, Id)>)
    requires Went(guard, h, h', s, s') && (!guard ==> id < |h| && h[id].obj == ODict(items))
    ensures !guard ==> id < |h'| && h'[id].obj == ODict(items)
  {}

  lemma StepsDown(guard: bool, h: Heap, h': Heap, s: nat, s': nat)
    requires Went(guard, h, h', s, s')
    ensures s' <= s
  {}

  lemma TwoFirst(a: Id, b: Id, rest: seq<Id>, c: Id)
    ensures Count([a] + ([b] + rest), c) == Count([b] + ([a] + rest), c)
  {
    hide Count;
    CountCons(a, [b] + rest, c);
    CountCons(b, rest, c);
    CountCons(b, [a] + rest, c);
    CountCons(a, rest, c);
  }

  /**
   * One call of `dumps`. Every object it reads is alive when it is read, whatever Python code does
   * in between (each read demands it); on return, good or bad, it has given back exactly the
   * references it took; and without `default`, numpy or datetime types no Python code runs, so
   * every object is as it was. Bytes that are returned are one document of RFC 8259, whatever
   * Python code has done to the containers while they were walked.
   */
  method Dumps(py: Runtime, obj: Id, hasDefault: bool, numpy: bool, passthroughSubclass: bool, passthroughDatetime: bool,
               sortKeys: bool, indent: bool, appendNewline: bool, dt: bool)
    returns (result: Option<seq<byte>>, ghost v: Json)
    requires py.Valid() && py.mine == [] && obj in py.args
    modifies py
    ensures py.Valid() && py.mine == []
    ensures Evolved(old(py.heap), py.heap)
    ensures !hasDefault && !numpy && !dt ==> SameObjects(old(py.heap), py.heap) && py.steps == old(py.steps)
    ensures result.Some? ==> Rfc8259.Parse(result.value) == Some(v)
    ensures result.Some? ==>
              exists text :: Layout.LaidOut(text, indent) && result.value == text + if appendNewline then [0x0A] else []
  {
    hide Balanced, FullLists, SameObjects, Evolved, Rfc8259.Parse, Write, RoundTrip.Readable, Layout.LaidOut;
    var walker := new Walker(py, hasDefault, numpy, passthroughSubclass, passthroughDatetime, sortKeys, indent, dt);
    HeldAlive(py.heap, py.mine + (py.args + py.others), obj);
    RootProtected(py.heap, py.mine + py.args, obj);
    var ok;
    ok, v := walker.Serialize(obj);
    if !ok {
      return None, v;
    }
    var tail := if appendNewline then [NEWLINE] else [];
    assert [] + Write(v, indent, 0) == Write(v, indent, 0);
    RoundTrip.DocumentReads(v, indent, tail);
    Layout.DocumentLaidOut(v, indent);
    result := Some(walker.text + tail);
  }
}
