/** The recursive serializer behind `dumps` (src/encode.rs), over a finite and possibly cyclic object graph. */
module Encode {
  import opened Common
  import opened Utf8
  import opened Out
  import opened JsonText
  import opened Objects
  import opened Sorting
  import Strings
  import Datetime
  import IsoText
  import Numpy
  import NumpyWalk

  // ---- what the loops keep -----------------------------------------------------------------

  /** The values found so far followed by what the rest gives. */
  function Prepend<T>(done: seq<T>, rest: Result<seq<T>>): Result<seq<T>> {
    match rest
    case Ok(vs) => Ok(done + vs)
    case Err(e) => Err(e)
  }

  lemma ItemsStart(env: Env, items: seq<Ref>, depth: nat, dd: nat)
    requires EnvOk(env) && Closed(env.g, items) && depth <= MAX_DEPTH && dd <= MAX_DEFAULT_DEPTH
    ensures ItemsValue(env, items, depth, dd) == Prepend([], ItemsValue(env, items[0..], depth, dd))
  {
    hide ItemsValue, EnvOk;
    assert items[0..] == items;
    match ItemsValue(env, items, depth, dd)
    case Ok(vs) => assert [] + vs == vs;
    case Err(_) =>
  }

  lemma ItemsStep(env: Env, items: seq<Ref>, i: nat, vs: seq<Json>, depth: nat, dd: nat)
    requires EnvOk(env) && Closed(env.g, items) && depth <= MAX_DEPTH && dd <= MAX_DEFAULT_DEPTH && i < |items|
    requires ItemsValue(env, items, depth, dd) == Prepend(vs, ItemsValue(env, items[i..], depth, dd))
    ensures var v := ValueOf(env, items[i], depth, dd);
            && (v.Err? ==> ItemsValue(env, items, depth, dd) == Err(v.error))
            && (v.Ok? ==>
                 ItemsValue(env, items, depth, dd) == Prepend(vs + [v.value], ItemsValue(env, items[i + 1..], depth, dd)))
  {
    hide ValueOf, EnvOk;
    assert items[i..][1..] == items[i + 1..] && items[i..][0] == items[i];
    var v, rest := ValueOf(env, items[i], depth, dd), ItemsValue(env, items[i + 1..], depth, dd);
    if v.Ok? && rest.Ok? {
      assert vs + ([v.value] + rest.value) == (vs + [v.value]) + rest.value;
    }
  }

  lemma ItemsEnd(env: Env, items: seq<Ref>, vs: seq<Json>, depth: nat, dd: nat)
    requires EnvOk(env) && Closed(env.g, items) && depth <= MAX_DEPTH && dd <= MAX_DEFAULT_DEPTH
    requires ItemsValue(env, items, depth, dd) == Prepend(vs, ItemsValue(env, items[|items|..], depth, dd))
    ensures ItemsValue(env, items, depth, dd) == Ok(vs)
  {
    hide EnvOk;
    assert vs + [] == vs;
  }

  lemma MembersStart(env: Env, pairs: seq<(Ref, Ref)>, depth: nat, dd: nat)
    requires EnvOk(env) && ClosedPairs(env.g, pairs) && depth <= MAX_DEPTH && dd <= MAX_DEFAULT_DEPTH
    ensures MembersValue(env, pairs, depth, dd) == Prepend([], MembersValue(env, pairs[0..], depth, dd))
  {
    hide MembersValue, EnvOk;
    assert pairs[0..] == pairs;
    match MembersValue(env, pairs, depth, dd)
    case Ok(ms) => assert [] + ms == ms;
    case Err(_) =>
  }

  lemma MembersStep(env: Env, pairs: seq<(Ref, Ref)>, i: nat, ms: seq<Member>, depth: nat, dd: nat)
    requires EnvOk(env) && ClosedPairs(env.g, pairs) && depth <= MAX_DEPTH && dd <= MAX_DEFAULT_DEPTH && i < |pairs|
    requires MembersValue(env, pairs, depth, dd) == Prepend(ms, MembersValue(env, pairs[i..], depth, dd))
    ensures var key, v := KeyChars(env.g, pairs[i].0), ValueOf(env, pairs[i].1, depth, dd);
            && (key.Err? ==> MembersValue(env, pairs, depth, dd) == Err(key.error))
            && (key.Ok? && v.Err? ==> MembersValue(env, pairs, depth, dd) == Err(v.error))
            && (key.Ok? && v.Ok? ==>
                 var rest := MembersValue(env, pairs[i + 1..], depth, dd);
                 MembersValue(env, pairs, depth, dd) == Prepend(ms + [Member(key.value, v.value)], rest))
  {
    hide ValueOf, KeyChars, EnvOk;
    assert pairs[i..][1..] == pairs[i + 1..] && pairs[i..][0] == pairs[i];
    var key, v, rest := KeyChars(env.g, pairs[i].0), ValueOf(env, pairs[i].1, depth, dd), MembersValue(env, pairs[i + 1..], depth, dd);
    if key.Ok? && v.Ok? && rest.Ok? {
      var m := Member(key.value, v.value);
      assert ms + ([m] + rest.value) == (ms + [m]) + rest.value;
    }
  }

  lemma MembersEnd(env: Env, pairs: seq<(Ref, Ref)>, ms: seq<Member>, depth: nat, dd: nat)
    requires EnvOk(env) && ClosedPairs(env.g, pairs) && depth <= MAX_DEPTH && dd <= MAX_DEFAULT_DEPTH
    requires MembersValue(env, pairs, depth, dd) == Prepend(ms, MembersValue(env, pairs[|pairs|..], depth, dd))
    ensures MembersValue(env, pairs, depth, dd) == Ok(ms)
  {
    hide EnvOk;
    assert ms + [] == ms;
  }

  // ---- texts -------------------------------------------------------------------------------

  /**
   * What a call did to the text: it succeeds exactly when the object has a value, and has then
   * appended the text of that value; a failed call leaves what was there before as a prefix.
   */
  ghost predicate Wrote(before: seq<byte>, after: seq<byte>, ok: bool, raised: Option<Error>, v: Result<Json>, ind: bool, level: nat) {
    && ok == v.Ok?
    && (!ok ==> raised == Some(v.error))
    && before <= after
    && (ok ==> after == before + Write(v.value, ind, level))
  }

  lemma EmptyItems(env: Env, depth: nat, dd: nat)
    requires EnvOk(env) && depth <= MAX_DEPTH && dd <= MAX_DEFAULT_DEPTH
    ensures ItemsValue(env, [], depth, dd) == Ok([])
  {
    hide EnvOk;
  }

  lemma EmptyMembers(env: Env, depth: nat, dd: nat)
    requires EnvOk(env) && depth <= MAX_DEPTH && dd <= MAX_DEFAULT_DEPTH
    ensures MembersValue(env, [], depth, dd) == Ok([])
    ensures WrittenPairs(env.g, [], env.opts) == Ok([])
  {
    hide EnvOk;
  }

  lemma WrittenUnsorted(g: map<Ref, PyObj>, pairs: seq<(Ref, Ref)>, opts: Opts)
    requires ClosedPairs(g, pairs) && !opts.sortKeys
    ensures WrittenPairs(g, pairs, opts) == Ok(pairs)
  {}

  lemma DatetimeInner(parts: Datetime.Parts, offset: Option<int>, opts: Opts) returns (inner: seq<byte>)
    requires IsoText.FieldsFit(parts) && (offset.Some? ==> -Datetime.US_PER_DAY < offset.value < Datetime.US_PER_DAY)
    ensures Numpy.Plain(inner) && IsoText.DatetimeText(parts, offset, opts) == [0x22] + inner + [0x22]
  {
    hide IsoText.YmdText, IsoText.HmsText, IsoText.OffsetText, Numpy.Plain;
    var a := IsoText.YmdText(parts.y, parts.mo, parts.d);
    var b := IsoText.HmsText(parts.h, parts.mi, parts.s, parts.us, opts.omitMicroseconds);
    var c := if offset.Some? then IsoText.OffsetText(offset.value, opts.utcZ) else [];
    Numpy.YmdPlain(parts.y, parts.mo, parts.d);
    Numpy.HmsPlain(parts.h, parts.mi, parts.s, parts.us, opts.omitMicroseconds);
    if offset.Some? { OffsetPlain(offset.value, opts.utcZ); }
    Numpy.TeePlain();
    Numpy.JoinPlain(a, b, c);
    inner := a + [0x54] + b + c;
  }

  /** A datetime's text, quotes and all, is that of its value as a JSON string. */
  lemma DatetimeIsString(parts: Datetime.Parts, offset: Option<int>, opts: Opts)
    requires IsoText.FieldsFit(parts) && (offset.Some? ==> -Datetime.US_PER_DAY < offset.value < Datetime.US_PER_DAY)
    ensures var t := IsoText.DatetimeText(parts, offset, opts); |t| >= 2 && Strings.Quoted(t[1..|t| - 1]) == t
  {
    hide IsoText.DatetimeText, Numpy.Plain;
    var inner := DatetimeInner(parts, offset, opts);
    Numpy.PlainIsNotEscaped(inner);
    var t := IsoText.DatetimeText(parts, offset, opts);
    assert t[1..|t| - 1] == inner;
  }

  lemma OffsetPlain(totalUs: int, utcZ: bool)
    ensures Numpy.Plain(IsoText.OffsetText(totalUs, utcZ))
  {
    hide IsoText.Digits, IsoText.OffsetSecondsText;
    var m := if totalUs < 0 then -totalUs else totalUs;
    var r := m % 3_600_000_000;
    Numpy.DigitsPlain(0, 2);
    Numpy.DigitsPlain(m / 3_600_000_000, 2);
    Numpy.DigitsPlain(r / 60_000_000, 2);
    OffsetSecondsPlain(r % 60_000_000 / 1_000_000, r % 60_000_000 % 1_000_000);
  }

  lemma OffsetSecondsPlain(ss: nat, us: nat)
    ensures Numpy.Plain(IsoText.OffsetSecondsText(ss, us))
  {
    hide IsoText.Digits;
    Numpy.DigitsPlain(ss, 2);
    Numpy.DigitsPlain(us, 6);
  }

  lemma KeyedStart(g: map<Ref, PyObj>, pairs: seq<(Ref, Ref)>)
    requires ClosedPairs(g, pairs)
    ensures KeyedPairs(g, pairs) == Prepend([], KeyedPairs(g, pairs[0..]))
  {
    hide KeyedPairs;
    assert pairs[0..] == pairs;
    match KeyedPairs(g, pairs)
    case Ok(s) => assert [] + s == s;
    case Err(_) =>
  }

  lemma KeyedStep(g: map<Ref, PyObj>, pairs: seq<(Ref, Ref)>, i: nat, keyed: seq<Keyed<(Ref, Ref)>>)
    requires ClosedPairs(g, pairs) && i < |pairs|
    requires KeyedPairs(g, pairs) == Prepend(keyed, KeyedPairs(g, pairs[i..]))
    ensures var key := KeyChars(g, pairs[i].0);
            && (key.Err? ==> KeyedPairs(g, pairs) == Err(key.error))
            && (key.Ok? ==>
                 var rest := KeyedPairs(g, pairs[i + 1..]);
                 KeyedPairs(g, pairs) == Prepend(keyed + [KeyedPair(g, pairs[i], key.value)], rest))
  {
    hide SurrogateFree;
    assert pairs[i..][1..] == pairs[i + 1..] && pairs[i..][0] == pairs[i];
    var key, rest := KeyChars(g, pairs[i].0), KeyedPairs(g, pairs[i + 1..]);
    if key.Ok? && rest.Ok? {
      var x := KeyedPair(g, pairs[i], key.value);
      assert keyed + ([x] + rest.value) == (keyed + [x]) + rest.value;
    }
  }

  lemma KeyedEnd(g: map<Ref, PyObj>, pairs: seq<(Ref, Ref)>, keyed: seq<Keyed<(Ref, Ref)>>)
    requires ClosedPairs(g, pairs)
    requires KeyedPairs(g, pairs) == Prepend(keyed, KeyedPairs(g, pairs[|pairs|..]))
    ensures KeyedPairs(g, pairs) == Ok(keyed)
  {
    assert keyed + [] == keyed;
  }

  lemma KeyedPairOk(g: map<Ref, PyObj>, pair: (Ref, Ref))
    requires pair.0 in g && g[pair.0].node.NStr? && NodeOk(g, g[pair.0].node) && SurrogateFree(g[pair.0].node.cps)
    ensures KeyedOk(KeyedPair(g, pair, g[pair.0].node.cps))
  {}

  /** Text that needs no escapes, between quotes. */
  lemma QuotedPlain(start: seq<byte>, text: seq<byte>)
    requires Numpy.Plain(text)
    ensures start + [QUOTE] + text + [QUOTE] == start + Strings.Quoted(text)
  {
    hide Numpy.Plain, Strings.EscapeText;
    Numpy.PlainIsNotEscaped(text);
  }

  lemma TimePlain(parts: Datetime.Parts, offset: Option<int>, opts: Opts)
    requires IsoText.FieldsFit(parts)
    ensures Numpy.Plain(TimeText(parts, offset, opts))
  {
    hide IsoText.HmsText, IsoText.OffsetText;
    Numpy.HmsPlain(parts.h, parts.mi, parts.s, parts.us, opts.omitMicroseconds);
    if offset.Some? { OffsetPlain(offset.value, false); }
  }

  class Encoder {
    const out: OutputBuffer
    const env: Env
    var depth: nat
    var defaultDepth: nat
    /** The exception that is set when a call fails. */
    var raised: Option<Error>

    constructor (out: OutputBuffer, env: Env)
      ensures this.out == out && this.env == env && depth == 0 && defaultDepth == 0
    {
      this.out, this.env, depth, defaultDepth, raised := out, env, 0, 0, None;
    }

    /** Never more than 254 containers are open, nor more than 255 calls of `default` pending. */
    ghost predicate Valid()
      reads this, out
    {
      && out.Valid() && this !in out.Repr
      && depth <= MAX_DEPTH && defaultDepth <= MAX_DEFAULT_DEPTH
      && EnvOk(env)
    }

    /** Opens a container unless 254 are open. */
    method Enter() returns (ok: bool)
      requires Valid()
      modifies this`depth, this`raised
      ensures !ok ==> raised == Some(RecursionLimit)
      ensures ok <==> old(depth) < 254
      ensures depth == if ok then old(depth) + 1 else old(depth)
    {
      if depth >= MAX_DEPTH {
        raised := Some(RecursionLimit);
        return false;
      }
      depth := depth + 1;
      ok := true;
    }

    /** Writes any object; `depth` is back where it was if it succeeds. */
    method Serialize(r: Ref) returns (ok: bool)
      requires Valid() && r in env.g
      modifies this, out.Repr
      ensures Valid() && fresh(out.Repr - old(out.Repr)) && defaultDepth == old(defaultDepth)
      ensures Wrote(old(out.Contents()), out.Contents(), ok, raised, ValueOf(env, r, old(depth), old(defaultDepth)), env.opts.indent2, old(depth))
      ensures ok ==> depth == old(depth)
      decreases Budget(depth, defaultDepth), 5, 0
    {
      hide Write, ListValue, DictValue, DefaultValue, SurrogateFree, Strings.Holds, Strings.Quoted, NumpyWalk.Readable, NumpyWalk.Tree;
      var o := env.g[r];
      assert NodeOk(env.g, o.node);
      if !o.exact {
        ok := SerializeOther(r);
      } else {
        match o.node
        case NStr(cps, text) => ok := WriteText(cps, text);
        case NInt(i) => ok := WriteInt(i);
        case NFloat(_) => ok := WriteScalar(r);
        case NBool(_) => ok := WriteScalar(r);
        case NNull => ok := WriteScalar(r);
        case NDict(pairs) => ok := Dict(pairs);
        case NList(items) => ok := List(items);
        case NTuple(items) => ok := Tuple(items);
        case _ => ok := SerializeOther(r);
      }
    }

    /** A float, a boolean or `None`: text of a fixed form. */
    method WriteScalar(r: Ref) returns (ok: bool)
      requires Valid() && r in env.g && env.g[r].exact
      requires env.g[r].node.NFloat? || env.g[r].node.NBool? || env.g[r].node.NNull?
      modifies this`raised, out.Repr
      ensures Valid() && fresh(out.Repr - old(out.Repr))
      ensures Wrote(old(out.Contents()), out.Contents(), ok, raised, ValueOf(env, r, depth, defaultDepth), env.opts.indent2, depth)
    {
      hide ListValue, DictValue, DefaultValue, NumpyWalk.Tree, EnvOk;
      match env.g[r].node {
        case NFloat(None) => out.ExtendFromSlice(NULL);
        case NFloat(Some(token)) => out.ExtendFromSlice(token);
        case NBool(b) => out.ExtendFromSlice(if b then TRUE else FALSE);
        case NNull => out.ExtendFromSlice(NULL);
      }
      ok := true;
    }

    method WriteText(cps: seq<codepoint>, text: Strings.StrText) returns (ok: bool)
      requires Valid() && Strings.Holds(text, cps)
      modifies this`raised, out.Repr
      ensures Valid() && fresh(out.Repr - old(out.Repr))
      ensures Wrote(old(out.Contents()), out.Contents(), ok, raised,
                    if SurrogateFree(cps) then Ok(Str(cps)) else Err(Surrogates), env.opts.indent2, depth)
    {
      hide Strings.Holds, Strings.Quoted, SurrogateFree, EnvOk;
      ok := Strings.WriteStr(out, text, cps);
      if !ok {
        raised := Some(Surrogates);
      }
    }

    /** An integer of at most 64 bits is formatted here; with the 53-bit option it must be exact in a double. */
    method WriteInt(i: int) returns (ok: bool)
      requires Valid()
      modifies this`raised, out.Repr
      ensures Valid() && fresh(out.Repr - old(out.Repr))
      ensures Wrote(old(out.Contents()), out.Contents(), ok, raised, IntValue(i, env.opts, env.digitLimit), env.opts.indent2, depth)
    {
      hide NatText, EnvOk;
      if Datetime.I64_MIN <= i <= Datetime.I64_MAX {
        if env.opts.strictInteger && !(-LIMIT_53 <= i <= LIMIT_53) {
          raised := Some(Exceeds53Bits);
          return false;
        }
        out.ExtendFromSlice(IntText(i));
        return true;
      }
      if i > Datetime.I64_MAX && !env.opts.strictInteger && i <= U64_MAX {
        out.ExtendFromSlice(IntText(i));
        return true;
      }
      ok := WriteWideInt(i);
    }

    /** A wider integer is formatted by CPython, within its limit on digits. */
    method WriteWideInt(i: int) returns (ok: bool)
      requires Valid() && (!Fits64Bits(i) || (env.opts.strictInteger && !Fits53Bits(i)))
      modifies this`raised, out.Repr
      ensures Valid() && fresh(out.Repr - old(out.Repr))
      ensures Wrote(old(out.Contents()), out.Contents(), ok, raised, IntValue(i, env.opts, env.digitLimit), env.opts.indent2, depth)
    {
      hide NatText, EnvOk;
      if env.opts.strictInteger {
        raised := Some(Exceeds53Bits);
        return false;
      }
      var text := DecimalText(i, env.digitLimit);
      if text.None? {
        raised := Some(TooManyDigits);
        return false;
      }
      out.ExtendFromSlice(text.value);
      ok := true;
    }

    method WriteDatetime(parts: Datetime.Parts, offset: Option<int>) returns (ok: bool)
      requires Valid() && IsoText.FieldsFit(parts)
      requires offset.Some? ==> -Datetime.US_PER_DAY < offset.value < Datetime.US_PER_DAY
      modifies this`raised, out.Repr
      ensures Valid() && fresh(out.Repr - old(out.Repr))
      ensures Wrote(old(out.Contents()), out.Contents(), ok, raised, Ok(DatetimeValue(parts, offset, env.opts)), env.opts.indent2, depth)
    {
      hide IsoText.DatetimeText, EnvOk, Strings.Quoted;
      IsoText.WriteDatetime(out, parts, DatetimeOffset(offset, env.opts), env.opts);
      DatetimeIsString(parts, DatetimeOffset(offset, env.opts), env.opts);
      ok := true;
    }

    /** A `date`: no option applies. */
    method WriteDate(parts: Datetime.Parts) returns (ok: bool)
      requires Valid() && IsoText.FieldsFit(parts)
      modifies this`raised, out.Repr
      ensures Valid() && fresh(out.Repr - old(out.Repr))
      ensures Wrote(old(out.Contents()), out.Contents(), ok, raised, Ok(Str(DateText(parts))), env.opts.indent2, depth)
    {
      hide EnvOk, Strings.Quoted, IsoText.YmdText;
      ghost var start := out.Contents();
      out.Push(QUOTE);
      IsoText.WriteYmd(out, parts.y, parts.mo, parts.d);
      out.Push(QUOTE);
      Numpy.YmdPlain(parts.y, parts.mo, parts.d);
      QuotedPlain(start, DateText(parts));
      ok := true;
    }

    /** A `time`, with its own offset if it has one. */
    method WriteTime(parts: Datetime.Parts, offset: Option<int>) returns (ok: bool)
      requires Valid() && IsoText.FieldsFit(parts)
      modifies this`raised, out.Repr
      ensures Valid() && fresh(out.Repr - old(out.Repr))
      ensures Wrote(old(out.Contents()), out.Contents(), ok, raised, Ok(Str(TimeText(parts, offset, env.opts))), env.opts.indent2, depth)
    {
      hide EnvOk, Strings.Quoted, IsoText.HmsText, IsoText.OffsetText, OutputBuffer.Kept;
      ghost var start := out.Contents();
      var opts := env.opts.(naiveUtc := false, utcZ := false);
      out.Push(QUOTE);
      IsoText.WriteHms(out, parts, opts);
      ghost var hms := IsoText.HmsText(parts.h, parts.mi, parts.s, parts.us, env.opts.omitMicroseconds);
      if offset.Some? {
        IsoText.WriteOffset(out, offset.value, opts);
        assert start + [QUOTE] + hms + IsoText.OffsetText(offset.value, false)
            == start + [QUOTE] + TimeText(parts, offset, env.opts);
      } else {
        assert hms + [] == hms;
      }
      out.Push(QUOTE);
      TimePlain(parts, offset, env.opts);
      QuotedPlain(start, TimeText(parts, offset, env.opts));
      ok := true;
    }

    /** A `datetime`, a `date` or a `time`. */
    method DatetimeLike(r: Ref) returns (ok: bool)
      requires Valid() && r in env.g && env.g[r].exact && IsStamp(env.g[r].node) && !env.opts.passthroughDatetime
      modifies this`raised, out.Repr
      ensures Valid() && fresh(out.Repr - old(out.Repr))
      ensures Wrote(old(out.Contents()), out.Contents(), ok, raised, ValueOf(env, r, depth, defaultDepth), env.opts.indent2, depth)
    {
      hide Write, ListValue, DictValue, DefaultValue, SurrogateFree, NumpyWalk.Tree, DateText, TimeText, DatetimeValue;
      assert NodeOk(env.g, env.g[r].node);
      match env.g[r].node {
        case NDatetime(parts, offset) => ok := WriteDatetime(parts, offset);
        case NDate(parts) => ok := WriteDate(parts);
        case NTime(parts, offset) => ok := WriteTime(parts, offset);
      }
    }

    /** An array or a numpy scalar, written or declined; declined, the text is as it was before. */
    method WriteNumpy(r: Ref) returns (ok: bool)
      requires Valid() && r in env.g && env.g[r].exact && Native(env.g[r], env.opts)
      requires env.g[r].node.NArray? || env.g[r].node.NScalar?
      modifies this`raised, out.Repr
      ensures Valid() && fresh(out.Repr - old(out.Repr))
      ensures ok ==> Wrote(old(out.Contents()), out.Contents(), ok, raised, ValueOf(env, r, depth, defaultDepth), env.opts.indent2, depth)
      ensures !ok ==> out.Contents() == old(out.Contents())
      ensures !ok ==> ValueOf(env, r, depth, defaultDepth) == DefaultValue(env, r, depth, defaultDepth)
    {
      hide Write, ListValue, DictValue, DefaultValue, SurrogateFree, NumpyWalk.Tree, NumpyWalk.Readable, Numpy.ElemTree;
      assert NodeOk(env.g, env.g[r].node);
      match env.g[r].node {
        case NArray(nd, _) => ok := NumpyWalk.SerializeArray(out, env.opts, depth, nd);
        case NScalar(elem, unit, _) => ok := WriteElem(elem, unit);
      }
    }

    /** The element of a scalar, as one of an array would be written. */
    method WriteElem(elem: Numpy.Elem, unit: Option<Datetime.Dt64Unit>) returns (ok: bool)
      requires Valid() && ScalarOk(elem, unit)
      modifies out.Repr
      ensures Valid() && fresh(out.Repr - old(out.Repr))
      ensures ok <==> Numpy.ElemTree(elem, unit, env.opts).Some?
      ensures ok ==>
                out.Contents() == old(out.Contents()) + Write(Numpy.ElemTree(elem, unit, env.opts).value, env.opts.indent2, depth)
      ensures !ok ==> out.Contents() == old(out.Contents())
    {
      hide Numpy.ElemTree, Write, EnvOk;
      ok := Numpy.WriteElem(out, elem, unit, env.opts);
    }

    /** Everything past the exact built-ins: datetimes, subclasses, numpy and `default`. */
    method SerializeOther(r: Ref) returns (ok: bool)
      requires Valid() && r in env.g
      requires env.g[r].exact ==> IsStamp(env.g[r].node) || env.g[r].node.NArray? || env.g[r].node.NScalar? || env.g[r].node.NOther?
      modifies this, out.Repr
      ensures Valid() && fresh(out.Repr - old(out.Repr)) && defaultDepth == old(defaultDepth)
      ensures Wrote(old(out.Contents()), out.Contents(), ok, raised, ValueOf(env, r, old(depth), old(defaultDepth)), env.opts.indent2, old(depth))
      ensures ok ==> depth == old(depth)
      decreases Budget(depth, defaultDepth), 4, 0
    {
      hide Write, ListValue, DictValue, DefaultValue, SurrogateFree, Strings.Holds, Strings.Quoted, NumpyWalk.Readable, NumpyWalk.Tree;
      hide Numpy.ElemTree, IntValue, DateText, TimeText, DatetimeValue;
      var o := env.g[r];
      assert NodeOk(env.g, o.node);
      if o.exact && IsStamp(o.node) && !env.opts.passthroughDatetime {
        ok := DatetimeLike(r);
      } else if !env.opts.passthroughSubclass && !o.exact && o.node.NStr? {
        ok := WriteText(o.node.cps, o.node.text);
      } else if !env.opts.passthroughSubclass && !o.exact && o.node.NInt? {
        ok := WriteInt(o.node.i);
      } else if !env.opts.passthroughSubclass && !o.exact && o.node.NDict? {
        ok := Dict(o.node.pairs);
      } else if !env.opts.passthroughSubclass && !o.exact && o.node.NList? {
        ok := List(o.node.items);
      } else if env.opts.serializeNumpy && o.exact && IsNumpy(o.node) {
        ok := WriteNumpy(r);
        if !ok {
          // The text is back at the start: `default` is given the whole object.
          ok := CallDefault(r);
        }
      } else {
        ok := CallDefault(r);
      }
    }

    /** Serializes what `default` returns for the object, at most 255 calls deep. */
    method CallDefault(r: Ref) returns (ok: bool)
      requires Valid() && r in env.g
      modifies this, out.Repr
      ensures Valid() && fresh(out.Repr - old(out.Repr)) && defaultDepth == old(defaultDepth)
      ensures Wrote(old(out.Contents()), out.Contents(), ok, raised, DefaultValue(env, r, old(depth), old(defaultDepth)), env.opts.indent2, old(depth))
      ensures ok ==> depth == old(depth)
      decreases Budget(depth, defaultDepth), 2, 0
    {
      hide Write, ValueOf;
      if env.default.None? {
        raised := Some(NotSerializable);
        return false;
      }
      if defaultDepth >= MAX_DEFAULT_DEPTH {
        raised := Some(DefaultTooDeep);
        return false;
      }
      if r !in env.default.value {
        raised := Some(DefaultRaised);
        return false;
      }
      defaultDepth := defaultDepth + 1;
      ok := Serialize(env.default.value[r]);
      defaultDepth := defaultDepth - 1;
    }

    method List(items: seq<Ref>) returns (ok: bool)
      requires Valid() && Closed(env.g, items)
      modifies this, out.Repr
      ensures Valid() && fresh(out.Repr - old(out.Repr)) && defaultDepth == old(defaultDepth)
      ensures Wrote(old(out.Contents()), out.Contents(), ok, raised, ListValue(env, items, old(depth), old(defaultDepth)), env.opts.indent2, old(depth))
      ensures ok ==> depth == old(depth)
      decreases Budget(depth, defaultDepth), 3, 0
    {
      hide Write, ItemsValue, EnvOk;
      ghost var before := out.Contents();
      ok := Enter();
      if !ok {
        return;
      }
      if items == [] {
        EmptyItems(env, depth, defaultDepth);
        ArrayText(before, [], env.opts.indent2, depth - 1);
        depth := depth - 1;
        out.ExtendFromSlice([LBRACKET, RBRACKET]);
        return true;
      }
      ghost var vs;
      ok, vs := OpenList(items);
    }

    /** A list that has just been entered and has items: its brackets and what is between them. */
    method OpenList(items: seq<Ref>) returns (ok: bool, ghost vs: seq<Json>)
      requires Valid() && Closed(env.g, items) && items != [] && depth > 0
      modifies this, out.Repr
      ensures Valid() && fresh(out.Repr - old(out.Repr)) && defaultDepth == old(defaultDepth)
      ensures ok == ItemsValue(env, items, old(depth), old(defaultDepth)).Ok?
      ensures !ok ==> raised == Some(ItemsValue(env, items, old(depth), old(defaultDepth)).error)
      ensures ok ==> ItemsValue(env, items, old(depth), old(defaultDepth)) == Ok(vs) && depth == old(depth) - 1
      ensures ok ==> out.Contents() == old(out.Contents()) + Write(Arr(vs), env.opts.indent2, depth)
      ensures old(out.Contents()) <= out.Contents()
      decreases Budget(depth, defaultDepth), 8, 0
    {
      hide Write, WriteItems, Break, ItemsValue, EnvOk;
      ghost var before := out.Contents();
      ArrayText(before, [], env.opts.indent2, 0);
      out.Push(LBRACKET);
      ok, vs := Items(items);
      if !ok {
        return;
      }
      ArrayText(before, vs, env.opts.indent2, depth - 1);
      Close(RBRACKET);
    }

    /** A tuple is written as a list is. */
    method Tuple(items: seq<Ref>) returns (ok: bool)
      requires Valid() && Closed(env.g, items)
      modifies this, out.Repr
      ensures Valid() && fresh(out.Repr - old(out.Repr)) && defaultDepth == old(defaultDepth)
      ensures Wrote(old(out.Contents()), out.Contents(), ok, raised, ListValue(env, items, old(depth), old(defaultDepth)), env.opts.indent2, old(depth))
      ensures ok ==> depth == old(depth)
      decreases Budget(depth, defaultDepth), 3, 1
    {
      ok := List(items);
    }

    /** Leaves a container: the line break before its closing byte, and the byte. */
    method Close(b: byte)
      requires Valid() && depth > 0
      modifies this`depth, out.Repr
      ensures Valid() && fresh(out.Repr - old(out.Repr)) && depth == old(depth) - 1
      ensures out.Contents() == old(out.Contents()) + Break(env.opts.indent2, depth) + [b]
    {
      hide EnvOk;
      depth := depth - 1;
      ghost var text := out.Contents();
      if env.opts.indent2 {
        NewlineIndent(out, depth);
      } else {
        assert text + Break(false, depth) == text;
      }
      out.Push(b);
    }

    /** The items of an open list, one after the other. */
    method Items(items: seq<Ref>) returns (ok: bool, ghost vs: seq<Json>)
      requires Valid() && Closed(env.g, items)
      modifies this, out.Repr
      ensures Valid() && fresh(out.Repr - old(out.Repr)) && defaultDepth == old(defaultDepth)
      ensures ok == ItemsValue(env, items, old(depth), old(defaultDepth)).Ok?
      ensures !ok ==> raised == Some(ItemsValue(env, items, old(depth), old(defaultDepth)).error)
      ensures ok ==> depth == old(depth) && ItemsValue(env, items, depth, defaultDepth) == Ok(vs) && |vs| == |items|
      ensures ok ==> out.Contents() == old(out.Contents()) + WriteItems(vs, true, env.opts.indent2, depth)
      ensures old(out.Contents()) <= out.Contents()
      decreases Budget(depth, defaultDepth), 7, |items|
    {
      hide Write, WriteItems, Break, Comma, ItemsValue, ValueOf, EnvOk;
      ghost var start, d := out.Contents(), depth;
      ok, vs := true, [];
      ItemsStart(env, items, depth, defaultDepth);
      NothingYet(start, env.opts.indent2, depth);
      for i := 0 to |items|
        invariant Valid() && fresh(out.Repr - old(out.Repr)) && defaultDepth == old(defaultDepth) && depth == d
        invariant |vs| == i
        invariant ItemsValue(env, items, depth, defaultDepth) == Prepend(vs, ItemsValue(env, items[i..], depth, defaultDepth))
        invariant out.Contents() == start + WriteItems(vs, true, env.opts.indent2, depth)
      {
        Separate(out, i == 0, env.opts.indent2, depth);
        ok := Serialize(items[i]);
        ItemsStep(env, items, i, vs, d, defaultDepth);
        if !ok {
          return;
        }
        ghost var v := ValueOf(env, items[i], d, defaultDepth).value;
        AppendItem(start, vs, v, env.opts.indent2, depth);
        vs := vs + [v];
      }
      ItemsEnd(env, items, vs, depth, defaultDepth);
      ok := true;
    }

    method Dict(pairs: seq<(Ref, Ref)>) returns (ok: bool)
      requires Valid() && ClosedPairs(env.g, pairs)
      modifies this, out.Repr
      ensures Valid() && fresh(out.Repr - old(out.Repr)) && defaultDepth == old(defaultDepth)
      ensures Wrote(old(out.Contents()), out.Contents(), ok, raised, DictValue(env, pairs, old(depth), old(defaultDepth)), env.opts.indent2, old(depth))
      ensures ok ==> depth == old(depth)
      decreases Budget(depth, defaultDepth), 3, 0
    {
      hide Write, MembersValue, EnvOk, WrittenPairs;
      ghost var before := out.Contents();
      ok := Enter();
      if !ok {
        return;
      }
      if pairs == [] {
        EmptyMembers(env, depth, defaultDepth);
        ObjectText(before, [], env.opts.indent2, depth - 1);
        depth := depth - 1;
        out.ExtendFromSlice([LBRACE, RBRACE]);
        return true;
      }
      ghost var ms;
      ok, ms := OpenDict(pairs);
    }

    /** A dict that has just been entered and has members: its braces and what is between them. */
    method OpenDict(pairs: seq<(Ref, Ref)>) returns (ok: bool, ghost ms: seq<Member>)
      requires Valid() && ClosedPairs(env.g, pairs) && pairs != [] && depth > 0
      modifies this, out.Repr
      ensures Valid() && fresh(out.Repr - old(out.Repr)) && defaultDepth == old(defaultDepth)
      ensures Attempt(WrittenPairs(env.g, pairs, env.opts), ok, raised, pairs, old(depth), old(defaultDepth), ms)
      ensures ok ==> depth == old(depth) - 1
      ensures ok ==> out.Contents() == old(out.Contents()) + Write(Obj(ms), env.opts.indent2, depth)
      ensures old(out.Contents()) <= out.Contents()
      decreases Budget(depth, defaultDepth), 9, 0
    {
      hide Write, WriteMembers, Break, MembersValue, EnvOk, WrittenPairs, Attempt;
      ghost var before := out.Contents();
      ObjectText(before, [], env.opts.indent2, 0);
      out.Push(LBRACE);
      if env.opts.sortKeys {
        ok, ms := DictSorted(pairs);
      } else {
        ok, ms := DictInOrder(pairs);
      }
      if !ok {
        return;
      }
      assert ms != [] by { AttemptMembers(WrittenPairs(env.g, pairs, env.opts), raised, pairs, old(depth), defaultDepth, ms); }
      ObjectText(before, ms, env.opts.indent2, depth - 1);
      Close(RBRACE);
    }

    /** The outcome of writing the members of a dict whose pairs, in writing order, are `w`. */
    ghost predicate Attempt(w: Result<seq<(Ref, Ref)>>, ok: bool, raised: Option<Error>, pairs: seq<(Ref, Ref)>,
                            depth: nat, dd: nat, ms: seq<Member>)
      requires EnvOk(env) && depth <= MAX_DEPTH && dd <= MAX_DEFAULT_DEPTH
    {
      && (w.Err? ==> !ok && raised == Some(w.error))
      && (w.Ok? ==>
           && ClosedPairs(env.g, w.value)
           && ok == MembersValue(env, w.value, depth, dd).Ok?
           && (!ok ==> raised == Some(MembersValue(env, w.value, depth, dd).error))
           && (ok ==> MembersValue(env, w.value, depth, dd) == Ok(ms) && |ms| == |pairs|))
    }

    lemma AttemptMembers(w: Result<seq<(Ref, Ref)>>, raised: Option<Error>, pairs: seq<(Ref, Ref)>,
                         depth: nat, dd: nat, ms: seq<Member>)
      requires EnvOk(env) && depth <= MAX_DEPTH && dd <= MAX_DEFAULT_DEPTH
      requires Attempt(w, true, raised, pairs, depth, dd, ms)
      ensures |ms| == |pairs|
    {
      hide EnvOk;
    }

    method DictInOrder(pairs: seq<(Ref, Ref)>) returns (ok: bool, ghost ms: seq<Member>)
      requires Valid() && ClosedPairs(env.g, pairs) && !env.opts.sortKeys
      modifies this, out.Repr
      ensures Valid() && fresh(out.Repr - old(out.Repr)) && defaultDepth == old(defaultDepth)
      ensures Attempt(WrittenPairs(env.g, pairs, env.opts), ok, raised, pairs, old(depth), old(defaultDepth), ms)
      ensures ok ==> depth == old(depth)
      ensures ok ==> out.Contents() == old(out.Contents()) + WriteMembers(ms, true, env.opts.indent2, depth)
      ensures old(out.Contents()) <= out.Contents()
      decreases Budget(depth, defaultDepth), 8, 0
    {
      hide WriteMembers, MembersValue, EnvOk, WrittenPairs;
      WrittenUnsorted(env.g, pairs, env.opts);
      ok, ms := Members(pairs);
    }

    /** A key with what comes before it, and its colon. */
    method WriteKey(k: Ref, first: bool) returns (ok: bool)
      requires Valid() && k in env.g && env.g[k].node.NStr?
      modifies this`raised, out.Repr
      ensures Valid() && fresh(out.Repr - old(out.Repr))
      ensures ok == KeyChars(env.g, k).Ok?
      ensures !ok ==> raised == Some(KeyChars(env.g, k).error)
      ensures ok ==>
                out.Contents() == old(out.Contents()) + KeyText(env.g[k].node.cps, first, env.opts.indent2, depth)
      ensures old(out.Contents()) <= out.Contents()
    {
      hide Strings.Holds, Strings.Quoted, SurrogateFree, Break, Comma;
      ghost var start := out.Contents();
      assert NodeOk(env.g, env.g[k].node);
      Separate(out, first, env.opts.indent2, depth);
      ok := Strings.WriteStr(out, env.g[k].node.text, env.g[k].node.cps);
      if !ok {
        raised := Some(Surrogates);
        return;
      }
      if env.opts.indent2 {
        out.ExtendFromSlice([COLON, SPACE]);
      } else {
        out.Push(COLON);
      }
      KeyPieces(start, env.g[k].node.cps, first, env.opts.indent2, depth);
    }

    /** The members of an open dict, in the order given. */
    method Members(pairs: seq<(Ref, Ref)>) returns (ok: bool, ghost ms: seq<Member>)
      requires Valid() && ClosedPairs(env.g, pairs)
      modifies this, out.Repr
      ensures Valid() && fresh(out.Repr - old(out.Repr)) && defaultDepth == old(defaultDepth)
      ensures ok == MembersValue(env, pairs, old(depth), old(defaultDepth)).Ok?
      ensures !ok ==> raised == Some(MembersValue(env, pairs, old(depth), old(defaultDepth)).error)
      ensures ok ==> depth == old(depth) && MembersValue(env, pairs, depth, defaultDepth) == Ok(ms) && |ms| == |pairs|
      ensures ok ==> out.Contents() == old(out.Contents()) + WriteMembers(ms, true, env.opts.indent2, depth)
      ensures old(out.Contents()) <= out.Contents()
      decreases Budget(depth, defaultDepth), 7, |pairs|
    {
      hide Write, WriteMembers, KeyText, KeyChars, MembersValue, ValueOf, EnvOk;
      ghost var start, d := out.Contents(), depth;
      ok, ms := true, [];
      MembersStart(env, pairs, depth, defaultDepth);
      NothingYet(start, env.opts.indent2, depth);
      for i := 0 to |pairs|
        invariant Valid() && fresh(out.Repr - old(out.Repr)) && defaultDepth == old(defaultDepth) && depth == d
        invariant |ms| == i
        invariant MembersValue(env, pairs, depth, defaultDepth) == Prepend(ms, MembersValue(env, pairs[i..], depth, defaultDepth))
        invariant out.Contents() == start + WriteMembers(ms, true, env.opts.indent2, depth)
      {
        MembersStep(env, pairs, i, ms, d, defaultDepth);
        ghost var m;
        ok, m := OneMember(pairs[i], i == 0);
        if !ok {
          return;
        }
        AppendMember(start, ms, m, env.opts.indent2, depth);
        ms := ms + [m];
      }
      MembersEnd(env, pairs, ms, depth, defaultDepth);
      ok := true;
    }

    /** One key and its value; the key must be a `str`. */
    method OneMember(pair: (Ref, Ref), first: bool) returns (ok: bool, ghost m: Member)
      requires Valid() && pair.0 in env.g && pair.1 in env.g
      modifies this, out.Repr
      ensures Valid() && fresh(out.Repr - old(out.Repr)) && defaultDepth == old(defaultDepth)
      ensures var key, v := KeyChars(env.g, pair.0), ValueOf(env, pair.1, old(depth), old(defaultDepth));
              && ok == (key.Ok? && v.Ok?)
              && (!ok ==> raised == Some(if key.Err? then key.error else v.error))
              && (ok ==> m == Member(key.value, v.value) && depth == old(depth))
      ensures ok ==>
                var text := old(out.Contents()) + KeyText(m.key, first, env.opts.indent2, depth);
                out.Contents() == text + Write(m.value, env.opts.indent2, depth)
      ensures old(out.Contents()) <= out.Contents()
      decreases Budget(depth, defaultDepth), 6, 0
    {
      hide Write, KeyText, ValueOf, SurrogateFree, EnvOk;
      m := Member([], Null);
      if !env.g[pair.0].node.NStr? {
        raised := Some(KeyNotStr);
        return false, m;
      }
      ok := WriteKey(pair.0, first);
      if !ok {
        return;
      }
      ghost var d := depth;
      ok := Serialize(pair.1);
      if ok {
        m := Member(env.g[pair.0].node.cps, ValueOf(env, pair.1, d, defaultDepth).value);
      }
    }

    /** Checks every key before anything is written, sorts by code point, and writes the members. */
    method DictSorted(pairs: seq<(Ref, Ref)>) returns (ok: bool, ghost ms: seq<Member>)
      requires Valid() && ClosedPairs(env.g, pairs) && env.opts.sortKeys
      modifies this, out.Repr
      ensures Valid() && fresh(out.Repr - old(out.Repr)) && defaultDepth == old(defaultDepth)
      ensures Attempt(WrittenPairs(env.g, pairs, env.opts), ok, raised, pairs, old(depth), old(defaultDepth), ms)
      ensures ok ==> depth == old(depth)
      ensures ok ==> out.Contents() == old(out.Contents()) + WriteMembers(ms, true, env.opts.indent2, depth)
      ensures old(out.Contents()) <= out.Contents()
      ensures WrittenPairs(env.g, pairs, env.opts).Err? ==> out.Contents() == old(out.Contents())
      decreases Budget(depth, defaultDepth), 8, 0
    {
      hide WriteMembers, MembersValue, EnvOk, Sort, KeyedPairs, ClosedPairs;
      var keyed;
      ok, keyed := KeyedOf(pairs);
      if !ok {
        ms := [];
        return;
      }
      var sorted := SortBy(keyed);
      WrittenPairsPermute(env.g, pairs, env.opts);
      ok, ms := Members(PairsOf(sorted));
    }

    /** The keys of a dict, each checked, with their UTF-8 where they have it. */
    method KeyedOf(pairs: seq<(Ref, Ref)>) returns (ok: bool, keyed: seq<Keyed<(Ref, Ref)>>)
      requires Valid() && ClosedPairs(env.g, pairs)
      modifies this`raised
      ensures ok == KeyedPairs(env.g, pairs).Ok?
      ensures !ok ==> raised == Some(KeyedPairs(env.g, pairs).error)
      ensures ok ==> keyed == KeyedPairs(env.g, pairs).value && forall k | 0 <= k < |keyed| :: KeyedOk(keyed[k])
    {
      hide KeyedPairs, Strings.Holds, SurrogateFree, KeyedOk;
      keyed := [];
      KeyedStart(env.g, pairs);
      for i := 0 to |pairs|
        invariant KeyedPairs(env.g, pairs) == Prepend(keyed, KeyedPairs(env.g, pairs[i..]))
        invariant forall k | 0 <= k < |keyed| :: KeyedOk(keyed[k])
      {
        var k := pairs[i].0;
        KeyedStep(env.g, pairs, i, keyed);
        if !env.g[k].node.NStr? {
          raised := Some(KeyNotStr);
          return false, keyed;
        }
        assert NodeOk(env.g, env.g[k].node);
        Strings.HasSurrogateOfText(env.g[k].node.text, env.g[k].node.cps);
        if Strings.HasSurrogate(env.g[k].node.text) {
          raised := Some(Surrogates);
          return false, keyed;
        }
        KeyedPairOk(env.g, pairs[i]);
        keyed := keyed + [KeyedPair(env.g, pairs[i], env.g[k].node.cps)];
      }
      KeyedEnd(env.g, pairs, keyed);
      ok := true;
    }
  }
}
