/**
 * What written values say about the elements, dates and objects they come from, stated on what is
 * read back and on the memory, not through the functions that choose the values.
 */
module Reading {
  import opened Common
  import opened Utf8
  import opened JsonText
  import opened Objects
  import Encode
  import Datetime
  import IsoText
  import Numpy
  import NumpyWalk
  import Strings

  // ---- dates and times -----------------------------------------------------------------------

  /** The offset a datetime is written with: its own, or zero for a naive one that is taken as UTC. */
  predicate OffsetShown(own: Option<int>, opts: Opts, written: Option<int>) {
    match own
    case Some(o) => written == Some(o)
    case None => written == if opts.naiveUtc then Some(0) else None
  }

  /** `t` reads back as the fields and the offset; it has a fraction and a `Z` exactly where the options ask for them. */
  ghost predicate DatetimeShown(t: seq<byte>, p: Datetime.Parts, own: Option<int>, opts: Opts) {
    match IsoText.ReadDatetime(t)
    case None => false
    case Some((q, written)) =>
      && q == (if opts.omitMicroseconds then p.(us := 0) else p)
      && OffsetShown(own, opts, written)
      && (ByteAt(t, 20, 0x2E) <==> p.us != 0 && !opts.omitMicroseconds)
      && (0x5A in t <==> written == Some(0) && opts.utcZ)
  }

  lemma {:induction false} NoZedInDigits(v: nat, w: nat)
    ensures 0x5A !in IsoText.Digits(v, w) && 0x2E !in IsoText.Digits(v, w)
  {
    if w > 0 { NoZedInDigits(v / 10, w - 1); }
  }

  lemma NoZedInYmd(y: nat, mo: nat, d: nat)
    ensures 0x5A !in IsoText.YmdText(y, mo, d)
  {
    hide IsoText.Digits;
    NoZedInDigits(y, 4);
    NoZedInDigits(mo, 2);
    NoZedInDigits(d, 2);
  }

  lemma NoZedInHms(h: nat, mi: nat, s: nat, us: nat, omit: bool)
    ensures 0x5A !in IsoText.HmsText(h, mi, s, us, omit)
  {
    hide IsoText.Digits;
    NoZedInDigits(h, 2);
    NoZedInDigits(mi, 2);
    NoZedInDigits(s, 2);
    NoZedInDigits(us, 6);
  }

  lemma ZedInOffset(totalUs: int, utcZ: bool)
    ensures 0x5A in IsoText.OffsetText(totalUs, utcZ) <==> totalUs == 0 && utcZ
  {
    hide IsoText.Digits, IsoText.OffsetSecondsText;
    var m := if totalUs < 0 then -totalUs else totalUs;
    var r := m % 3_600_000_000;
    IsoText.OffsetForm(0, utcZ);
    NoZedInDigits(m / 3_600_000_000, 2);
    NoZedInDigits(r / 60_000_000, 2);
    NoZedInSeconds(r % 60_000_000 / 1_000_000, r % 60_000_000 % 1_000_000);
  }

  lemma NoZedInSeconds(ss: nat, us: nat)
    ensures 0x5A !in IsoText.OffsetSecondsText(ss, us)
  {
    hide IsoText.Digits;
    NoZedInDigits(ss, 2);
    NoZedInDigits(us, 6);
  }

  /** The fraction of a time, if there is one, starts at its ninth byte. */
  lemma FractionAt(p: Datetime.Parts, omit: bool, after: seq<byte>)
    requires IsoText.FieldsFit(p) && (after != [] ==> after[0] != 0x2E)
    ensures ByteAt(IsoText.HmsText(p.h, p.mi, p.s, p.us, omit) + after, 8, 0x2E) <==> p.us != 0 && !omit
  {
    hide IsoText.Digits;
    IsoText.HmsForm(p.h, p.mi, p.s, p.us, omit);
  }

  lemma OffsetStartsWell(totalUs: int, utcZ: bool)
    ensures |IsoText.OffsetText(totalUs, utcZ)| >= 1 && IsoText.OffsetText(totalUs, utcZ)[0] != 0x2E
  {
    hide IsoText.Digits, IsoText.OffsetSecondsText;
  }

  /** The text of a datetime shows its fields and the offset given. */
  lemma TextShows(p: Datetime.Parts, own: Option<int>, written: Option<int>, opts: Opts)
    requires StampOk(p, written) && OffsetShown(own, opts, written)
    ensures DatetimeShown(IsoText.DatetimeText(p, written, opts), p, own, opts)
  {
    hide IsoText.YmdText, IsoText.HmsText, IsoText.OffsetText, IsoText.ReadDatetime;
    var ymd := IsoText.YmdText(p.y, p.mo, p.d);
    var hms := IsoText.HmsText(p.h, p.mi, p.s, p.us, opts.omitMicroseconds);
    var o := if written.Some? then IsoText.OffsetText(written.value, opts.utcZ) else [];
    IsoText.ReadDatetimeInverts(p, written, opts);
    if written.Some? {
      ZedInOffset(written.value, opts.utcZ);
      OffsetStartsWell(written.value, opts.utcZ);
    }
    NoZedInYmd(p.y, p.mo, p.d);
    NoZedInHms(p.h, p.mi, p.s, p.us, opts.omitMicroseconds);
    FractionAt(p, opts.omitMicroseconds, o + [QUOTE]);
    TwelveOn(ymd, hms, o);
  }

  lemma TwelveOn(ymd: seq<byte>, hms: seq<byte>, o: seq<byte>)
    requires |ymd| == 10
    ensures var t := [QUOTE] + ymd + [0x54] + hms + o + [QUOTE];
            && (ByteAt(t, 20, 0x2E) <==> ByteAt(hms + (o + [QUOTE]), 8, 0x2E))
            && (0x5A in t <==> 0x5A in ymd || 0x5A in hms || 0x5A in o)
  {
    var t := [QUOTE] + ymd + [0x54] + hms + o + [QUOTE];
    assert t == ([QUOTE] + ymd + [0x54]) + (hms + (o + [QUOTE]));
  }

  /** A quoted date and nothing else. */
  function ReadDate(t: seq<byte>): Option<(nat, nat, nat)> {
    if |t| == 12 && t[0] == 0x22 && t[11] == 0x22 then IsoText.ReadYmd(t, 1) else None
  }

  /** A quoted time with its offset, if any, and nothing else. */
  function ReadTime(t: seq<byte>): Option<(IsoText.Clock, Option<int>)> {
    match IsoText.ReadHms(t, 1)
    case None => None
    case Some((c, j)) =>
      match IsoText.ReadOffset(t, j)
      case None => None
      case Some((offset, k)) => if ByteAt(t, 0, 0x22) && ByteAt(t, k, 0x22) && |t| == k + 1 then Some((c, offset)) else None
  }

  /** A time reads back with its own offset; it never has a `Z`. */
  ghost predicate TimeShown(t: seq<byte>, p: Datetime.Parts, own: Option<int>, opts: Opts)
    requires IsoText.FieldsFit(p)
  {
    && ReadTime(t) == Some((IsoText.Clock(p.h, p.mi, p.s, if opts.omitMicroseconds then 0 else p.us), own))
    && (ByteAt(t, 9, 0x2E) <==> p.us != 0 && !opts.omitMicroseconds)
    && 0x5A !in t
  }

  lemma DateTextReads(p: Datetime.Parts)
    requires IsoText.FieldsFit(p)
    ensures ReadDate([QUOTE] + DateText(p) + [QUOTE]) == Some((p.y, p.mo, p.d))
  {
    hide IsoText.YmdText, IsoText.ReadYmd;
    var t := [QUOTE] + DateText(p) + [QUOTE];
    IsoText.PlaceOf([QUOTE], DateText(p), [QUOTE], t);
    IsoText.ReadYmdInverts(t, 1, p.y, p.mo, p.d);
  }

  lemma TimeTextReads(p: Datetime.Parts, own: Option<int>, opts: Opts)
    requires StampOk(p, own)
    ensures ReadTime([QUOTE] + TimeText(p, own, opts) + [QUOTE])
         == Some((IsoText.Clock(p.h, p.mi, p.s, if opts.omitMicroseconds then 0 else p.us), own))
  {
    hide IsoText.HmsText, IsoText.OffsetText, IsoText.ReadHms, IsoText.ReadOffset, At;
    var hms := IsoText.HmsText(p.h, p.mi, p.s, p.us, opts.omitMicroseconds);
    var o := if own.Some? then IsoText.OffsetText(own.value, false) else [];
    var t := [QUOTE] + hms + (o + [QUOTE]);
    TimePieces(hms, o);
    if own.Some? { OffsetStartsWell(own.value, false); }
    AfterTime(hms, o);
    IsoText.ReadHmsInverts(t, 1, p.h, p.mi, p.s, p.us, opts.omitMicroseconds);
    if own.Some? {
      IsoText.ReadOffsetInverts(t, 1 + |hms|, own.value, false);
    } else {
      IsoText.NoOffset(t, 1 + |hms|);
    }
  }

  lemma TimePieces(hms: seq<byte>, o: seq<byte>)
    ensures var t := [QUOTE] + hms + (o + [QUOTE]);
            t == [QUOTE] + (hms + o) + [QUOTE] && At(t, 1, hms) && At(t, 1 + |hms|, o)
  {
    hide At;
    var t := [QUOTE] + hms + (o + [QUOTE]);
    IsoText.PlaceOf([QUOTE], hms, o + [QUOTE], t);
    assert t == ([QUOTE] + hms) + o + [QUOTE];
    IsoText.PlaceOf([QUOTE] + hms, o, [QUOTE], t);
  }

  lemma TimeTextShows(p: Datetime.Parts, own: Option<int>, opts: Opts)
    requires StampOk(p, own)
    ensures TimeShown([QUOTE] + TimeText(p, own, opts) + [QUOTE], p, own, opts)
  {
    hide IsoText.HmsText, IsoText.OffsetText, ReadTime, At;
    TimeTextReads(p, own, opts);
    var hms := IsoText.HmsText(p.h, p.mi, p.s, p.us, opts.omitMicroseconds);
    var o := if own.Some? then IsoText.OffsetText(own.value, false) else [];
    TimePieces(hms, o);
    NoZedInHms(p.h, p.mi, p.s, p.us, opts.omitMicroseconds);
    if own.Some? {
      ZedInOffset(own.value, false);
      OffsetStartsWell(own.value, false);
    }
    AfterTime(hms, o);
    FractionAt(p, opts.omitMicroseconds, o + [QUOTE]);
  }

  lemma AfterTime(hms: seq<byte>, o: seq<byte>)
    requires o != [] ==> o[0] != 0x2E
    ensures var t := [QUOTE] + hms + (o + [QUOTE]);
            && !ByteAt(t, 1 + |hms|, 0x2E) && t[|t| - 1] == 0x22 && t[0] == 0x22 && |t| == 2 + |hms| + |o|
            && (o == [] ==> ByteAt(t, 1 + |hms|, 0x22))
            && (ByteAt(t, 9, 0x2E) <==> ByteAt(hms + (o + [QUOTE]), 8, 0x2E))
            && (0x5A in t <==> 0x5A in hms || 0x5A in o)
  {}

  // ---- elements of arrays ----------------------------------------------------------------------

  /** A `datetime64` that is written: its exact instant, to the microsecond below, is in the years 0000 to 9999. */
  ghost predicate ElementRefused(e: Numpy.Elem, unit: Option<Datetime.Dt64Unit>) {
    && e.EDt64? && e.v != -0x8000_0000_0000_0000 && unit.Some?
    && (unit.value.base.Generic? || !Datetime.InFourDigitYears(Datetime.Instant(e.v * unit.value.mult, unit.value.base)))
  }

  /** `t` shows the instant `us`, in microseconds since 1970, as a naive datetime. */
  ghost predicate InstantShown(t: seq<byte>, us: int, opts: Opts) {
    exists p :: Datetime.ValidParts(p) && Datetime.MicrosOf(p) == us && DatetimeShown(t, p, None, opts)
  }

  /** The value an element is written as: itself; a float that is not finite and NaT are null. */
  ghost predicate ElementShown(e: Numpy.Elem, unit: Option<Datetime.Dt64Unit>, opts: Opts, v: Json) {
    match e
    case EBool(b) => v == Bool(b)
    case EInt(i) => v == Int(i)
    case EFloat(Some(token)) => v == Real(token)
    case EFloat(None) => v == Null
    case EDt64(n) =>
      if n == -0x8000_0000_0000_0000 then v == Null
      else v.Str? && unit.Some? && InstantShown(Strings.Quoted(v.cps), Datetime.Instant(n * unit.value.mult, unit.value.base), opts)
  }

  /** An element is declined exactly when its instant cannot be written, and otherwise written as itself. */
  lemma ElementRead(e: Numpy.Elem, unit: Option<Datetime.Dt64Unit>, opts: Opts)
    requires ScalarOk(e, unit)
    ensures Numpy.ElemTree(e, unit, opts).None? <==> ElementRefused(e, unit)
    ensures Numpy.ElemTree(e, unit, opts).Some? ==> ElementShown(e, unit, opts, Numpy.ElemTree(e, unit, opts).value)
  {
    hide Numpy.Dt64Text, Datetime.Dt64ToParts, Datetime.Instant, Datetime.InFourDigitYears, Strings.Quoted, InstantShown;
    match e
    case EDt64(n) => DateRead(n, unit.value, opts);
    case _ =>
  }

  lemma DateRead(n: int, u: Datetime.Dt64Unit, opts: Opts)
    requires Datetime.I64_MIN <= n <= Datetime.I64_MAX && Numpy.UnitOk(u)
    ensures Datetime.Dt64ToParts(n, u).NaT? <==> n == -0x8000_0000_0000_0000
    ensures Datetime.Dt64ToParts(n, u).Fail? <==> ElementRefused(Numpy.EDt64(n), Some(u))
    ensures Datetime.Dt64ToParts(n, u).Value? ==>
              var t := Numpy.Dt64Text(n, u, opts);
              && InstantShown(t, Datetime.Instant(n * u.mult, u.base), opts)
              && 2 <= |t| && Strings.Quoted(t[1..|t| - 1]) == t
  {
    hide Datetime.Instant, Datetime.InFourDigitYears, Datetime.MicrosOf, Datetime.ValidParts, Strings.Quoted, IsoText.DatetimeText;
    hide Datetime.DateOnly, Datetime.Times, Datetime.PartsOfMicros, DatetimeShown;
    if n != Datetime.I64_MIN && u.base.Generic? {
      Datetime.ProductFits(n, u.mult);
    } else if n != Datetime.I64_MIN {
      Datetime.Dt64ToPartsExact(n, u);
    }
    if Datetime.Dt64ToParts(n, u).Value? {
      var p := Datetime.Dt64ToParts(n, u).parts;
      Numpy.PartsFit(n, u);
      Numpy.Dt64TextIsString(n, u, opts);
      TextShows(p, None, Numpy.Dt64Offset(opts), opts);
    }
  }

  /** An array is written as nested lists; the element at indices `i, j, ...` lies `i * strides[0] + j * strides[1] + ...` past its base. */
  ghost predicate ArrayShown(a: NumpyWalk.NdArray, opts: Opts, dim: nat, p: int, v: Json)
    requires |a.shape| == |a.strides| && dim <= |a.shape|
    decreases |a.shape| - dim
  {
    if dim == |a.shape| then p in a.data && ElementShown(a.data[p], a.unit, opts, v)
    else
      && v.Arr? && |v.items| == a.shape[dim]
      && forall k: nat | k < a.shape[dim] :: ArrayShown(a, opts, dim + 1, p + k * a.strides[dim], v.items[k])
  }

  lemma {:induction false} TreeShown(a: NumpyWalk.NdArray, opts: Opts, dim: nat, p: int)
    requires NumpyWalk.Readable(a, dim, p) && NumpyWalk.Tree(a, opts, dim, p).Some?
    ensures |a.shape| == |a.strides| && dim <= |a.shape|
    ensures ArrayShown(a, opts, dim, p, NumpyWalk.Tree(a, opts, dim, p).value)
    decreases |a.shape| - dim, 1, 0
  {
    hide NumpyWalk.InBounds, ElementShown;
    if dim == |a.shape| {
      NumpyWalk.LeafReadable(a, dim, p);
      NumpyWalk.LeafDate(a, p);
      ElementRead(a.data[p], a.unit, opts);
    } else {
      RowsShown(a, opts, dim, p, 0);
    }
  }

  lemma {:induction false} RowsShown(a: NumpyWalk.NdArray, opts: Opts, dim: nat, p: int, i: nat)
    requires NumpyWalk.Readable(a, dim, p) && dim < |a.shape| && i <= a.shape[dim]
    requires NumpyWalk.Rows(a, opts, dim, p, i).Some?
    ensures forall k: nat | i <= k < a.shape[dim] ::
              ArrayShown(a, opts, dim + 1, p + k * a.strides[dim], NumpyWalk.Rows(a, opts, dim, p, i).value[k - i])
    decreases |a.shape| - dim, 0, a.shape[dim] - i
  {
    hide NumpyWalk.InBounds, ArrayShown, NumpyWalk.Tree;
    if i < a.shape[dim] {
      NumpyWalk.SubReadable(a, dim, p, i);
      TreeShown(a, opts, dim + 1, p + i * a.strides[dim]);
      RowsShown(a, opts, dim, p, i + 1);
    }
  }

  /** The leaves of lists nested `d` deep, in order. */
  function Leaves(v: Json, d: nat): seq<Json>
    decreases d, 1, 0
  {
    if d == 0 then [v]
    else if v.Arr? then LeavesOf(v.items, d - 1)
    else []
  }

  function LeavesOf(items: seq<Json>, d: nat): seq<Json>
    decreases d, 2, |items|
  {
    if items == [] then [] else Leaves(items[0], d) + LeavesOf(items[1..], d)
  }

  /** One by one, the leaves show the elements at the offsets. */
  ghost predicate LeavesShow(a: NumpyWalk.NdArray, opts: Opts, offsets: seq<int>, leaves: seq<Json>) {
    && |offsets| == |leaves|
    && forall k | 0 <= k < |offsets| :: offsets[k] in a.data && ElementShown(a.data[offsets[k]], a.unit, opts, leaves[k])
  }

  lemma LeavesJoin(a: NumpyWalk.NdArray, opts: Opts, o1: seq<int>, l1: seq<Json>, o2: seq<int>, l2: seq<Json>)
    requires LeavesShow(a, opts, o1, l1) && LeavesShow(a, opts, o2, l2)
    ensures LeavesShow(a, opts, o1 + o2, l1 + l2)
  {
    hide ElementShown;
  }

  /** Some element that is read cannot be written. */
  ghost predicate SomeRefused(a: NumpyWalk.NdArray, offsets: seq<int>) {
    exists o :: o in offsets && o in a.data && ElementRefused(a.data[o], a.unit)
  }

  lemma RefusedJoin(a: NumpyWalk.NdArray, o1: seq<int>, o2: seq<int>)
    ensures SomeRefused(a, o1 + o2) <==> SomeRefused(a, o1) || SomeRefused(a, o2)
  {
    hide ElementRefused;
    assert forall o :: o in o1 + o2 <==> o in o1 || o in o2;
  }

  /**
   * The leaves of the nested list are, in row-major order, the elements at the offsets the walk
   * visits; the array is declined exactly when one of those elements cannot be written.
   */
  lemma {:induction false} LeavesInOrder(a: NumpyWalk.NdArray, opts: Opts, dim: nat, p: int)
    requires NumpyWalk.Readable(a, dim, p)
    ensures |a.shape| == |a.strides| && dim <= |a.shape|
    ensures var t := NumpyWalk.Tree(a, opts, dim, p);
            && (t.None? <==> SomeRefused(a, NumpyWalk.Offsets(a, dim, p)))
            && (t.Some? ==> LeavesShow(a, opts, NumpyWalk.Offsets(a, dim, p), Leaves(t.value, |a.shape| - dim)))
    decreases |a.shape| - dim, 1, 0
  {
    hide NumpyWalk.InBounds, ElementShown, ElementRefused, LeavesOf, NumpyWalk.RowOffsets;
    if dim == |a.shape| {
      NumpyWalk.LeafReadable(a, dim, p);
      NumpyWalk.LeafDate(a, p);
      ElementRead(a.data[p], a.unit, opts);
      assert p in NumpyWalk.Offsets(a, dim, p);
    } else {
      RowLeavesInOrder(a, opts, dim, p, 0);
    }
  }

  lemma {:induction false} RowLeavesInOrder(a: NumpyWalk.NdArray, opts: Opts, dim: nat, p: int, i: nat)
    requires NumpyWalk.Readable(a, dim, p) && dim < |a.shape| && i <= a.shape[dim]
    ensures var t := NumpyWalk.Rows(a, opts, dim, p, i);
            && (t.None? <==> SomeRefused(a, NumpyWalk.RowOffsets(a, dim, p, i)))
            && (t.Some? ==> LeavesShow(a, opts, NumpyWalk.RowOffsets(a, dim, p, i), LeavesOf(t.value, |a.shape| - dim - 1)))
    decreases |a.shape| - dim, 0, a.shape[dim] - i
  {
    hide NumpyWalk.InBounds, NumpyWalk.Tree, NumpyWalk.Offsets, Leaves, LeavesShow, SomeRefused;
    if i == a.shape[dim] {
      NoLeaves(a, opts);
    } else {
      var q := p + i * a.strides[dim];
      NumpyWalk.SubReadable(a, dim, p, i);
      LeavesInOrder(a, opts, dim + 1, q);
      RowLeavesInOrder(a, opts, dim, p, i + 1);
      RefusedJoin(a, NumpyWalk.Offsets(a, dim + 1, q), NumpyWalk.RowOffsets(a, dim, p, i + 1));
      var v, rest := NumpyWalk.Tree(a, opts, dim + 1, q), NumpyWalk.Rows(a, opts, dim, p, i + 1);
      if v.Some? && rest.Some? {
        assert ([v.value] + rest.value)[1..] == rest.value;
        LeavesJoin(a, opts, NumpyWalk.Offsets(a, dim + 1, q), Leaves(v.value, |a.shape| - dim - 1),
                   NumpyWalk.RowOffsets(a, dim, p, i + 1), LeavesOf(rest.value, |a.shape| - dim - 1));
      }
    }
  }

  lemma NoLeaves(a: NumpyWalk.NdArray, opts: Opts)
    ensures LeavesShow(a, opts, [], []) && !SomeRefused(a, [])
  {}

  // ---- objects -----------------------------------------------------------------------------------

  /** What is not written itself but handed to `default`. */
  ghost predicate HandedOn(env: Env, r: Ref)
    requires EnvOk(env) && r in env.g
  {
    var o := env.g[r];
    assert NodeOk(env.g, o.node);
    match o.node
    case NOther => true
    case NStr(_, _) => !o.exact && env.opts.passthroughSubclass
    case NInt(_) => !o.exact && env.opts.passthroughSubclass
    case NList(_) => !o.exact && env.opts.passthroughSubclass
    case NDict(_) => !o.exact && env.opts.passthroughSubclass
    case NDatetime(_, _) => !o.exact || env.opts.passthroughDatetime
    case NDate(_) => !o.exact || env.opts.passthroughDatetime
    case NTime(_, _) => !o.exact || env.opts.passthroughDatetime
    case NArray(a, classified) =>
      !o.exact || !env.opts.serializeNumpy || !classified || SomeRefused(a, NumpyWalk.Offsets(a, 0, a.base))
    case NScalar(e, unit, classified) => !o.exact || !env.opts.serializeNumpy || !classified || ElementRefused(e, unit)
    case _ => !o.exact
  }

  /** `w` is a dict's pairs as they are written: in the dict's order, or in code-point order of their keys. */
  ghost predicate WritingOrder(env: Env, pairs: seq<(Ref, Ref)>, w: seq<(Ref, Ref)>, ms: seq<Member>) {
    && |w| == |ms| && multiset(w) == multiset(pairs)
    && (forall k | 0 <= k < |w| ::
          && w[k].0 in env.g && w[k].1 in env.g && env.g[w[k].0].node.NStr?
          && ms[k].key == env.g[w[k].0].node.cps && SurrogateFree(ms[k].key))
    && if env.opts.sortKeys then forall i, j | 0 <= i < j < |ms| :: NotAfter(ms[i].key, ms[j].key) else w == pairs
  }

  /**
   * `v` shows object `r`, itself or what at most 255 calls of `default` one inside the other make of
   * it, and everything in it.
   */
  ghost predicate Shows(env: Env, r: Ref, v: Json, dd: nat)
    requires EnvOk(env) && r in env.g && dd <= 255
    decreases v, 255 - dd
  {
    assert NodeOk(env.g, env.g[r].node);
    if HandedOn(env, r) then
      dd < 255 && env.default.Some? && r in env.default.value && Shows(env, env.default.value[r], v, dd + 1)
    else
      match env.g[r].node
      case NNull => v == Null
      case NBool(b) => v == Bool(b)
      case NInt(i) => v == Int(i)
      case NFloat(Some(token)) => v == Real(token)
      case NFloat(None) => v == Null
      case NStr(cps, _) => v == Str(cps) && SurrogateFree(cps)
      case NList(items) => v.Arr? && |items| == |v.items| && forall k | 0 <= k < |items| :: Shows(env, items[k], v.items[k], dd)
      case NTuple(items) => v.Arr? && |items| == |v.items| && forall k | 0 <= k < |items| :: Shows(env, items[k], v.items[k], dd)
      case NDict(pairs) =>
        && v.Obj?
        && exists w: seq<(Ref, Ref)> | WritingOrder(env, pairs, w, v.members) ::
             forall k | 0 <= k < |v.members| :: Shows(env, w[k].1, v.members[k].value, dd)
      case NDatetime(p, own) => v.Str? && DatetimeShown(Strings.Quoted(v.cps), p, own, env.opts)
      case NDate(p) => v.Str? && ReadDate(Strings.Quoted(v.cps)) == Some((p.y, p.mo, p.d))
      case NTime(p, own) => v.Str? && TimeShown(Strings.Quoted(v.cps), p, own, env.opts)
      case NScalar(e, unit, _) => ElementShown(e, unit, env.opts, v)
      case NArray(a, _) => ArrayShown(a, env.opts, 0, a.base, v)
      case NOther => false
  }

  /** An object is written itself, or as what `default` makes of it. */
  lemma HandedOnIsDefault(env: Env, r: Ref, depth: nat, dd: nat)
    requires EnvOk(env) && r in env.g && depth <= MAX_DEPTH && dd <= MAX_DEFAULT_DEPTH
    ensures HandedOn(env, r) ==> ValueOf(env, r, depth, dd) == DefaultValue(env, r, depth, dd)
    ensures !HandedOn(env, r) ==> Native(env.g[r], env.opts)
    ensures HandedOn(env, r) && Native(env.g[r], env.opts) ==> env.g[r].node.NArray? || env.g[r].node.NScalar?
    ensures !HandedOn(env, r) && env.g[r].node.NArray? ==> NumpyWalk.Tree(env.g[r].node.nd, env.opts, 0, env.g[r].node.nd.base).Some?
    ensures !HandedOn(env, r) && env.g[r].node.NScalar? ==> Numpy.ElemTree(env.g[r].node.elem, env.g[r].node.unit, env.opts).Some?
  {
    hide DefaultValue, ListValue, DictValue, SurrogateFree, NumpyWalk.Tree, NumpyWalk.Readable, Numpy.ElemTree, SomeRefused, ElementRefused;
    hide IntValue, NumpyWalk.Offsets, DatetimeValue, DateText, TimeText;
    assert NodeOk(env.g, env.g[r].node);
    match env.g[r].node
    case NArray(a, classified) => if classified { LeavesInOrder(a, env.opts, 0, a.base); }
    case NScalar(e, unit, classified) => if classified { ElementRead(e, unit, env.opts); }
    case _ =>
  }

  // ---- what is written shows what was given -------------------------------------------------------

  /** The value of a datetime, date or time. */
  lemma StampRead(n: Node, opts: Opts)
    requires IsStamp(n) && StampOk(n.parts, if n.NDate? then None else n.offset)
    ensures n.NDatetime? ==>
              && DatetimeValue(n.parts, n.offset, opts).Str?
              && DatetimeShown(Strings.Quoted(DatetimeValue(n.parts, n.offset, opts).cps), n.parts, n.offset, opts)
    ensures n.NDate? ==> ReadDate(Strings.Quoted(DateText(n.parts))) == Some((n.parts.y, n.parts.mo, n.parts.d))
    ensures n.NTime? ==> TimeShown(Strings.Quoted(TimeText(n.parts, n.offset, opts)), n.parts, n.offset, opts)
  {
    hide IsoText.DatetimeText, DateText, TimeText, Strings.Quoted, DatetimeShown, TimeShown, ReadDate;
    match n
    case NDatetime(p, own) =>
      var written := DatetimeOffset(own, opts);
      Encode.DatetimeIsString(p, written, opts);
      TextShows(p, own, written, opts);
    case NDate(p) =>
      DateTextReads(p);
      DatePlain(p);
      Encode.QuotedPlain([], DateText(p));
      NoPrefix(DateText(p));
    case NTime(p, own) =>
      TimeTextShows(p, own, opts);
      Encode.TimePlain(p, own, opts);
      Encode.QuotedPlain([], TimeText(p, own, opts));
      NoPrefix(TimeText(p, own, opts));
  }

  lemma DatePlain(p: Datetime.Parts)
    requires IsoText.FieldsFit(p)
    ensures Numpy.Plain(DateText(p))
  {
    hide IsoText.YmdText, Numpy.Plain;
    Numpy.YmdPlain(p.y, p.mo, p.d);
  }

  lemma NoPrefix(t: seq<byte>)
    ensures [] + [QUOTE] + t + [QUOTE] == [QUOTE] + t + [QUOTE] && [] + Strings.Quoted(t) == Strings.Quoted(t)
  {}

  /** Whatever is written shows the object it was written for. */
  lemma {:induction false} ValueShows(env: Env, r: Ref, depth: nat, dd: nat)
    requires EnvOk(env) && r in env.g && depth <= MAX_DEPTH && dd <= MAX_DEFAULT_DEPTH
    requires ValueOf(env, r, depth, dd).Ok?
    ensures Shows(env, r, ValueOf(env, r, depth, dd).value, dd)
    decreases Budget(depth, dd), 3, 0
  {
    hide HandedOn, ListValue, DictValue, DefaultValue, SurrogateFree, NumpyWalk.Tree, NumpyWalk.Readable, Numpy.ElemTree, ArrayShown;
    hide Strings.Quoted, DatetimeShown, TimeShown, ReadDate, ElementShown, DatetimeValue, DateText, TimeText, WritingOrder;
    assert NodeOk(env.g, env.g[r].node);
    HandedOnIsDefault(env, r, depth, dd);
    if HandedOn(env, r) {
      DefaultShows(env, r, depth, dd);
    } else {
      match env.g[r].node
      case NList(items) => ListShows(env, items, depth, dd);
      case NTuple(items) => ListShows(env, items, depth, dd);
      case NDict(pairs) => DictShows(env, pairs, depth, dd);
      case NDatetime(_, _) => StampRead(env.g[r].node, env.opts);
      case NDate(_) => StampRead(env.g[r].node, env.opts);
      case NTime(_, _) => StampRead(env.g[r].node, env.opts);
      case NArray(a, _) => TreeShown(a, env.opts, 0, a.base);
      case NScalar(e, unit, _) => ElementRead(e, unit, env.opts);
      case _ =>
    }
  }

  lemma {:induction false} DefaultShows(env: Env, r: Ref, depth: nat, dd: nat)
    requires EnvOk(env) && r in env.g && depth <= MAX_DEPTH && dd <= MAX_DEFAULT_DEPTH && HandedOn(env, r)
    requires DefaultValue(env, r, depth, dd).Ok?
    ensures Shows(env, r, DefaultValue(env, r, depth, dd).value, dd)
    decreases Budget(depth, dd), 2, 0
  {
    hide ValueOf, HandedOn, EnvOk;
    assert env.default.value[r] in env.g by { DefaultKnown(env, r); }
    ValueShows(env, env.default.value[r], depth, dd + 1);
  }

  lemma DefaultKnown(env: Env, r: Ref)
    requires EnvOk(env) && env.default.Some? && r in env.default.value
    ensures env.default.value[r] in env.g
  {}

  ghost predicate ItemsShow(env: Env, items: seq<Ref>, vs: seq<Json>, dd: nat)
    requires EnvOk(env) && Closed(env.g, items) && dd <= 255
  {
    |items| == |vs| && forall k | 0 <= k < |items| :: Shows(env, items[k], vs[k], dd)
  }

  lemma {:induction false} ListShows(env: Env, items: seq<Ref>, depth: nat, dd: nat)
    requires EnvOk(env) && Closed(env.g, items) && depth <= MAX_DEPTH && dd <= MAX_DEFAULT_DEPTH
    requires ListValue(env, items, depth, dd).Ok?
    ensures ListValue(env, items, depth, dd).value.Arr? && ItemsShow(env, items, ListValue(env, items, depth, dd).value.items, dd)
    decreases Budget(depth, dd), 2, 0
  {
    hide ItemsValue, EnvOk, ItemsShow;
    ItemsAllShow(env, items, depth + 1, dd);
  }

  lemma {:induction false} ItemsAllShow(env: Env, items: seq<Ref>, depth: nat, dd: nat)
    requires EnvOk(env) && Closed(env.g, items) && depth <= MAX_DEPTH && dd <= MAX_DEFAULT_DEPTH
    requires ItemsValue(env, items, depth, dd).Ok?
    ensures ItemsShow(env, items, ItemsValue(env, items, depth, dd).value, dd)
    decreases Budget(depth, dd), 4, |items|
  {
    hide ValueOf, EnvOk, Shows;
    if items != [] {
      ValueShows(env, items[0], depth, dd);
      ItemsAllShow(env, items[1..], depth, dd);
    }
  }

  ghost predicate MembersShow(env: Env, w: seq<(Ref, Ref)>, ms: seq<Member>, dd: nat)
    requires EnvOk(env) && ClosedPairs(env.g, w) && dd <= 255
  {
    && |w| == |ms|
    && forall k | 0 <= k < |w| :: KeyChars(env.g, w[k].0) == Ok(ms[k].key) && Shows(env, w[k].1, ms[k].value, dd)
  }

  lemma {:induction false} MembersAllShow(env: Env, w: seq<(Ref, Ref)>, depth: nat, dd: nat)
    requires EnvOk(env) && ClosedPairs(env.g, w) && depth <= MAX_DEPTH && dd <= MAX_DEFAULT_DEPTH
    requires MembersValue(env, w, depth, dd).Ok?
    ensures MembersShow(env, w, MembersValue(env, w, depth, dd).value, dd)
    decreases Budget(depth, dd), 4, |w|
  {
    hide ValueOf, EnvOk, Shows, KeyChars;
    if w != [] {
      ValueShows(env, w[0].1, depth, dd);
      MembersAllShow(env, w[1..], depth, dd);
    }
  }

  lemma {:induction false} DictShows(env: Env, pairs: seq<(Ref, Ref)>, depth: nat, dd: nat)
    requires EnvOk(env) && ClosedPairs(env.g, pairs) && depth <= MAX_DEPTH && dd <= MAX_DEFAULT_DEPTH
    requires DictValue(env, pairs, depth, dd).Ok?
    ensures var v := DictValue(env, pairs, depth, dd).value;
            && v.Obj?
            && exists w: seq<(Ref, Ref)> | WritingOrder(env, pairs, w, v.members) ::
                 forall k | 0 <= k < |v.members| :: Shows(env, w[k].1, v.members[k].value, dd)
    decreases Budget(depth, dd), 2, 0
  {
    hide MembersValue, EnvOk, WrittenPairs, Shows, KeyChars, KeysInOrder, MembersShow, WritingOrder;
    WrittenPairsPermute(env.g, pairs, env.opts);
    var w := WrittenPairs(env.g, pairs, env.opts).value;
    MembersAllShow(env, w, depth + 1, dd);
    InWritingOrder(env, pairs, w, MembersValue(env, w, depth + 1, dd).value, dd);
  }

  lemma InWritingOrder(env: Env, pairs: seq<(Ref, Ref)>, w: seq<(Ref, Ref)>, ms: seq<Member>, dd: nat)
    requires EnvOk(env) && ClosedPairs(env.g, w) && dd <= 255 && MembersShow(env, w, ms, dd)
    requires multiset(w) == multiset(pairs) && (env.opts.sortKeys ==> KeysInOrder(env.g, w)) && (!env.opts.sortKeys ==> w == pairs)
    ensures WritingOrder(env, pairs, w, ms)
    ensures forall k | 0 <= k < |ms| :: Shows(env, w[k].1, ms[k].value, dd)
  {
    hide EnvOk, Shows, SurrogateFree, NotAfter;
  }

  /** A datetime reads back as its fields, microseconds unless omitted, and its own offset, or zero where a naive one is taken as UTC. */
  lemma DatetimeReads(env: Env, r: Ref, depth: nat, dd: nat, p: Datetime.Parts, own: Option<int>, ind: bool, level: nat)
    requires EnvOk(env) && r in env.g && depth <= MAX_DEPTH && dd <= MAX_DEFAULT_DEPTH
    requires env.g[r] == PyObj(NDatetime(p, own), true) && !env.opts.passthroughDatetime
    ensures ValueOf(env, r, depth, dd).Ok?
    ensures IsoText.ReadDatetime(Write(ValueOf(env, r, depth, dd).value, ind, level))
         == Some((if env.opts.omitMicroseconds then p.(us := 0) else p,
                  if own.Some? then own else if env.opts.naiveUtc then Some(0) else None))
  {
    hide IsoText.ReadDatetime, Strings.Quoted, NumpyWalk.Tree, ListValue, DictValue, DefaultValue, DatetimeValue;
    assert NodeOk(env.g, env.g[r].node);
    ValueShows(env, r, depth, dd);
  }

  /** A date reads back as itself, whatever the options. */
  lemma DateReads(env: Env, r: Ref, depth: nat, dd: nat, p: Datetime.Parts, ind: bool, level: nat)
    requires EnvOk(env) && r in env.g && depth <= MAX_DEPTH && dd <= MAX_DEFAULT_DEPTH
    requires env.g[r] == PyObj(NDate(p), true) && !env.opts.passthroughDatetime
    ensures ValueOf(env, r, depth, dd).Ok?
    ensures ReadDate(Write(ValueOf(env, r, depth, dd).value, ind, level)) == Some((p.y, p.mo, p.d))
  {
    hide ReadDate, Strings.Quoted, NumpyWalk.Tree, ListValue, DictValue, DefaultValue, DateText;
    assert NodeOk(env.g, env.g[r].node);
    ValueShows(env, r, depth, dd);
  }

  /** A time reads back as itself with its own offset. */
  lemma TimeReads(env: Env, r: Ref, depth: nat, dd: nat, p: Datetime.Parts, own: Option<int>, ind: bool, level: nat)
    requires EnvOk(env) && r in env.g && depth <= MAX_DEPTH && dd <= MAX_DEFAULT_DEPTH
    requires env.g[r] == PyObj(NTime(p, own), true) && !env.opts.passthroughDatetime
    ensures ValueOf(env, r, depth, dd).Ok? && IsoText.FieldsFit(p)
    ensures ReadTime(Write(ValueOf(env, r, depth, dd).value, ind, level))
         == Some((IsoText.Clock(p.h, p.mi, p.s, if env.opts.omitMicroseconds then 0 else p.us), own))
  {
    hide ReadTime, Strings.Quoted, NumpyWalk.Tree, ListValue, DictValue, DefaultValue, TimeText;
    assert NodeOk(env.g, env.g[r].node);
    ValueShows(env, r, depth, dd);
  }

  /** `None`, booleans, floats and strings of the built-in types are written as themselves; a float that is not finite is null. */
  lemma ScalarValues(env: Env, r: Ref, depth: nat, dd: nat)
    requires EnvOk(env) && r in env.g && depth <= MAX_DEPTH && dd <= MAX_DEFAULT_DEPTH && env.g[r].exact
    ensures var n, v := env.g[r].node, ValueOf(env, r, depth, dd);
            && (n.NNull? ==> v == Ok(Null))
            && (n.NBool? ==> v == Ok(if n.b then Bool(true) else Bool(false)))
            && (n.NFloat? && n.token.Some? ==> v == Ok(Real(n.token.value)))
            && (n.NFloat? && n.token.None? ==> v == Ok(Null))
            && (n.NStr? && SurrogateFree(n.cps) ==> v == Ok(Str(n.cps)))
            && (n.NStr? && !SurrogateFree(n.cps) ==> v == Err(Surrogates))
  {
    hide SurrogateFree, NumpyWalk.Tree, ListValue, DictValue, DefaultValue;
    assert NodeOk(env.g, env.g[r].node);
  }
}
