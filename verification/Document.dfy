/** Whole calls of `dumps` (src/encode.rs): the round trip, the nesting limit, and declined arrays. */
module Document {
  import opened Common
  import opened Utf8
  import opened Out
  import opened JsonText
  import opened Objects
  import opened Encode
  import Datetime
  import IsoText
  import Numpy
  import NumpyWalk
  import Rfc8259
  import RoundTrip
  import Layout
  import Reading

  // ---- what is written can be read -----------------------------------------------------------

  /** The float tokens in the memory of arrays and scalars are number tokens. */
  ghost predicate ArrayTokensOk(env: Env) {
    forall r | r in env.g :: TokensOk(env.g[r].node)
  }

  ghost predicate TokensOk(n: Node) {
    match n
    case NArray(nd, _) => forall o | o in nd.data :: ElemTokenOk(nd.data[o])
    case NScalar(e, _, _) => ElemTokenOk(e)
    case _ => true
  }

  predicate ElemTokenOk(e: Numpy.Elem) {
    e.EFloat? && e.token.Some? ==> Rfc8259.RealToken(e.token.value)
  }

  lemma PlainIsSurrogateFree(s: seq<byte>)
    requires Numpy.Plain(s)
    ensures SurrogateFree(s)
  {}

  lemma ElemReadable(e: Numpy.Elem, unit: Option<Datetime.Dt64Unit>, opts: Opts)
    requires e.EDt64? ==> Datetime.I64_MIN <= e.v <= Datetime.I64_MAX && unit.Some? && Numpy.UnitOk(unit.value)
    requires ElemTokenOk(e) && Numpy.ElemTree(e, unit, opts).Some?
    ensures RoundTrip.Readable(Numpy.ElemTree(e, unit, opts).value)
  {
    hide Numpy.Plain, SurrogateFree, IsoText.DatetimeText, Rfc8259.RealToken, IsoText.FieldsFit, Datetime.Dt64ToParts;
    if e.EDt64? && Datetime.Dt64ToParts(e.v, unit.value).Value? {
      Numpy.PartsFit(e.v, unit.value);
      var inner := Numpy.InnerText(Datetime.Dt64ToParts(e.v, unit.value).parts, opts);
      PlainIsSurrogateFree(inner);
      var t := Numpy.Dt64Text(e.v, unit.value, opts);
      assert t[1..|t| - 1] == inner;
    }
  }

  lemma {:induction false} TreeReadable(a: NumpyWalk.NdArray, opts: Opts, dim: nat, p: int)
    requires NumpyWalk.Readable(a, dim, p) && NumpyWalk.Tree(a, opts, dim, p).Some?
    requires forall o | o in a.data :: ElemTokenOk(a.data[o])
    ensures RoundTrip.Readable(NumpyWalk.Tree(a, opts, dim, p).value)
    decreases |a.shape| - dim, 1, 0
  {
    hide NumpyWalk.InBounds, ElemTokenOk;
    if dim == |a.shape| {
      NumpyWalk.LeafReadable(a, dim, p);
      NumpyWalk.LeafDate(a, p);
      ElemReadable(a.data[p], a.unit, opts);
    } else {
      RowsReadable(a, opts, dim, p, 0);
    }
  }

  lemma {:induction false} RowsReadable(a: NumpyWalk.NdArray, opts: Opts, dim: nat, p: int, i: nat)
    requires NumpyWalk.Readable(a, dim, p) && dim < |a.shape| && i <= a.shape[dim]
    requires NumpyWalk.Rows(a, opts, dim, p, i).Some? && forall o | o in a.data :: ElemTokenOk(a.data[o])
    ensures var rows := NumpyWalk.Rows(a, opts, dim, p, i).value;
            forall k | 0 <= k < |rows| :: RoundTrip.Readable(rows[k])
    decreases |a.shape| - dim, 0, a.shape[dim] - i
  {
    hide NumpyWalk.InBounds, ElemTokenOk, RoundTrip.Readable;
    if i < a.shape[dim] {
      NumpyWalk.SubReadable(a, dim, p, i);
      TreeReadable(a, opts, dim + 1, p + i * a.strides[dim]);
      RowsReadable(a, opts, dim, p, i + 1);
    }
  }

  lemma IntReadable(i: int, opts: Opts, limit: nat)
    requires IntValue(i, opts, limit).Ok?
    ensures RoundTrip.Readable(IntValue(i, opts, limit).value)
  {}

  /** Every value the encoder writes can be read back. */
  lemma {:induction false} ValueReadable(env: Env, r: Ref, depth: nat, dd: nat)
    requires EnvOk(env) && ArrayTokensOk(env) && r in env.g && depth <= MAX_DEPTH && dd <= MAX_DEFAULT_DEPTH
    requires ValueOf(env, r, depth, dd).Ok?
    ensures RoundTrip.Readable(ValueOf(env, r, depth, dd).value)
    decreases Budget(depth, dd), 3, 0
  {
    hide ListValue, DictValue, DefaultValue, SurrogateFree, NumpyWalk.Tree, Rfc8259.RealToken, NumpyWalk.Readable;
    hide IsoText.DatetimeText, Numpy.Plain, ElemTokenOk, Numpy.ElemTree, IsoText.YmdText, TimeText, IntValue;
    var o := env.g[r];
    assert NodeOk(env.g, o.node) && TokensOk(o.node);
    if !Native(o, env.opts) {
      DefaultReadable(env, r, depth, dd);
    } else {
      match o.node
      case NList(items) => ListReadable(env, items, depth, dd);
      case NTuple(items) => ListReadable(env, items, depth, dd);
      case NDict(pairs) => DictReadable(env, pairs, depth, dd);
      case NArray(a, _) =>
        if NumpyWalk.Tree(a, env.opts, 0, a.base).Some? {
          TreeReadable(a, env.opts, 0, a.base);
        } else {
          DefaultReadable(env, r, depth, dd);
        }
      case NScalar(e, unit, _) =>
        if Numpy.ElemTree(e, unit, env.opts).Some? {
          ElemReadable(e, unit, env.opts);
        } else {
          DefaultReadable(env, r, depth, dd);
        }
      case NDate(parts) =>
        Numpy.YmdPlain(parts.y, parts.mo, parts.d);
        PlainIsSurrogateFree(DateText(parts));
      case NTime(parts, offset) =>
        TimePlain(parts, offset, env.opts);
        PlainIsSurrogateFree(TimeText(parts, offset, env.opts));
      case NInt(i) => IntReadable(i, env.opts, env.digitLimit);
      case NDatetime(parts, offset) =>
        var inner := DatetimeInner(parts, DatetimeOffset(offset, env.opts), env.opts);
        var t := IsoText.DatetimeText(parts, DatetimeOffset(offset, env.opts), env.opts);
        PlainIsSurrogateFree(inner);
        assert t[1..|t| - 1] == inner;
      case _ =>
    }
  }

  lemma {:induction false} DefaultReadable(env: Env, r: Ref, depth: nat, dd: nat)
    requires EnvOk(env) && ArrayTokensOk(env) && r in env.g && depth <= MAX_DEPTH && dd <= MAX_DEFAULT_DEPTH
    requires DefaultValue(env, r, depth, dd).Ok?
    ensures RoundTrip.Readable(DefaultValue(env, r, depth, dd).value)
    decreases Budget(depth, dd), 2, 0
  {
    hide ValueOf, RoundTrip.Readable, ArrayTokensOk;
    ValueReadable(env, env.default.value[r], depth, dd + 1);
  }

  lemma {:induction false} ListReadable(env: Env, items: seq<Ref>, depth: nat, dd: nat)
    requires EnvOk(env) && ArrayTokensOk(env) && Closed(env.g, items) && depth <= MAX_DEPTH && dd <= MAX_DEFAULT_DEPTH
    requires ListValue(env, items, depth, dd).Ok?
    ensures RoundTrip.Readable(ListValue(env, items, depth, dd).value)
    decreases Budget(depth, dd), 2, 0
  {
    hide ItemsValue, EnvOk, ArrayTokensOk;
    ItemsReadable(env, items, depth + 1, dd);
  }

  lemma {:induction false} ItemsReadable(env: Env, items: seq<Ref>, depth: nat, dd: nat)
    requires EnvOk(env) && ArrayTokensOk(env) && Closed(env.g, items) && depth <= MAX_DEPTH && dd <= MAX_DEFAULT_DEPTH
    requires ItemsValue(env, items, depth, dd).Ok?
    ensures var vs := ItemsValue(env, items, depth, dd).value; forall k | 0 <= k < |vs| :: RoundTrip.Readable(vs[k])
    decreases Budget(depth, dd), 4, |items|
  {
    hide ValueOf, EnvOk, ArrayTokensOk, RoundTrip.Readable;
    if items != [] {
      ValueReadable(env, items[0], depth, dd);
      ItemsReadable(env, items[1..], depth, dd);
    }
  }

  lemma {:induction false} DictReadable(env: Env, pairs: seq<(Ref, Ref)>, depth: nat, dd: nat)
    requires EnvOk(env) && ArrayTokensOk(env) && ClosedPairs(env.g, pairs) && depth <= MAX_DEPTH && dd <= MAX_DEFAULT_DEPTH
    requires DictValue(env, pairs, depth, dd).Ok?
    ensures RoundTrip.Readable(DictValue(env, pairs, depth, dd).value)
    decreases Budget(depth, dd), 2, 0
  {
    hide MembersValue, EnvOk, ArrayTokensOk, WrittenPairs, ClosedPairs, SurrogateFree;
    WrittenPairsPermute(env.g, pairs, env.opts);
    MembersReadable(env, WrittenPairs(env.g, pairs, env.opts).value, depth + 1, dd);
  }

  lemma {:induction false} MembersReadable(env: Env, pairs: seq<(Ref, Ref)>, depth: nat, dd: nat)
    requires EnvOk(env) && ArrayTokensOk(env) && ClosedPairs(env.g, pairs) && depth <= MAX_DEPTH && dd <= MAX_DEFAULT_DEPTH
    requires MembersValue(env, pairs, depth, dd).Ok?
    ensures var ms := MembersValue(env, pairs, depth, dd).value;
            forall k | 0 <= k < |ms| :: SurrogateFree(ms[k].key) && RoundTrip.Readable(ms[k].value)
    decreases Budget(depth, dd), 4, |pairs|
  {
    hide ValueOf, EnvOk, ArrayTokensOk, RoundTrip.Readable, SurrogateFree;
    if pairs != [] {
      ValueReadable(env, pairs[0].1, depth, dd);
      MembersReadable(env, pairs[1..], depth, dd);
    }
  }

  function Ending(opts: Opts): seq<byte> {
    if opts.appendNewline then [NEWLINE] else []
  }

  /**
   * One call of `dumps`: when it returns bytes they are the text of the object's value, laid out as
   * asked for, with a final line feed if asked for; read by the grammar of RFC 8259 they give that
   * value back, and the value shows the object.
   */
  method Dumps(hint: nat, env: Env, r: Ref) returns (result: array?<byte>, raised: Option<Error>)
    requires EnvOk(env) && ArrayTokensOk(env) && r in env.g
    ensures result != null ==>
              && ValueOf(env, r, 0, 0).Ok?
              && result[..] == Write(ValueOf(env, r, 0, 0).value, env.opts.indent2, 0) + (if env.opts.appendNewline then [0x0A] else [])
              && Layout.LaidOut(Write(ValueOf(env, r, 0, 0).value, env.opts.indent2, 0), env.opts.indent2)
              && Rfc8259.Parse(result[..]) == Some(ValueOf(env, r, 0, 0).value)
              && Reading.Shows(env, r, ValueOf(env, r, 0, 0).value, 0)
    ensures raised.Some? ==> result == null && ValueOf(env, r, 0, 0) == Err(raised.value)
    ensures ValueOf(env, r, 0, 0).Err? ==> result == null
  {
    hide ValueOf, EnvOk, ArrayTokensOk, Write, Rfc8259.Parse, RoundTrip.Readable, Layout.LaidOut, Reading.Shows;
    result, raised := null, None;
    var out := OutputBuffer.Create(hint);
    if out == null {
      return;
    }
    var enc := new Encoder(out, env);
    var ok := enc.Serialize(r);
    if !ok {
      return null, enc.raised;
    }
    ghost var v := ValueOf(env, r, 0, 0).value;
    ValueReadable(env, r, 0, 0);
    Reading.ValueShows(env, r, 0, 0);
    Layout.DocumentLaidOut(v, env.opts.indent2);
    ghost var text := Write(v, env.opts.indent2, 0);
    assert [] + text == text && text + [] == text;
    RoundTrip.DocumentReads(v, env.opts.indent2, []);
    RoundTrip.DocumentReads(v, env.opts.indent2, [NEWLINE]);
    if env.opts.appendNewline {
      out.Push(NEWLINE);
    }
    var bytes, _ := out.Finish();
    result := bytes;
  }

  /**
   * An array none of whose elements is refused is written so that parsing gives nested lists of its
   * shape, whose leaves are in row-major order the elements that the walk visits.
   */
  lemma ArrayReads(env: Env, r: Ref, a: NumpyWalk.NdArray)
    requires EnvOk(env) && ArrayTokensOk(env) && r in env.g
    requires env.g[r] == PyObj(NArray(a, true), true) && env.opts.serializeNumpy
    ensures |a.shape| == |a.strides|
    ensures !Reading.SomeRefused(a, NumpyWalk.Offsets(a, 0, a.base)) ==>
              && ValueOf(env, r, 0, 0).Ok?
              && var read := Rfc8259.Parse(Write(ValueOf(env, r, 0, 0).value, env.opts.indent2, 0));
                 && read.Some?
                 && Reading.ArrayShown(a, env.opts, 0, a.base, read.value)
                 && Reading.LeavesShow(a, env.opts, NumpyWalk.Offsets(a, 0, a.base), Reading.Leaves(read.value, |a.shape|))
  {
    hide Reading.SomeRefused, Reading.ArrayShown, Reading.LeavesShow, Reading.Leaves, NumpyWalk.Offsets, NumpyWalk.Tree, ArrayTokensOk;
    hide Write, Rfc8259.Parse, RoundTrip.Readable, NumpyWalk.InBounds, ListValue, DictValue, DefaultValue;
    assert NodeOk(env.g, env.g[r].node);
    Reading.LeavesInOrder(a, env.opts, 0, a.base);
    if !Reading.SomeRefused(a, NumpyWalk.Offsets(a, 0, a.base)) {
      Reading.TreeShown(a, env.opts, 0, a.base);
      ValueReadable(env, r, 0, 0);
      var v := ValueOf(env, r, 0, 0).value;
      RoundTrip.DocumentReads(v, env.opts.indent2, []);
      assert Write(v, env.opts.indent2, 0) + [] == Write(v, env.opts.indent2, 0);
    }
  }

  // ---- plain trees -----------------------------------------------------------------------------

  /**
   * Object `r` is a tree of built-in objects that stands for `v`: floats are finite, text has no
   * surrogates, and a dict's members are listed in the order they are written.
   */
  ghost predicate StandsFor(env: Env, r: Ref, v: Json)
    requires EnvOk(env)
    decreases v
  {
    && r in env.g
    && Native(env.g[r], env.opts)
    && assert NodeOk(env.g, env.g[r].node);
       match env.g[r].node
       case NNull => v == Null
       case NBool(b) => v == Bool(b)
       case NInt(i) => v == Int(i)
       case NFloat(Some(token)) => v == Real(token)
       case NStr(cps, _) => v == Str(cps) && SurrogateFree(cps)
       case NList(items) => v.Arr? && |items| == |v.items| && forall k | 0 <= k < |items| :: StandsFor(env, items[k], v.items[k])
       case NTuple(items) => v.Arr? && |items| == |v.items| && forall k | 0 <= k < |items| :: StandsFor(env, items[k], v.items[k])
       case NDict(pairs) =>
         var w := WrittenPairs(env.g, pairs, env.opts);
         && v.Obj? && w.Ok? && |w.value| == |v.members|
         && forall k | 0 <= k < |v.members| ::
              && w.value[k].0 in env.g && KeyChars(env.g, w.value[k].0) == Ok(v.members[k].key)
              && StandsFor(env, w.value[k].1, v.members[k].value)
       case _ => false
  }

  /** Every integer in the value is one that is written. */
  predicate IntsAdmitted(v: Json, opts: Opts, limit: nat) {
    match v
    case Int(i) => Admitted(i, opts, limit)
    case Arr(items) => forall k | 0 <= k < |items| :: IntsAdmitted(items[k], opts, limit)
    case Obj(members) => forall k | 0 <= k < |members| :: IntsAdmitted(members[k].value, opts, limit)
    case _ => true
  }

  predicate ItemsAdmitted(vs: seq<Json>, opts: Opts, limit: nat) {
    forall k | 0 <= k < |vs| :: IntsAdmitted(vs[k], opts, limit)
  }

  predicate MembersAdmitted(ms: seq<Member>, opts: Opts, limit: nat) {
    forall k | 0 <= k < |ms| :: IntsAdmitted(ms[k].value, opts, limit)
  }

  /** The outcome of a tree: its value, or some error. */
  predicate Outcome<T(==)>(r: Result<T>, v: T, written: bool) {
    if written then r == Ok(v) else r.Err?
  }

  /**
   * A tree is written as the value it stands for, tuples as lists, exactly when at most 254
   * containers are nested and its integers are admitted; otherwise the call fails.
   */
  lemma {:induction false} TreeValue(env: Env, r: Ref, v: Json, depth: nat, dd: nat)
    requires EnvOk(env) && dd <= MAX_DEFAULT_DEPTH && depth <= MAX_DEPTH && StandsFor(env, r, v)
    ensures Outcome(ValueOf(env, r, depth, dd), v, depth + Height(v) <= MAX_DEPTH && IntsAdmitted(v, env.opts, env.digitLimit))
    decreases v, 0
  {
    hide SurrogateFree, WrittenPairs, KeyChars, ItemsHeight, MembersHeight, ItemsValue, MembersValue, ClosedPairs, Closed, Admitted;
    assert NodeOk(env.g, env.g[r].node);
    match env.g[r].node
    case NList(items) => if depth < MAX_DEPTH { TreeItems(env, items, v.items, depth + 1, dd); }
    case NTuple(items) => if depth < MAX_DEPTH { TreeItems(env, items, v.items, depth + 1, dd); }
    case NDict(pairs) =>
      if depth < MAX_DEPTH {
        WrittenPairsPermute(env.g, pairs, env.opts);
        TreeMembers(env, WrittenPairs(env.g, pairs, env.opts).value, v.members, depth + 1, dd);
      }
    case _ =>
  }

  lemma {:induction false} TreeItems(env: Env, items: seq<Ref>, vs: seq<Json>, depth: nat, dd: nat)
    requires EnvOk(env) && Closed(env.g, items) && dd <= MAX_DEFAULT_DEPTH && depth <= MAX_DEPTH && |items| == |vs|
    requires forall k | 0 <= k < |items| :: StandsFor(env, items[k], vs[k])
    ensures Outcome(ItemsValue(env, items, depth, dd), vs,
                    depth + ItemsHeight(vs) <= MAX_DEPTH && ItemsAdmitted(vs, env.opts, env.digitLimit))
    decreases vs, 1
  {
    hide EnvOk, ValueOf, StandsFor, IntsAdmitted;
    if items != [] {
      TreeValue(env, items[0], vs[0], depth, dd);
      TreeItems(env, items[1..], vs[1..], depth, dd);
      ItemsAdmittedStep(vs, env.opts, env.digitLimit);
      assert vs == [vs[0]] + vs[1..];
    }
  }

  lemma ItemsAdmittedStep(vs: seq<Json>, opts: Opts, limit: nat)
    requires vs != []
    ensures ItemsAdmitted(vs, opts, limit) <==> IntsAdmitted(vs[0], opts, limit) && ItemsAdmitted(vs[1..], opts, limit)
  {
    hide IntsAdmitted;
    assert vs == [vs[0]] + vs[1..];
  }

  lemma {:induction false} TreeMembers(env: Env, pairs: seq<(Ref, Ref)>, ms: seq<Member>, depth: nat, dd: nat)
    requires EnvOk(env) && ClosedPairs(env.g, pairs) && dd <= MAX_DEFAULT_DEPTH && depth <= MAX_DEPTH && |pairs| == |ms|
    requires forall k | 0 <= k < |pairs| :: KeyChars(env.g, pairs[k].0) == Ok(ms[k].key) && StandsFor(env, pairs[k].1, ms[k].value)
    ensures Outcome(MembersValue(env, pairs, depth, dd), ms,
                    depth + MembersHeight(ms) <= MAX_DEPTH && MembersAdmitted(ms, env.opts, env.digitLimit))
    decreases ms, 1
  {
    hide EnvOk, ValueOf, StandsFor, KeyChars, IntsAdmitted;
    if pairs != [] {
      TreeValue(env, pairs[0].1, ms[0].value, depth, dd);
      TreeMembers(env, pairs[1..], ms[1..], depth, dd);
      MembersAdmittedStep(ms, env.opts, env.digitLimit);
      assert ms == [ms[0]] + ms[1..];
      assert ms[0] == Member(ms[0].key, ms[0].value);
    }
  }

  lemma MembersAdmittedStep(ms: seq<Member>, opts: Opts, limit: nat)
    requires ms != []
    ensures MembersAdmitted(ms, opts, limit) <==> IntsAdmitted(ms[0].value, opts, limit) && MembersAdmitted(ms[1..], opts, limit)
  {
    hide IntsAdmitted;
    assert ms == [ms[0]] + ms[1..];
  }

  /**
   * The whole-document round trip: a tree is written, as text that parses to the value it stands
   * for, exactly when at most 254 containers are nested in one another and its integers are admitted.
   */
  lemma TreeRoundTrip(env: Env, r: Ref, v: Json)
    requires EnvOk(env) && ArrayTokensOk(env) && StandsFor(env, r, v)
    ensures ValueOf(env, r, 0, 0) == Ok(v) <==> Height(v) <= 254 && IntsAdmitted(v, env.opts, env.digitLimit)
    ensures ValueOf(env, r, 0, 0) == Ok(v) || ValueOf(env, r, 0, 0).Err?
    ensures ValueOf(env, r, 0, 0).Ok? ==>
              Rfc8259.Parse(Write(v, env.opts.indent2, 0) + (if env.opts.appendNewline then [0x0A] else [])) == Some(v)
  {
    hide EnvOk, ArrayTokensOk, ValueOf, Write, Rfc8259.Parse, Height, RoundTrip.Readable, IntsAdmitted;
    TreeValue(env, r, v, 0, 0);
    if ValueOf(env, r, 0, 0).Ok? {
      ValueReadable(env, r, 0, 0);
      RoundTrip.DocumentReads(v, env.opts.indent2, Ending(env.opts));
    }
  }

  /** A list with one integer. */
  function OneInteger(i: int, opts: Opts, limit: nat): Env {
    Env(map[0 := PyObj(NList([1]), true), 1 := PyObj(NInt(i), true)], None, opts, limit)
  }

  /**
   * The round trip does not hold of every integer: the power of ten with one digit more than
   * CPython's limit, 4300 unless it is changed, is refused inside a list, and one less is written.
   */
  lemma LongIntegerRefused(opts: Opts, limit: nat)
    requires limit >= 20 && !opts.strictInteger
    ensures var env := OneInteger(IsoText.Pow10(limit), opts, limit);
            EnvOk(env) && StandsFor(env, 0, Arr([Int(IsoText.Pow10(limit))])) && ValueOf(env, 0, 0, 0) == Err(TooManyDigits)
    ensures var env := OneInteger(IsoText.Pow10(limit) - 1, opts, limit);
            EnvOk(env) && ValueOf(env, 0, 0, 0) == Ok(Arr([Int(IsoText.Pow10(limit) - 1)]))
  {
    hide IsoText.Pow10, IntValue;
    DigitLimitRefuses(opts, limit);
    OneIntegerValue(IsoText.Pow10(limit), opts, limit);
    OneIntegerValue(IsoText.Pow10(limit) - 1, opts, limit);
  }

  lemma OneIntegerValue(i: int, opts: Opts, limit: nat)
    ensures var env := OneInteger(i, opts, limit);
            && EnvOk(env) && StandsFor(env, 0, Arr([Int(i)]))
            && ValueOf(env, 0, 0, 0) == match IntValue(i, opts, limit) case Ok(v) => Ok(Arr([v])) case Err(e) => Err(e)
  {
    hide IntValue;
    var env := OneInteger(i, opts, limit);
    assert StandsFor(env, 1, Int(i));
    assert ValueOf(env, 1, 1, 0) == IntValue(i, opts, limit);
    SingleItem(env, 1, 1, 0);
  }

  lemma SingleItem(env: Env, r: Ref, depth: nat, dd: nat)
    requires EnvOk(env) && r in env.g && depth <= MAX_DEPTH && dd <= MAX_DEFAULT_DEPTH
    ensures Closed(env.g, [r])
    ensures ItemsValue(env, [r], depth, dd) == match ValueOf(env, r, depth, dd) case Ok(v) => Ok([v]) case Err(e) => Err(e)
  {
    hide EnvOk, ValueOf;
    assert [r][1..] == [];
    EmptyItems(env, depth, dd);
    match ValueOf(env, r, depth, dd)
    case Ok(v) => assert [v] + [] == [v];
    case Err(_) =>
  }

  // ---- the nesting limit -----------------------------------------------------------------------

  /** The objects directly inside a container that the encoder opens. */
  function Children(env: Env, r: Ref): seq<Ref>
    requires r in env.g
  {
    if !Native(env.g[r], env.opts) then []
    else match env.g[r].node
      case NList(items) => items
      case NTuple(items) => items
      case NDict(pairs) => seq(|pairs|, k requires 0 <= k < |pairs| => pairs[k].1)
      case _ => []
  }

  predicate IsContainer(env: Env, r: Ref)
    requires r in env.g
  {
    Native(env.g[r], env.opts) && (env.g[r].node.NList? || env.g[r].node.NTuple? || env.g[r].node.NDict?)
  }

  /** An array or a numpy scalar with an element that cannot be written. */
  ghost predicate Declined(n: Node, opts: Opts)
    requires n.NArray? && n.classified ==> NumpyWalk.Readable(n.nd, 0, n.nd.base)
    requires n.NScalar? && n.classified ==> ScalarOk(n.elem, n.unit)
  {
    match n
    case NArray(nd, classified) => classified && NumpyWalk.Tree(nd, opts, 0, nd.base).None?
    case NScalar(e, unit, classified) => classified && Numpy.ElemTree(e, unit, opts).None?
    case _ => false
  }

  /** The object is not written itself but handed to `default`. */
  ghost predicate GoesToDefault(env: Env, r: Ref)
    requires EnvOk(env) && r in env.g
  {
    assert NodeOk(env.g, env.g[r].node);
    || !Native(env.g[r], env.opts)
    || Declined(env.g[r].node, env.opts)
  }

  /** From `r`, through results of `default`, at least `n` containers are nested in one another. */
  ghost predicate Nests(env: Env, r: Ref, n: nat, dd: nat)
    requires EnvOk(env) && r in env.g && dd <= MAX_DEFAULT_DEPTH
    decreases n, MAX_DEFAULT_DEPTH - dd
  {
    || n == 0
    || (IsContainer(env, r) && (n == 1 || exists c :: c in Children(env, r) && c in env.g && Nests(env, c, n - 1, dd)))
    || (GoesToDefault(env, r) && dd < MAX_DEFAULT_DEPTH && env.default.Some? && r in env.default.value
        && Nests(env, env.default.value[r], n, dd + 1))
  }

  lemma {:induction false} ItemsLimit(env: Env, items: seq<Ref>, depth: nat, dd: nat) returns (c: Ref)
    requires EnvOk(env) && Closed(env.g, items) && depth <= MAX_DEPTH && dd <= MAX_DEFAULT_DEPTH
    requires ItemsValue(env, items, depth, dd) == Err(RecursionLimit)
    ensures c in items && c in env.g && ValueOf(env, c, depth, dd) == Err(RecursionLimit)
    decreases |items|
  {
    hide EnvOk, ValueOf;
    if ValueOf(env, items[0], depth, dd) == Err(RecursionLimit) {
      c := items[0];
    } else {
      c := ItemsLimit(env, items[1..], depth, dd);
    }
  }

  lemma {:induction false} MembersLimit(env: Env, pairs: seq<(Ref, Ref)>, depth: nat, dd: nat) returns (p: (Ref, Ref))
    requires EnvOk(env) && ClosedPairs(env.g, pairs) && depth <= MAX_DEPTH && dd <= MAX_DEFAULT_DEPTH
    requires MembersValue(env, pairs, depth, dd) == Err(RecursionLimit)
    ensures p in pairs && p.1 in env.g && ValueOf(env, p.1, depth, dd) == Err(RecursionLimit)
    decreases |pairs|
  {
    hide EnvOk, ValueOf;
    if KeyChars(env.g, pairs[0].0).Ok? && ValueOf(env, pairs[0].1, depth, dd) == Err(RecursionLimit) {
      p := pairs[0];
    } else {
      p := MembersLimit(env, pairs[1..], depth, dd);
    }
  }

  lemma {:induction false} KeyErrors(g: map<Ref, PyObj>, pairs: seq<(Ref, Ref)>)
    requires ClosedPairs(g, pairs)
    ensures KeyedPairs(g, pairs) != Err(RecursionLimit)
  {
    if pairs != [] { KeyErrors(g, pairs[1..]); }
  }

  lemma DictChild(env: Env, r: Ref, p: (Ref, Ref))
    requires EnvOk(env) && r in env.g && env.g[r].node.NDict? && Native(env.g[r], env.opts) && p in env.g[r].node.pairs
    ensures p.1 in Children(env, r)
  {
    hide EnvOk, Native;
    var k :| 0 <= k < |env.g[r].node.pairs| && env.g[r].node.pairs[k] == p;
    assert Children(env, r)[k] == p.1;
  }

  /** The child of a container at which the recursion limit is met. */
  lemma ChildLimit(env: Env, r: Ref, depth: nat, dd: nat) returns (c: Ref)
    requires EnvOk(env) && r in env.g && IsContainer(env, r) && depth < MAX_DEPTH && dd <= MAX_DEFAULT_DEPTH
    requires ValueOf(env, r, depth, dd) == Err(RecursionLimit)
    ensures c in Children(env, r) && c in env.g && ValueOf(env, c, depth + 1, dd) == Err(RecursionLimit)
  {
    hide SurrogateFree, NumpyWalk.Tree, NumpyWalk.Readable, KeyChars, ItemsValue, MembersValue, KeyedPairs, Native, ClosedPairs;
    assert NodeOk(env.g, env.g[r].node);
    match env.g[r].node
    case NList(items) => c := ItemsLimit(env, items, depth + 1, dd);
    case NTuple(items) => c := ItemsLimit(env, items, depth + 1, dd);
    case NDict(pairs) =>
      KeyErrors(env.g, pairs);
      var w := WrittenPairs(env.g, pairs, env.opts).value;
      WrittenPairsPermute(env.g, pairs, env.opts);
      var p := MembersLimit(env, w, depth + 1, dd);
      assert p in multiset(w);
      assert p in pairs;
      DictChild(env, r, p);
      c := p.1;
  }

  lemma DefaultIs(env: Env, r: Ref, depth: nat, dd: nat)
    requires EnvOk(env) && r in env.g && depth <= MAX_DEPTH && dd <= MAX_DEFAULT_DEPTH && GoesToDefault(env, r)
    ensures ValueOf(env, r, depth, dd) == DefaultValue(env, r, depth, dd)
  {
    hide NumpyWalk.Tree, NumpyWalk.Readable, Native, DefaultValue;
    assert NodeOk(env.g, env.g[r].node);
  }

  lemma DefaultInGraph(env: Env, r: Ref)
    requires EnvOk(env) && env.default.Some? && r in env.default.value
    ensures env.default.value[r] in env.g
  {}

  lemma LeafHasNoLimit(env: Env, r: Ref, depth: nat, dd: nat)
    requires EnvOk(env) && r in env.g && depth <= MAX_DEPTH && dd <= MAX_DEFAULT_DEPTH
    requires !GoesToDefault(env, r) && !IsContainer(env, r)
    ensures ValueOf(env, r, depth, dd) != Err(RecursionLimit)
  {
    hide NumpyWalk.Tree, NumpyWalk.Readable, DefaultValue, SurrogateFree;
    assert NodeOk(env.g, env.g[r].node);
  }

  /** The recursion error is raised only where a 255th container is opened inside 254 others. */
  lemma {:induction false} RecursionMeansNesting(env: Env, r: Ref, depth: nat, dd: nat)
    requires EnvOk(env) && r in env.g && depth <= MAX_DEPTH && dd <= MAX_DEFAULT_DEPTH
    requires ValueOf(env, r, depth, dd) == Err(RecursionLimit)
    ensures Nests(env, r, 255 - depth, dd)
    decreases Budget(depth, dd)
  {
    hide EnvOk, ValueOf, GoesToDefault, IsContainer, Children;
    if GoesToDefault(env, r) {
      DefaultIs(env, r, depth, dd);
      DefaultInGraph(env, r);
      RecursionMeansNesting(env, env.default.value[r], depth, dd + 1);
    } else if IsContainer(env, r) {
      if depth < MAX_DEPTH {
        var c := ChildLimit(env, r, depth, dd);
        RecursionMeansNesting(env, c, depth + 1, dd);
      }
    } else {
      LeafHasNoLimit(env, r, depth, dd);
    }
  }

  lemma {:induction false} ItemOk(env: Env, items: seq<Ref>, depth: nat, dd: nat, k: nat)
    requires EnvOk(env) && Closed(env.g, items) && depth <= MAX_DEPTH && dd <= MAX_DEFAULT_DEPTH
    requires ItemsValue(env, items, depth, dd).Ok? && k < |items|
    ensures ValueOf(env, items[k], depth, dd).Ok?
    decreases |items|
  {
    hide EnvOk, ValueOf;
    if k > 0 { ItemOk(env, items[1..], depth, dd, k - 1); }
  }

  lemma {:induction false} MemberOk(env: Env, pairs: seq<(Ref, Ref)>, depth: nat, dd: nat, k: nat)
    requires EnvOk(env) && ClosedPairs(env.g, pairs) && depth <= MAX_DEPTH && dd <= MAX_DEFAULT_DEPTH
    requires MembersValue(env, pairs, depth, dd).Ok? && k < |pairs|
    ensures ValueOf(env, pairs[k].1, depth, dd).Ok?
    decreases |pairs|
  {
    hide EnvOk, ValueOf;
    if k > 0 { MemberOk(env, pairs[1..], depth, dd, k - 1); }
  }

  /** A container is written only if it is not the 255th, and everything in it is. */
  lemma ContainerOk(env: Env, r: Ref, depth: nat, dd: nat, c: Ref)
    requires EnvOk(env) && r in env.g && IsContainer(env, r) && depth <= MAX_DEPTH && dd <= MAX_DEFAULT_DEPTH
    requires ValueOf(env, r, depth, dd).Ok? && c in Children(env, r) && c in env.g
    ensures depth < MAX_DEPTH && ValueOf(env, c, depth + 1, dd).Ok?
  {
    hide SurrogateFree, NumpyWalk.Tree, NumpyWalk.Readable, KeyChars, ItemsValue, MembersValue, WrittenPairs, Native, ClosedPairs;
    assert NodeOk(env.g, env.g[r].node);
    var k :| 0 <= k < |Children(env, r)| && Children(env, r)[k] == c;
    match env.g[r].node
    case NList(items) => ItemOk(env, items, depth + 1, dd, k);
    case NTuple(items) => ItemOk(env, items, depth + 1, dd, k);
    case NDict(pairs) =>
      var w := WrittenPairs(env.g, pairs, env.opts).value;
      WrittenPairsPermute(env.g, pairs, env.opts);
      assert pairs[k] in multiset(pairs);
      assert pairs[k] in multiset(w);
      assert pairs[k] in w;
      var j :| 0 <= j < |w| && w[j] == pairs[k];
      MemberOk(env, w, depth + 1, dd, j);
  }

  lemma ContainerDepth(env: Env, r: Ref, depth: nat, dd: nat)
    requires EnvOk(env) && r in env.g && IsContainer(env, r) && depth <= MAX_DEPTH && dd <= MAX_DEFAULT_DEPTH
    requires ValueOf(env, r, depth, dd).Ok?
    ensures depth < MAX_DEPTH
  {
    hide SurrogateFree, NumpyWalk.Tree, NumpyWalk.Readable, ItemsValue, MembersValue, WrittenPairs, Native;
    assert NodeOk(env.g, env.g[r].node);
  }

  /** And where containers nest that deep, the call always fails. */
  lemma {:induction false} NestingFails(env: Env, r: Ref, depth: nat, dd: nat)
    requires EnvOk(env) && r in env.g && depth <= MAX_DEPTH && dd <= MAX_DEFAULT_DEPTH
    requires Nests(env, r, 255 - depth, dd)
    ensures ValueOf(env, r, depth, dd).Err?
    decreases Budget(depth, dd)
  {
    hide EnvOk, ValueOf, GoesToDefault, IsContainer, Children;
    if ValueOf(env, r, depth, dd).Ok? {
      if IsContainer(env, r) && (depth == MAX_DEPTH ||
           exists c :: c in Children(env, r) && c in env.g && Nests(env, c, MAX_DEPTH - depth, dd)) {
        ContainerDepth(env, r, depth, dd);
        var c :| c in Children(env, r) && c in env.g && Nests(env, c, MAX_DEPTH - depth, dd);
        ContainerOk(env, r, depth, dd, c);
        NestingFails(env, c, depth + 1, dd);
      } else {
        DefaultIs(env, r, depth, dd);
        DefaultInGraph(env, r);
        NestingFails(env, env.default.value[r], depth, dd + 1);
      }
    }
  }

  /** A container with one of `s` directly inside it, or a value for which `default` returns one of `s`. */
  ghost predicate LeadsInto(env: Env, r: Ref, s: set<Ref>)
    requires EnvOk(env)
  {
    && r in env.g
    && (|| (IsContainer(env, r) && exists c :: c in Children(env, r) && c in s)
        || (GoesToDefault(env, r) && env.default.Some? && r in env.default.value && env.default.value[r] in s))
  }

  /** Containers and results of `default` that lead back to one another. */
  ghost predicate Cyclic(env: Env, s: set<Ref>)
    requires EnvOk(env)
  {
    forall r | r in s :: LeadsInto(env, r, s)
  }

  lemma CycleClosed(env: Env, s: set<Ref>, r: Ref)
    requires EnvOk(env) && Cyclic(env, s) && r in s
    ensures r in env.g && LeadsInto(env, r, s)
  {
    hide EnvOk, IsContainer, Children, GoesToDefault;
  }

  /** What is written at a place of the cycle has the next one in it, deeper or after one more call of `default`. */
  lemma NextInCycle(env: Env, s: set<Ref>, r: Ref, depth: nat, dd: nat) returns (c: Ref, inner: nat, calls: nat)
    requires EnvOk(env) && Cyclic(env, s) && r in s && r in env.g && depth <= MAX_DEPTH && dd <= MAX_DEFAULT_DEPTH
    requires ValueOf(env, r, depth, dd).Ok?
    ensures c in s && c in env.g && inner <= MAX_DEPTH && calls <= MAX_DEFAULT_DEPTH
    ensures ValueOf(env, c, inner, calls).Ok? && Budget(inner, calls) < Budget(depth, dd)
  {
    hide EnvOk, ValueOf, GoesToDefault, IsContainer, Children, Cyclic;
    CycleClosed(env, s, r);
    if IsContainer(env, r) && exists c :: c in Children(env, r) && c in s {
      ContainerDepth(env, r, depth, dd);
      c :| c in Children(env, r) && c in s;
      CycleClosed(env, s, c);
      ContainerOk(env, r, depth, dd, c);
      inner, calls := depth + 1, dd;
    } else {
      DefaultIs(env, r, depth, dd);
      c := env.default.value[r];
      CycleClosed(env, s, c);
      inner, calls := depth, dd + 1;
    }
  }

  /** A cyclic graph is refused, after finitely many steps, from wherever the walk enters it. */
  lemma {:induction false} CycleFails(env: Env, s: set<Ref>, r: Ref, depth: nat, dd: nat)
    requires EnvOk(env) && Cyclic(env, s) && r in s && depth <= MAX_DEPTH && dd <= MAX_DEFAULT_DEPTH
    ensures r in env.g && ValueOf(env, r, depth, dd).Err?
    decreases Budget(depth, dd)
  {
    hide EnvOk, ValueOf, Cyclic, LeadsInto, Budget;
    CycleClosed(env, s, r);
    if ValueOf(env, r, depth, dd).Ok? {
      var c, inner, calls := NextInCycle(env, s, r, depth, dd);
      CycleFails(env, s, c, inner, calls);
    }
  }

  // ---- declined arrays -------------------------------------------------------------------------

  /** What can be written inside one more call of `default` can be written without it, as the same value. */
  lemma {:induction false} FewerDefaults(env: Env, r: Ref, depth: nat, dd: nat)
    requires EnvOk(env) && r in env.g && depth <= MAX_DEPTH && dd < MAX_DEFAULT_DEPTH
    requires ValueOf(env, r, depth, dd + 1).Ok?
    ensures ValueOf(env, r, depth, dd) == ValueOf(env, r, depth, dd + 1)
    decreases Budget(depth, dd), 3, 0
  {
    hide SurrogateFree, NumpyWalk.Tree, NumpyWalk.Readable, ItemsValue, MembersValue, WrittenPairs, DefaultValue, ClosedPairs, Closed;
    assert NodeOk(env.g, env.g[r].node);
    if GoesToDefault(env, r) {
      DefaultIs(env, r, depth, dd);
      DefaultIs(env, r, depth, dd + 1);
      FewerDefaultsChained(env, r, depth, dd);
    } else {
      match env.g[r].node
      case NList(items) => if depth < MAX_DEPTH { FewerDefaultsItems(env, items, depth + 1, dd); }
      case NTuple(items) => if depth < MAX_DEPTH { FewerDefaultsItems(env, items, depth + 1, dd); }
      case NDict(pairs) =>
        if depth < MAX_DEPTH {
          WrittenPairsPermute(env.g, pairs, env.opts);
          FewerDefaultsMembers(env, WrittenPairs(env.g, pairs, env.opts).value, depth + 1, dd);
        }
      case _ =>
    }
  }

  lemma {:induction false} FewerDefaultsChained(env: Env, r: Ref, depth: nat, dd: nat)
    requires EnvOk(env) && r in env.g && depth <= MAX_DEPTH && dd < MAX_DEFAULT_DEPTH
    requires DefaultValue(env, r, depth, dd + 1).Ok?
    ensures DefaultValue(env, r, depth, dd) == DefaultValue(env, r, depth, dd + 1)
    decreases Budget(depth, dd), 2, 0
  {
    hide ValueOf;
    FewerDefaults(env, env.default.value[r], depth, dd + 1);
  }

  lemma {:induction false} FewerDefaultsItems(env: Env, items: seq<Ref>, depth: nat, dd: nat)
    requires EnvOk(env) && Closed(env.g, items) && depth <= MAX_DEPTH && dd < MAX_DEFAULT_DEPTH
    requires ItemsValue(env, items, depth, dd + 1).Ok?
    ensures ItemsValue(env, items, depth, dd) == ItemsValue(env, items, depth, dd + 1)
    decreases Budget(depth, dd), 4, |items|
  {
    hide EnvOk, ValueOf;
    if items != [] {
      FewerDefaults(env, items[0], depth, dd);
      FewerDefaultsItems(env, items[1..], depth, dd);
    }
  }

  lemma {:induction false} FewerDefaultsMembers(env: Env, pairs: seq<(Ref, Ref)>, depth: nat, dd: nat)
    requires EnvOk(env) && ClosedPairs(env.g, pairs) && depth <= MAX_DEPTH && dd < MAX_DEFAULT_DEPTH
    requires MembersValue(env, pairs, depth, dd + 1).Ok?
    ensures MembersValue(env, pairs, depth, dd) == MembersValue(env, pairs, depth, dd + 1)
    decreases Budget(depth, dd), 4, |pairs|
  {
    hide EnvOk, ValueOf, KeyChars;
    if pairs != [] {
      FewerDefaults(env, pairs[0].1, depth, dd);
      FewerDefaultsMembers(env, pairs[1..], depth, dd);
    }
  }

  /**
   * Rollback is transparent: a list with an object that is handed to `default`, such as an array
   * declined at any element, is written as the list with what `default` returned in its place.
   */
  lemma {:induction false} DefaultTakesThePlace(env: Env, items: seq<Ref>, k: nat, depth: nat, dd: nat)
    requires EnvOk(env) && Closed(env.g, items) && k < |items| && depth <= MAX_DEPTH && dd <= MAX_DEFAULT_DEPTH
    requires GoesToDefault(env, items[k]) && ItemsValue(env, items, depth, dd).Ok?
    ensures env.default.Some? && items[k] in env.default.value
    ensures Closed(env.g, items[k := env.default.value[items[k]]])
    ensures ItemsValue(env, items[k := env.default.value[items[k]]], depth, dd) == ItemsValue(env, items, depth, dd)
    decreases |items|
  {
    hide ValueOf, GoesToDefault;
    ItemOk(env, items, depth, dd, k);
    DefaultIs(env, items[k], depth, dd);
    var x := env.default.value[items[k]];
    var other := items[k := x];
    if k == 0 {
      FewerDefaults(env, x, depth, dd);
      assert other[1..] == items[1..];
    } else {
      DefaultTakesThePlace(env, items[1..], k - 1, depth, dd);
      assert other[1..] == items[1..][k - 1 := x];
    }
  }
}
