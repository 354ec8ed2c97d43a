/**
 * The object graph `dumps` walks, and the JSON value an object stands for (src/encode.rs):
 * what is written natively, what goes to `default`, and every error.
 */
module Objects {
  import opened Common
  import opened Utf8
  import opened JsonText
  import opened Sorting
  import Strings
  import Datetime
  import IsoText
  import Numpy
  import NumpyWalk
  import Rfc8259

  /** The identity of an object. */
  type Ref = nat

  datatype Node =
    | NNull
    | NBool(b: bool)
    | NInt(i: int)
    | NFloat(token: Option<seq<byte>>)
    | NStr(cps: seq<codepoint>, text: Strings.StrText)
    | NList(items: seq<Ref>)
    | NTuple(items: seq<Ref>)
    | NDict(pairs: seq<(Ref, Ref)>)
    | NDatetime(parts: Datetime.Parts, offset: Option<int>)
    | NDate(parts: Datetime.Parts)
    | NTime(parts: Datetime.Parts, offset: Option<int>)
    | NArray(nd: NumpyWalk.NdArray, classified: bool)
    | NScalar(elem: Numpy.Elem, unit: Option<Datetime.Dt64Unit>, classified: bool)
    | NOther

  /** An object and whether its type is exactly the built-in one. */
  datatype PyObj = PyObj(node: Node, exact: bool)

  /**
   * A finite object graph, possibly cyclic; what `default` returns for each object it accepts; the
   * options; and how many digits the interpreter lets an integer's text have, 0 if any number.
   */
  datatype Env = Env(g: map<Ref, PyObj>, default: Option<map<Ref, Ref>>, opts: Opts, digitLimit: nat)

  predicate Closed(g: map<Ref, PyObj>, items: seq<Ref>) {
    forall k | 0 <= k < |items| :: items[k] in g
  }

  predicate ClosedPairs(g: map<Ref, PyObj>, pairs: seq<(Ref, Ref)>) {
    forall k | 0 <= k < |pairs| :: pairs[k].0 in g && pairs[k].1 in g
  }

  ghost predicate NodeOk(g: map<Ref, PyObj>, n: Node) {
    match n
    case NFloat(Some(token)) => Rfc8259.RealToken(token)
    case NStr(cps, text) => Strings.Holds(text, cps)
    case NList(items) => Closed(g, items)
    case NTuple(items) => Closed(g, items)
    case NDict(pairs) => ClosedPairs(g, pairs)
    case NDatetime(parts, offset) => StampOk(parts, offset)
    case NDate(parts) => StampOk(parts, None)
    case NTime(parts, offset) => StampOk(parts, offset)
    case NScalar(e, unit, classified) => classified ==> ScalarOk(e, unit)
    case NArray(a, classified) => classified ==> NumpyWalk.Readable(a, 0, a.base) && |a.shape| > 0
    case _ => true
  }

  /** Exact `datetime`, `date` and `time` objects. */
  predicate IsStamp(n: Node) {
    n.NDatetime? || n.NDate? || n.NTime?
  }

  /** Arrays and scalars of numpy that it tells the encoder how to read. */
  predicate IsNumpy(n: Node) {
    (n.NArray? && n.classified) || (n.NScalar? && n.classified)
  }

  /** Calendar fields that fit, and an offset of less than a day. */
  predicate StampOk(parts: Datetime.Parts, offset: Option<int>) {
    && IsoText.FieldsFit(parts)
    && (offset.Some? ==> -Datetime.US_PER_DAY < offset.value < Datetime.US_PER_DAY)
  }

  predicate ScalarOk(e: Numpy.Elem, unit: Option<Datetime.Dt64Unit>) {
    e.EDt64? ==> Datetime.I64_MIN <= e.v <= Datetime.I64_MAX && unit.Some? && Numpy.UnitOk(unit.value)
  }

  ghost predicate EnvOk(env: Env) {
    && (forall r | r in env.g :: NodeOk(env.g, env.g[r].node))
    && (env.default.Some? ==> forall r | r in env.default.value :: env.default.value[r] in env.g)
  }

  const MAX_DEPTH: nat := 254
  const MAX_DEFAULT_DEPTH: nat := 255

  datatype Error =
    | RecursionLimit
    | DefaultTooDeep
    | DefaultRaised
    | NotSerializable
    | Surrogates
    | KeyNotStr
    | Exceeds53Bits
    | TooManyDigits

  datatype Result<+T> = Ok(value: T) | Err(error: Error)

  /** Whether the encoder writes the object itself; otherwise it goes to `default`. */
  predicate Native(o: PyObj, opts: Opts) {
    if o.exact then
      match o.node
      case NOther => false
      case NDatetime(_, _) => !opts.passthroughDatetime
      case NDate(_) => !opts.passthroughDatetime
      case NTime(_, _) => !opts.passthroughDatetime
      case NArray(_, classified) => opts.serializeNumpy && classified
      case NScalar(_, _, classified) => opts.serializeNumpy && classified
      case _ => true
    else
      (o.node.NStr? || o.node.NInt? || o.node.NDict? || o.node.NList?) && !opts.passthroughSubclass
  }

  const LIMIT_53: int := 9_007_199_254_740_991
  const U64_MAX: int := 0xFFFF_FFFF_FFFF_FFFF

  predicate Fits53Bits(i: int) {
    -LIMIT_53 <= i <= LIMIT_53
  }

  predicate Fits64Bits(i: int) {
    Datetime.I64_MIN <= i <= U64_MAX
  }

  /** The number of decimal digits of an integer; the sign is none of them. */
  function DigitCount(i: int): nat {
    |NatText(if i < 0 then -i else i)|
  }

  /** CPython formats an integer of up to `limit` digits; it raises `ValueError` for a longer one. */
  function DecimalText(i: int, limit: nat): Option<seq<byte>> {
    if limit > 0 && DigitCount(i) > limit then None else Some(IntText(i))
  }

  /** Which integers are written: 53 bits where asked for; otherwise 64 bits, and wider ones up to the digit limit. */
  predicate Admitted(i: int, opts: Opts, limit: nat) {
    if opts.strictInteger then Fits53Bits(i)
    else Fits64Bits(i) || limit == 0 || DigitCount(i) <= limit
  }

  function IntValue(i: int, opts: Opts, limit: nat): Result<Json> {
    if Admitted(i, opts, limit) then Ok(Int(i))
    else if opts.strictInteger then Err(Exceeds53Bits)
    else Err(TooManyDigits)
  }

  /** An integer has at most `k` digits exactly when it is less than the `k`-th power of ten. */
  lemma {:induction false} DigitCountMeans(n: nat, k: nat)
    requires k > 0
    ensures |NatText(n)| <= k <==> n < IsoText.Pow10(k)
  {
    if n < 10 {
      PowerAtLeastTen(k);
    } else if k == 1 {
      assert IsoText.Pow10(1) == 10 * IsoText.Pow10(0);
    } else {
      DigitCountMeans(n / 10, k - 1);
      assert IsoText.Pow10(k) == 10 * IsoText.Pow10(k - 1);
    }
  }

  lemma {:induction false} PowerAtLeastTen(k: nat)
    requires k > 0
    ensures IsoText.Pow10(k) >= 10
  {
    if k > 1 { PowerAtLeastTen(k - 1); }
  }

  lemma {:induction false} PowerPast64Bits(k: nat)
    requires k >= 20
    ensures IsoText.Pow10(k) > U64_MAX
  {
    hide IsoText.Pow10;
    if k > 20 {
      PowerPast64Bits(k - 1);
      PowerStep(k);
    } else {
      Power20();
    }
  }

  lemma PowerStep(k: nat)
    requires k > 0
    ensures IsoText.Pow10(k) == 10 * IsoText.Pow10(k - 1)
  {}

  lemma Power20()
    ensures IsoText.Pow10(20) == 100_000_000_000_000_000_000
  {
    hide IsoText.Pow10;
    PowerStep(1); PowerStep(2); PowerStep(3); PowerStep(4); PowerStep(5);
    PowerStep(6); PowerStep(7); PowerStep(8); PowerStep(9); PowerStep(10);
    PowerStep(11); PowerStep(12); PowerStep(13); PowerStep(14); PowerStep(15);
    PowerStep(16); PowerStep(17); PowerStep(18); PowerStep(19); PowerStep(20);
    PowerZero();
  }

  lemma PowerZero()
    ensures IsoText.Pow10(0) == 1
  {}

  /**
   * With the 53-bit option an integer is written exactly when a double holds it and all below it;
   * otherwise exactly when it fits 64 bits, there is no limit, or it is below that power of ten.
   */
  lemma AdmittedExactly(i: int, opts: Opts, limit: nat)
    ensures opts.strictInteger ==>
              IntValue(i, opts, limit) == if -0x1F_FFFF_FFFF_FFFF <= i <= 0x1F_FFFF_FFFF_FFFF then Ok(Int(i)) else Err(Exceeds53Bits)
    ensures !opts.strictInteger ==>
              IntValue(i, opts, limit) ==
              if -0x8000_0000_0000_0000 <= i <= 0xFFFF_FFFF_FFFF_FFFF || limit == 0
                 || 0 - IsoText.Pow10(limit) < i < IsoText.Pow10(limit)
              then Ok(Int(i)) else Err(TooManyDigits)
  {
    hide NatText, IsoText.Pow10;
    if limit > 0 {
      DigitCountMeans(if i < 0 then -i else i, limit);
    }
  }

  /** An integer one digit past the limit is refused, and the largest below it is written. */
  lemma DigitLimitRefuses(opts: Opts, limit: nat)
    requires limit >= 20 && !opts.strictInteger
    ensures IntValue(IsoText.Pow10(limit), opts, limit) == Err(TooManyDigits)
    ensures IntValue(0 - IsoText.Pow10(limit), opts, limit) == Err(TooManyDigits)
    ensures IntValue(IsoText.Pow10(limit) - 1, opts, limit) == Ok(Int(IsoText.Pow10(limit) - 1))
  {
    hide NatText, IsoText.Pow10;
    PowerPast64Bits(limit);
    AdmittedExactly(IsoText.Pow10(limit), opts, limit);
    AdmittedExactly(0 - IsoText.Pow10(limit), opts, limit);
    AdmittedExactly(IsoText.Pow10(limit) - 1, opts, limit);
  }

  function DatetimeOffset(offset: Option<int>, opts: Opts): Option<int> {
    if offset.None? && opts.naiveUtc then Some(0) else offset
  }

  /** A datetime as a JSON string, the quotes taken off its text. */
  function DatetimeValue(parts: Datetime.Parts, offset: Option<int>, opts: Opts): Json
    requires IsoText.FieldsFit(parts)
  {
    var t := IsoText.DatetimeText(parts, DatetimeOffset(offset, opts), opts);
    Str(t[1..|t| - 1])
  }

  /** The text of a `date`, whatever the options. */
  function DateText(parts: Datetime.Parts): seq<byte>
    requires IsoText.FieldsFit(parts)
  {
    IsoText.YmdText(parts.y, parts.mo, parts.d)
  }

  /** The text of a `time`; only the option for microseconds applies, and zero is never `Z`. */
  function TimeText(parts: Datetime.Parts, offset: Option<int>, opts: Opts): seq<byte>
    requires IsoText.FieldsFit(parts)
  {
    IsoText.HmsText(parts.h, parts.mi, parts.s, parts.us, opts.omitMicroseconds)
    + if offset.Some? then IsoText.OffsetText(offset.value, false) else []
  }

  // ---- keys --------------------------------------------------------------------------------

  /** A dict key's text: it must be a `str` without surrogates. */
  function KeyChars(g: map<Ref, PyObj>, k: Ref): Result<seq<codepoint>>
    requires k in g
  {
    if !g[k].node.NStr? then Err(KeyNotStr)
    else if !SurrogateFree(g[k].node.cps) then Err(Surrogates)
    else Ok(g[k].node.cps)
  }

  /** The keys of a dict as the sort sees them, or the first error among them. */
  function KeyedPairs(g: map<Ref, PyObj>, pairs: seq<(Ref, Ref)>): Result<seq<Keyed<(Ref, Ref)>>>
    requires ClosedPairs(g, pairs)
  {
    if pairs == [] then Ok([])
    else match KeyChars(g, pairs[0].0)
      case Err(e) => Err(e)
      case Ok(cps) =>
        match KeyedPairs(g, pairs[1..])
        case Err(e) => Err(e)
        case Ok(rest) => Ok([KeyedPair(g, pairs[0], cps)] + rest)
  }

  function KeyedPair(g: map<Ref, PyObj>, pair: (Ref, Ref), cps: seq<codepoint>): Keyed<(Ref, Ref)>
    requires pair.0 in g && g[pair.0].node.NStr?
  {
    var t := g[pair.0].node.text;
    Keyed(if t.Utf8? then Some(t.bytes) else None, cps, pair)
  }

  function PairsOf(s: seq<Keyed<(Ref, Ref)>>): (r: seq<(Ref, Ref)>)
    ensures |r| == |s| && forall k | 0 <= k < |s| :: r[k] == s[k].value
  {
    if s == [] then [] else [s[0].value] + PairsOf(s[1..])
  }

  /** The pairs of a dict in the order they are written. */
  function WrittenPairs(g: map<Ref, PyObj>, pairs: seq<(Ref, Ref)>, opts: Opts): Result<seq<(Ref, Ref)>>
    requires ClosedPairs(g, pairs)
  {
    if !opts.sortKeys then Ok(pairs)
    else match KeyedPairs(g, pairs)
      case Err(e) => Err(e)
      case Ok(keyed) => Ok(PairsOf(Sort(keyed)))
  }

  lemma {:induction false} KeyedPairAt(g: map<Ref, PyObj>, pairs: seq<(Ref, Ref)>, k: nat)
    requires ClosedPairs(g, pairs) && KeyedPairs(g, pairs).Ok?
    requires k < |pairs|
    ensures var s := KeyedPairs(g, pairs).value;
            && |s| == |pairs| && s[k].value == pairs[k]
            && KeyChars(g, pairs[k].0) == Ok(s[k].cps) && s[k] == KeyedPair(g, pairs[k], s[k].cps)
    decreases |pairs|
  {
    hide KeyChars;
    KeyedPairsLength(g, pairs);
    if k > 0 {
      KeyedPairAt(g, pairs[1..], k - 1);
      assert KeyedPairs(g, pairs).value[k] == KeyedPairs(g, pairs[1..]).value[k - 1];
    }
  }

  lemma {:induction false} KeyedPairsLength(g: map<Ref, PyObj>, pairs: seq<(Ref, Ref)>)
    requires ClosedPairs(g, pairs) && KeyedPairs(g, pairs).Ok?
    ensures |KeyedPairs(g, pairs).value| == |pairs|
  {
    hide KeyChars, KeyedPair;
    if pairs != [] { KeyedPairsLength(g, pairs[1..]); }
  }

  lemma {:induction false} InsertedPairs(x: Keyed<(Ref, Ref)>, s: seq<Keyed<(Ref, Ref)>>)
    ensures multiset(PairsOf(Insert(x, s))) == multiset{x.value} + multiset(PairsOf(s))
  {
    hide Compare;
    var r := Insert(x, s);
    if s == [] || Compare(x.cps, s[0].cps) <= 0 {
      assert PairsOf(r) == [x.value] + PairsOf(s);
    } else {
      InsertedPairs(x, s[1..]);
      assert PairsOf(r) == [s[0].value] + PairsOf(Insert(x, s[1..]));
      assert PairsOf(s) == [s[0].value] + PairsOf(s[1..]);
    }
  }

  lemma {:induction false} SortedPairs(s: seq<Keyed<(Ref, Ref)>>)
    ensures multiset(PairsOf(Sort(s))) == multiset(PairsOf(s))
  {
    hide Insert;
    if s != [] {
      SortedPairs(s[1..]);
      InsertedPairs(s[0], Sort(s[1..]));
      assert PairsOf(s) == [s[0].value] + PairsOf(s[1..]);
    }
  }

  /** Each written pair of a sorted dict is one of its pairs, with the key the sort used. */
  lemma SortedPairIsPair(g: map<Ref, PyObj>, pairs: seq<(Ref, Ref)>, k: nat)
    requires ClosedPairs(g, pairs) && KeyedPairs(g, pairs).Ok?
    requires k < |Sort(KeyedPairs(g, pairs).value)|
    ensures var x := Sort(KeyedPairs(g, pairs).value)[k];
            x.value.0 in g && x.value.1 in g && KeyChars(g, x.value.0) == Ok(x.cps)
  {
    hide KeyChars, Sort, KeyedPair;
    var s := KeyedPairs(g, pairs).value;
    SortIsOrderedPermutation(s);
    KeyedPairsLength(g, pairs);
    assert Sort(s)[k] in multiset(Sort(s));
    assert Sort(s)[k] in s;
    var i :| 0 <= i < |s| && s[i] == Sort(s)[k];
    KeyedPairAt(g, pairs, i);
  }

  lemma PairsAreThePairs(g: map<Ref, PyObj>, pairs: seq<(Ref, Ref)>)
    requires ClosedPairs(g, pairs) && KeyedPairs(g, pairs).Ok?
    ensures PairsOf(KeyedPairs(g, pairs).value) == pairs
  {
    hide KeyChars, KeyedPair;
    KeyedPairsLength(g, pairs);
    forall k | 0 <= k < |pairs| ensures PairsOf(KeyedPairs(g, pairs).value)[k] == pairs[k] {
      KeyedPairAt(g, pairs, k);
    }
  }

  /** Every key is valid, and they are in code-point order. */
  ghost predicate KeysInOrder(g: map<Ref, PyObj>, w: seq<(Ref, Ref)>)
    requires ClosedPairs(g, w)
  {
    && (forall k | 0 <= k < |w| :: KeyChars(g, w[k].0).Ok?)
    && (forall i, j | 0 <= i < j < |w| :: NotAfter(KeyChars(g, w[i].0).value, KeyChars(g, w[j].0).value))
  }

  lemma SortedPairsClosed(g: map<Ref, PyObj>, pairs: seq<(Ref, Ref)>)
    requires ClosedPairs(g, pairs) && KeyedPairs(g, pairs).Ok?
    ensures var w := PairsOf(Sort(KeyedPairs(g, pairs).value));
            multiset(w) == multiset(pairs) && |w| == |pairs| && ClosedPairs(g, w)
  {
    hide KeyChars, Sort, KeyedPairs;
    var s := KeyedPairs(g, pairs).value;
    KeyedPairsLength(g, pairs);
    SortIsOrderedPermutation(s);
    SortedPairs(s);
    PairsAreThePairs(g, pairs);
    var w := PairsOf(Sort(s));
    forall k | 0 <= k < |w| ensures w[k].0 in g && w[k].1 in g {
      SortedPairIsPair(g, pairs, k);
    }
  }

  lemma SortedPairsInOrder(g: map<Ref, PyObj>, pairs: seq<(Ref, Ref)>)
    requires ClosedPairs(g, pairs) && KeyedPairs(g, pairs).Ok?
    ensures ClosedPairs(g, PairsOf(Sort(KeyedPairs(g, pairs).value)))
    ensures KeysInOrder(g, PairsOf(Sort(KeyedPairs(g, pairs).value)))
  {
    hide KeyChars, Sort, Compare, KeyedPairs, NotAfter;
    SortedPairsClosed(g, pairs);
    var t := Sort(KeyedPairs(g, pairs).value);
    SortIsOrderedPermutation(KeyedPairs(g, pairs).value);
    forall k | 0 <= k < |t| ensures KeyChars(g, PairsOf(t)[k].0) == Ok(t[k].cps) {
      SortedPairIsPair(g, pairs, k);
    }
  }

  /** The written pairs are a permutation of the dict's; sorted, their keys are in code-point order and all valid. */
  lemma WrittenPairsPermute(g: map<Ref, PyObj>, pairs: seq<(Ref, Ref)>, opts: Opts)
    requires ClosedPairs(g, pairs) && WrittenPairs(g, pairs, opts).Ok?
    ensures var w := WrittenPairs(g, pairs, opts).value;
            && multiset(w) == multiset(pairs) && |w| == |pairs| && ClosedPairs(g, w)
            && (opts.sortKeys ==> KeysInOrder(g, w))
            && (!opts.sortKeys ==> w == pairs)
  {
    hide Sort, KeyedPairs, KeysInOrder, ClosedPairs;
    if opts.sortKeys {
      SortedPairsClosed(g, pairs);
      SortedPairsInOrder(g, pairs);
    }
  }

  // ---- the value of an object --------------------------------------------------------------

  /** Levels of nesting and of `default` calls still allowed. */
  function Budget(depth: nat, dd: nat): nat
    requires depth <= MAX_DEPTH && dd <= MAX_DEFAULT_DEPTH
  {
    (MAX_DEPTH - depth) + (MAX_DEFAULT_DEPTH - dd)
  }

  /** The JSON value that object `r` is written as, inside `depth` containers and `dd` calls of `default`. */
  ghost function ValueOf(env: Env, r: Ref, depth: nat, dd: nat): Result<Json>
    requires EnvOk(env) && r in env.g && depth <= MAX_DEPTH && dd <= MAX_DEFAULT_DEPTH
    decreases Budget(depth, dd), 3, 0
  {
    var o := env.g[r];
    assert NodeOk(env.g, o.node);
    if !Native(o, env.opts) then DefaultValue(env, r, depth, dd)
    else match o.node
      case NNull => Ok(Null)
      case NBool(b) => Ok(Bool(b))
      case NInt(i) => IntValue(i, env.opts, env.digitLimit)
      case NFloat(None) => Ok(Null)
      case NFloat(Some(token)) => Ok(Real(token))
      case NStr(cps, _) => if SurrogateFree(cps) then Ok(Str(cps)) else Err(Surrogates)
      case NList(items) => ListValue(env, items, depth, dd)
      case NTuple(items) => ListValue(env, items, depth, dd)
      case NDict(pairs) => DictValue(env, pairs, depth, dd)
      case NDatetime(parts, offset) => Ok(DatetimeValue(parts, offset, env.opts))
      case NDate(parts) => Ok(Str(DateText(parts)))
      case NTime(parts, offset) => Ok(Str(TimeText(parts, offset, env.opts)))
      case NScalar(e, unit, _) =>
        (match Numpy.ElemTree(e, unit, env.opts)
         case Some(v) => Ok(v)
         case None => DefaultValue(env, r, depth, dd))
      case NArray(a, _) =>
        (match NumpyWalk.Tree(a, env.opts, 0, a.base)
         case Some(v) => Ok(v)
         case None => DefaultValue(env, r, depth, dd))
      case NOther => Err(NotSerializable)
  }

  /** The value of what `default` returns for `r`. */
  ghost function DefaultValue(env: Env, r: Ref, depth: nat, dd: nat): Result<Json>
    requires EnvOk(env) && r in env.g && depth <= MAX_DEPTH && dd <= MAX_DEFAULT_DEPTH
    decreases Budget(depth, dd), 2, 0
  {
    match env.default
    case None => Err(NotSerializable)
    case Some(m) =>
      if dd >= MAX_DEFAULT_DEPTH then Err(DefaultTooDeep)
      else if r !in m then Err(DefaultRaised)
      else ValueOf(env, m[r], depth, dd + 1)
  }

  ghost function ListValue(env: Env, items: seq<Ref>, depth: nat, dd: nat): Result<Json>
    requires EnvOk(env) && Closed(env.g, items) && depth <= MAX_DEPTH && dd <= MAX_DEFAULT_DEPTH
    decreases Budget(depth, dd), 2, 0
  {
    if depth >= MAX_DEPTH then Err(RecursionLimit)
    else match ItemsValue(env, items, depth + 1, dd)
      case Err(e) => Err(e)
      case Ok(vs) => Ok(Arr(vs))
  }

  ghost function ItemsValue(env: Env, items: seq<Ref>, depth: nat, dd: nat): Result<seq<Json>>
    requires EnvOk(env) && Closed(env.g, items) && depth <= MAX_DEPTH && dd <= MAX_DEFAULT_DEPTH
    decreases Budget(depth, dd), 4, |items|
  {
    if items == [] then Ok([])
    else match ValueOf(env, items[0], depth, dd)
      case Err(e) => Err(e)
      case Ok(v) =>
        match ItemsValue(env, items[1..], depth, dd)
        case Err(e) => Err(e)
        case Ok(rest) => Ok([v] + rest)
  }

  ghost function DictValue(env: Env, pairs: seq<(Ref, Ref)>, depth: nat, dd: nat): Result<Json>
    requires EnvOk(env) && ClosedPairs(env.g, pairs) && depth <= MAX_DEPTH && dd <= MAX_DEFAULT_DEPTH
    decreases Budget(depth, dd), 2, 0
  {
    if depth >= MAX_DEPTH then Err(RecursionLimit)
    else match WrittenPairs(env.g, pairs, env.opts)
      case Err(e) => Err(e)
      case Ok(written) =>
        WrittenPairsPermute(env.g, pairs, env.opts);
        match MembersValue(env, written, depth + 1, dd)
        case Err(e) => Err(e)
        case Ok(ms) => Ok(Obj(ms))
  }

  ghost function MembersValue(env: Env, pairs: seq<(Ref, Ref)>, depth: nat, dd: nat): Result<seq<Member>>
    requires EnvOk(env) && ClosedPairs(env.g, pairs) && depth <= MAX_DEPTH && dd <= MAX_DEFAULT_DEPTH
    decreases Budget(depth, dd), 4, |pairs|
  {
    if pairs == [] then Ok([])
    else match KeyChars(env.g, pairs[0].0)
      case Err(e) => Err(e)
      case Ok(key) =>
        match ValueOf(env, pairs[0].1, depth, dd)
        case Err(e) => Err(e)
        case Ok(v) =>
          match MembersValue(env, pairs[1..], depth, dd)
          case Err(e) => Err(e)
          case Ok(rest) => Ok([Member(key, v)] + rest)
  }
}
