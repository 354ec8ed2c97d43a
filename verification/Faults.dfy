/** Which calls of `dumps` fail, and that the error raised names a fault that is there (src/encode.rs). */
module Faults {
  import opened Common
  import opened Utf8
  import opened JsonText
  import opened Objects
  import opened Reading
  import opened Sorting
  import Datetime
  import Document
  import IsoText
  import Numpy
  import NumpyWalk

  /** A dict key that is no `str`, or has a surrogate. */
  predicate KeyFault(g: map<Ref, PyObj>, k: Ref, e: Error)
    requires k in g
  {
    if !g[k].node.NStr? then e == KeyNotStr else !SurrogateFree(g[k].node.cps) && e == Surrogates
  }

  predicate IntFault(i: int, opts: Opts, limit: nat, e: Error) {
    if opts.strictInteger then !(-0x1F_FFFF_FFFF_FFFF <= i <= 0x1F_FFFF_FFFF_FFFF) && e == Exceeds53Bits
    else
      && !(-0x8000_0000_0000_0000 <= i <= 0xFFFF_FFFF_FFFF_FFFF) && limit > 0
      && !(0 - IsoText.Pow10(limit) < i < IsoText.Pow10(limit)) && e == TooManyDigits
  }

  /** What `default` does not help with: there is none, it was called 255 times already, or it raises. */
  predicate DefaultFault(env: Env, r: Ref, dd: nat, e: Error) {
    match env.default
    case None => e == NotSerializable
    case Some(m) => if dd == 255 then e == DefaultTooDeep else r !in m && e == DefaultRaised
  }

  /** Object `r`, inside `depth` containers and `dd` calls of `default`, or something in it, has the fault that `e` names. */
  ghost predicate Faulty(env: Env, r: Ref, e: Error, depth: nat, dd: nat)
    requires EnvOk(env) && r in env.g && depth <= 254 && dd <= 255
    decreases 254 - depth + (255 - dd)
  {
    assert NodeOk(env.g, env.g[r].node);
    if HandedOn(env, r) then
      || DefaultFault(env, r, dd, e)
      || (dd < 255 && env.default.Some? && r in env.default.value && Faulty(env, env.default.value[r], e, depth, dd + 1))
    else
      match env.g[r].node
      case NStr(cps, _) => !SurrogateFree(cps) && e == Surrogates
      case NInt(i) => IntFault(i, env.opts, env.digitLimit, e)
      case NList(items) =>
        if depth == 254 then e == RecursionLimit else exists k :: 0 <= k < |items| && Faulty(env, items[k], e, depth + 1, dd)
      case NTuple(items) =>
        if depth == 254 then e == RecursionLimit else exists k :: 0 <= k < |items| && Faulty(env, items[k], e, depth + 1, dd)
      case NDict(pairs) =>
        if depth == 254 then e == RecursionLimit
        else exists k :: 0 <= k < |pairs| && (KeyFault(env.g, pairs[k].0, e) || Faulty(env, pairs[k].1, e, depth + 1, dd))
      case _ => false
  }

  // ---- an error names a fault ---------------------------------------------------------------------

  lemma {:induction false} ItemsError(env: Env, items: seq<Ref>, depth: nat, dd: nat) returns (k: nat)
    requires EnvOk(env) && Closed(env.g, items) && depth <= MAX_DEPTH && dd <= MAX_DEFAULT_DEPTH
    requires ItemsValue(env, items, depth, dd).Err?
    ensures k < |items| && ValueOf(env, items[k], depth, dd) == Err(ItemsValue(env, items, depth, dd).error)
    decreases |items|
  {
    hide EnvOk, ValueOf;
    if ValueOf(env, items[0], depth, dd).Err? {
      k := 0;
    } else {
      k := ItemsError(env, items[1..], depth, dd);
      k := k + 1;
    }
  }

  lemma {:induction false} MembersError(env: Env, w: seq<(Ref, Ref)>, depth: nat, dd: nat) returns (k: nat)
    requires EnvOk(env) && ClosedPairs(env.g, w) && depth <= MAX_DEPTH && dd <= MAX_DEFAULT_DEPTH
    requires MembersValue(env, w, depth, dd).Err?
    ensures k < |w|
    ensures var e := MembersValue(env, w, depth, dd).error;
            KeyChars(env.g, w[k].0) == Err(e) || ValueOf(env, w[k].1, depth, dd) == Err(e)
    decreases |w|
  {
    hide EnvOk, ValueOf, KeyChars;
    if KeyChars(env.g, w[0].0).Err? || ValueOf(env, w[0].1, depth, dd).Err? {
      k := 0;
    } else {
      k := MembersError(env, w[1..], depth, dd);
      k := k + 1;
    }
  }

  lemma {:induction false} KeyedError(g: map<Ref, PyObj>, pairs: seq<(Ref, Ref)>) returns (k: nat)
    requires ClosedPairs(g, pairs) && KeyedPairs(g, pairs).Err?
    ensures k < |pairs| && KeyChars(g, pairs[k].0) == Err(KeyedPairs(g, pairs).error)
    decreases |pairs|
  {
    hide KeyChars;
    if KeyChars(g, pairs[0].0).Err? {
      k := 0;
    } else {
      k := KeyedError(g, pairs[1..]);
      k := k + 1;
    }
  }

  /** The pair at fault in a dict that fails. */
  lemma DictError(env: Env, pairs: seq<(Ref, Ref)>, depth: nat, dd: nat) returns (k: nat)
    requires EnvOk(env) && ClosedPairs(env.g, pairs) && depth < MAX_DEPTH && dd <= MAX_DEFAULT_DEPTH
    requires DictValue(env, pairs, depth, dd).Err?
    ensures k < |pairs|
    ensures var e := DictValue(env, pairs, depth, dd).error;
            KeyFault(env.g, pairs[k].0, e) || ValueOf(env, pairs[k].1, depth + 1, dd) == Err(e)
  {
    hide EnvOk, ValueOf, MembersValue, KeyedPairs, SurrogateFree;
    if WrittenPairs(env.g, pairs, env.opts).Err? {
      k := KeyedError(env.g, pairs);
    } else {
      WrittenPairsPermute(env.g, pairs, env.opts);
      var w := WrittenPairs(env.g, pairs, env.opts).value;
      var j := MembersError(env, w, depth + 1, dd);
      assert w[j] in multiset(w);
      assert w[j] in multiset(pairs);
      assert w[j] in pairs;
      k :| 0 <= k < |pairs| && pairs[k] == w[j];
    }
  }

  lemma IntError(i: int, opts: Opts, limit: nat)
    ensures forall e :: IntFault(i, opts, limit, e) ==> IntValue(i, opts, limit).Err?
    ensures IntValue(i, opts, limit).Err? ==> IntFault(i, opts, limit, IntValue(i, opts, limit).error)
  {
    hide IsoText.Pow10, IntValue;
    AdmittedExactly(i, opts, limit);
  }

  /** Whatever error is raised, the object or something in it has the fault it names. */
  lemma {:induction false} ErrorMeans(env: Env, r: Ref, depth: nat, dd: nat)
    requires EnvOk(env) && r in env.g && depth <= 254 && dd <= 255
    requires ValueOf(env, r, depth, dd).Err?
    ensures Faulty(env, r, ValueOf(env, r, depth, dd).error, depth, dd)
    decreases Budget(depth, dd)
  {
    hide HandedOn, ListValue, DictValue, DefaultValue, SurrogateFree, NumpyWalk.Tree, NumpyWalk.Readable, Numpy.ElemTree, IntValue, IntFault;
    assert NodeOk(env.g, env.g[r].node);
    HandedOnIsDefault(env, r, depth, dd);
    if HandedOn(env, r) {
      DefaultMeans(env, r, depth, dd);
    } else {
      match env.g[r].node
      case NList(items) => ListMeans(env, items, depth, dd);
      case NTuple(items) => ListMeans(env, items, depth, dd);
      case NDict(pairs) => DictMeans(env, pairs, depth, dd);
      case NInt(i) => IntError(i, env.opts, env.digitLimit);
      case _ =>
    }
  }

  lemma {:induction false} DefaultMeans(env: Env, r: Ref, depth: nat, dd: nat)
    requires EnvOk(env) && r in env.g && depth <= 254 && dd <= 255 && DefaultValue(env, r, depth, dd).Err?
    ensures var e := DefaultValue(env, r, depth, dd).error;
            || DefaultFault(env, r, dd, e)
            || (dd < 255 && env.default.Some? && r in env.default.value && env.default.value[r] in env.g
                && Faulty(env, env.default.value[r], e, depth, dd + 1))
    decreases Budget(depth, dd), 0
  {
    hide ValueOf, Faulty, EnvOk;
    if env.default.Some? && dd < 255 && r in env.default.value {
      DefaultKnown(env, r);
      ErrorMeans(env, env.default.value[r], depth, dd + 1);
    }
  }

  lemma {:induction false} ListMeans(env: Env, items: seq<Ref>, depth: nat, dd: nat)
    requires EnvOk(env) && Closed(env.g, items) && depth <= 254 && dd <= 255 && ListValue(env, items, depth, dd).Err?
    ensures var e := ListValue(env, items, depth, dd).error;
            if depth == 254 then e == RecursionLimit else exists k :: 0 <= k < |items| && Faulty(env, items[k], e, depth + 1, dd)
    decreases Budget(depth, dd), 0
  {
    hide ItemsValue, ValueOf, Faulty, EnvOk;
    if depth < 254 {
      var k := ItemsError(env, items, depth + 1, dd);
      ErrorMeans(env, items[k], depth + 1, dd);
    }
  }

  lemma {:induction false} DictMeans(env: Env, pairs: seq<(Ref, Ref)>, depth: nat, dd: nat)
    requires EnvOk(env) && ClosedPairs(env.g, pairs) && depth <= 254 && dd <= 255 && DictValue(env, pairs, depth, dd).Err?
    ensures var e := DictValue(env, pairs, depth, dd).error;
            if depth == 254 then e == RecursionLimit
            else exists k :: 0 <= k < |pairs| && (KeyFault(env.g, pairs[k].0, e) || Faulty(env, pairs[k].1, e, depth + 1, dd))
    decreases Budget(depth, dd), 0
  {
    hide ValueOf, MembersValue, WrittenPairs, KeyFault, Faulty, EnvOk;
    if depth < 254 {
      var k := DictError(env, pairs, depth, dd);
      if !KeyFault(env.g, pairs[k].0, DictValue(env, pairs, depth, dd).error) {
        ErrorMeans(env, pairs[k].1, depth + 1, dd);
      }
    }
  }

  // ---- a fault makes the call fail -----------------------------------------------------------------

  lemma {:induction false} KeyFaultFails(env: Env, w: seq<(Ref, Ref)>, depth: nat, dd: nat, k: nat, e: Error)
    requires EnvOk(env) && ClosedPairs(env.g, w) && depth <= MAX_DEPTH && dd <= MAX_DEFAULT_DEPTH
    requires k < |w| && KeyFault(env.g, w[k].0, e)
    ensures MembersValue(env, w, depth, dd).Err?
    decreases |w|
  {
    hide EnvOk, ValueOf, SurrogateFree;
    if k > 0 { KeyFaultFails(env, w[1..], depth, dd, k - 1, e); }
  }

  /** A fault of one pair is a fault of the dict, whatever the order it is written in. */
  lemma PairFaultFails(env: Env, pairs: seq<(Ref, Ref)>, depth: nat, dd: nat, k: nat, e: Error)
    requires EnvOk(env) && ClosedPairs(env.g, pairs) && depth < MAX_DEPTH && dd <= MAX_DEFAULT_DEPTH && k < |pairs|
    requires KeyFault(env.g, pairs[k].0, e) || ValueOf(env, pairs[k].1, depth + 1, dd).Err?
    ensures DictValue(env, pairs, depth, dd).Err?
  {
    hide EnvOk, ValueOf, MembersValue, WrittenPairs, KeyFault;
    if WrittenPairs(env.g, pairs, env.opts).Ok? {
      WrittenPairsPermute(env.g, pairs, env.opts);
      var w := WrittenPairs(env.g, pairs, env.opts).value;
      assert pairs[k] in multiset(pairs);
      assert pairs[k] in multiset(w);
      assert pairs[k] in w;
      var j :| 0 <= j < |w| && w[j] == pairs[k];
      if KeyFault(env.g, w[j].0, e) {
        KeyFaultFails(env, w, depth + 1, dd, j, e);
      } else if MembersValue(env, w, depth + 1, dd).Ok? {
        Document.MemberOk(env, w, depth + 1, dd, j);
      }
    }
  }

  /** A call fails wherever there is a fault. */
  lemma {:induction false} FaultFails(env: Env, r: Ref, e: Error, depth: nat, dd: nat)
    requires EnvOk(env) && r in env.g && depth <= 254 && dd <= 255
    requires Faulty(env, r, e, depth, dd)
    ensures ValueOf(env, r, depth, dd).Err?
    decreases Budget(depth, dd)
  {
    hide HandedOn, DictValue, SurrogateFree, NumpyWalk.Tree, NumpyWalk.Readable, Numpy.ElemTree, IntValue, IntFault, ItemsValue, KeyFault;
    assert NodeOk(env.g, env.g[r].node);
    HandedOnIsDefault(env, r, depth, dd);
    if HandedOn(env, r) {
      if !DefaultFault(env, r, dd, e) {
        FaultFails(env, env.default.value[r], e, depth, dd + 1);
      }
    } else {
      match env.g[r].node
      case NList(items) => if depth < 254 { ItemFaultFails(env, items, e, depth, dd); }
      case NTuple(items) => if depth < 254 { ItemFaultFails(env, items, e, depth, dd); }
      case NDict(pairs) => MemberFaultFails(env, pairs, e, depth, dd);
      case NInt(i) => IntError(i, env.opts, env.digitLimit);
      case _ =>
    }
  }

  lemma {:induction false} ItemFaultFails(env: Env, items: seq<Ref>, e: Error, depth: nat, dd: nat)
    requires EnvOk(env) && Closed(env.g, items) && depth < 254 && dd <= 255
    requires exists k :: 0 <= k < |items| && Faulty(env, items[k], e, depth + 1, dd)
    ensures ItemsValue(env, items, depth + 1, dd).Err?
    decreases Budget(depth, dd), 0
  {
    hide EnvOk, ValueOf, ItemsValue, Faulty;
    var k :| 0 <= k < |items| && Faulty(env, items[k], e, depth + 1, dd);
    FaultFails(env, items[k], e, depth + 1, dd);
    if ItemsValue(env, items, depth + 1, dd).Ok? {
      Document.ItemOk(env, items, depth + 1, dd, k);
    }
  }

  lemma {:induction false} MemberFaultFails(env: Env, pairs: seq<(Ref, Ref)>, e: Error, depth: nat, dd: nat)
    requires EnvOk(env) && ClosedPairs(env.g, pairs) && depth <= 254 && dd <= 255
    requires depth == 254 ||
               exists k :: 0 <= k < |pairs| && (KeyFault(env.g, pairs[k].0, e) || Faulty(env, pairs[k].1, e, depth + 1, dd))
    ensures DictValue(env, pairs, depth, dd).Err?
    decreases Budget(depth, dd), 0
  {
    hide EnvOk, ValueOf, MembersValue, WrittenPairs, Faulty, KeyFault;
    if depth < 254 {
      var k :| 0 <= k < |pairs| && (KeyFault(env.g, pairs[k].0, e) || Faulty(env, pairs[k].1, e, depth + 1, dd));
      if !KeyFault(env.g, pairs[k].0, e) {
        FaultFails(env, pairs[k].1, e, depth + 1, dd);
      }
      PairFaultFails(env, pairs, depth, dd, k, e);
    }
  }
}
