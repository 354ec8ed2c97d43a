/**
 * The parser's tape and what it means (src/decode.rs): documents as trees, their pre-order
 * tape, the value a document denotes, and the plan of what an explicit stack still has to build.
 */
module Tape {
  import opened Common
  import opened Utf8

  datatype Node =
    | TString(s: seq<byte>)
    | TNull
    | TBool(b: bool)
    | TI64(v: int)
    | TU64(v: int)
    | TF64(token: seq<byte>)
    | TArray(len: nat)
    | TObject(len: nat)

  /** A parsed document. */
  datatype Tree =
    | Leaf(node: Node)
    | Items(items: seq<Tree>)
    | Members(members: seq<TreeMember>)

  datatype TreeMember = TreeMember(key: seq<byte>, value: Tree)

  /** What the parser guarantees: text is UTF-8. */
  predicate WellFormed(t: Tree) {
    match t
    case Leaf(n) => !n.TArray? && !n.TObject? && (n.TString? ==> Decode(n.s).Some?)
    case Items(items) => forall k | 0 <= k < |items| :: WellFormed(items[k])
    case Members(ms) => forall k | 0 <= k < |ms| :: Decode(ms[k].key).Some? && WellFormed(ms[k].value)
  }

  predicate WellFormedMember(m: TreeMember) {
    Decode(m.key).Some? && WellFormed(m.value)
  }

  /** The tape of a document, in pre-order; every container carries its count. */
  function TapeOf(t: Tree): seq<Node>
    decreases t, 0
  {
    match t
    case Leaf(n) => [n]
    case Items(items) => [TArray(|items|)] + ItemsTape(items)
    case Members(ms) => [TObject(|ms|)] + MembersTape(ms)
  }

  function ItemsTape(items: seq<Tree>): seq<Node>
    decreases items, 1
  {
    if items == [] then [] else TapeOf(items[0]) + ItemsTape(items[1..])
  }

  function MembersTape(ms: seq<TreeMember>): seq<Node>
    decreases ms, 1
  {
    if ms == [] then [] else [TString(ms[0].key)] + TapeOf(ms[0].value) + MembersTape(ms[1..])
  }

  // ---- the value of a document ---------------------------------------------------------------

  datatype Value =
    | VNone
    | VBool(b: bool)
    | VInt(i: int)
    | VFloat(token: seq<byte>)
    | VStr(cps: seq<codepoint>)
    | VList(items: seq<Value>)
    | VDict(entries: seq<Entry>)

  datatype Entry = Entry(key: seq<codepoint>, value: Value)

  /** Where `key` is among the entries, or their number. */
  function Find(entries: seq<Entry>, key: seq<codepoint>): (k: nat)
    ensures k <= |entries|
    ensures k < |entries| ==> entries[k].key == key
    ensures forall j | 0 <= j < k :: entries[j].key != key
  {
    if entries == [] then 0
    else if entries[0].key == key then 0
    else 1 + Find(entries[1..], key)
  }

  /** A dict keeps the place of a key it has and takes the new value. */
  function Put(entries: seq<Entry>, key: seq<codepoint>, v: Value): seq<Entry> {
    var k := Find(entries, key);
    if k < |entries| then entries[k := Entry(key, v)] else entries + [Entry(key, v)]
  }

  /** The last value given for `key`. */
  function Lookup(entries: seq<Entry>, key: seq<codepoint>): Option<Value> {
    var k := Find(entries, key);
    if k < |entries| then Some(entries[k].value) else None
  }

  function Text(s: seq<byte>): seq<codepoint> {
    match Decode(s)
    case Some(cps) => cps
    case None => []
  }

  function LeafValue(n: Node): Value {
    match n
    case TString(s) => VStr(Text(s))
    case TBool(b) => VBool(b)
    case TI64(v) => VInt(v)
    case TU64(v) => VInt(v)
    case TF64(token) => VFloat(token)
    case _ => VNone
  }

  function Meaning(t: Tree): Value
    decreases t, 0
  {
    match t
    case Leaf(n) => LeafValue(n)
    case Items(items) => VList(ItemMeanings(items))
    case Members(ms) => VDict(PutAll([], ms))
  }

  function ItemMeanings(items: seq<Tree>): seq<Value>
    decreases items, 1
  {
    if items == [] then [] else [Meaning(items[0])] + ItemMeanings(items[1..])
  }

  /** The entries after all members are put in, in their order. */
  function PutAll(entries: seq<Entry>, ms: seq<TreeMember>): seq<Entry>
    decreases ms, 1
  {
    if ms == [] then entries else PutAll(Put(entries, Text(ms[0].key), Meaning(ms[0].value)), ms[1..])
  }

  // ---- duplicate keys --------------------------------------------------------------------------

  lemma LookupPut(entries: seq<Entry>, key: seq<codepoint>, v: Value, other: seq<codepoint>)
    ensures Lookup(Put(entries, key, v), other) == if other == key then Some(v) else Lookup(entries, other)
  {
    var e := Put(entries, key, v);
    var k, i, j := Find(entries, key), Find(entries, other), Find(e, other);
    if other == key {
      assert e[k].key == key;
      assert j == k;
    } else if i < |entries| {
      assert e[i].key == other;
      assert j == i;
    } else {
    }
  }

  /** The last member with that key, if any. */
  function LastMember(ms: seq<TreeMember>, key: seq<codepoint>): Option<Tree> {
    if ms == [] then None
    else match LastMember(ms[1..], key)
      case Some(t) => Some(t)
      case None => if Text(ms[0].key) == key then Some(ms[0].value) else None
  }

  /** The last value wins for a duplicate key, whatever came before. */
  lemma {:induction false} LastValueWins(entries: seq<Entry>, ms: seq<TreeMember>, key: seq<codepoint>)
    ensures Lookup(PutAll(entries, ms), key)
         == match LastMember(ms, key) case Some(t) => Some(Meaning(t)) case None => Lookup(entries, key)
    decreases |ms|
  {
    hide Lookup, Put, Meaning, Text;
    if ms != [] {
      var next := Put(entries, Text(ms[0].key), Meaning(ms[0].value));
      LookupPut(entries, Text(ms[0].key), Meaning(ms[0].value), key);
      LastValueWins(next, ms[1..], key);
    }
  }

  /** No key occurs twice in a dict. */
  predicate Distinct(entries: seq<Entry>) {
    forall i, j | 0 <= i < j < |entries| :: entries[i].key != entries[j].key
  }

  lemma {:induction false} PutAllDistinct(entries: seq<Entry>, ms: seq<TreeMember>)
    requires Distinct(entries)
    ensures Distinct(PutAll(entries, ms))
    decreases |ms|
  {
    hide Meaning, Text;
    if ms != [] {
      PutAllDistinct(Put(entries, Text(ms[0].key), Meaning(ms[0].value)), ms[1..]);
    }
  }

  // ---- what a stack still has to do ------------------------------------------------------------

  /** A container in the making: what it has, the key awaiting a value, and what is yet to be started. */
  datatype Plan =
    | PList(items: seq<Value>, todo: seq<Tree>)
    | PDict(entries: seq<Entry>, key: seq<codepoint>, rest: seq<TreeMember>)

  function TodoCount(p: Plan): nat {
    match p
    case PList(_, todo) => |todo|
    case PDict(_, _, rest) => |rest|
  }

  function TodoTape(p: Plan): seq<Node> {
    match p
    case PList(_, todo) => ItemsTape(todo)
    case PDict(_, _, rest) => MembersTape(rest)
  }

  predicate TodoWellFormed(p: Plan) {
    match p
    case PList(_, todo) => forall k | 0 <= k < |todo| :: WellFormed(todo[k])
    case PDict(_, _, rest) => forall k | 0 <= k < |rest| :: WellFormedMember(rest[k])
  }

  /** The container once everything yet to be started is in it. */
  function Total(p: Plan): Value {
    match p
    case PList(items, todo) => VList(items + ItemMeanings(todo))
    case PDict(entries, _, rest) => VDict(PutAll(entries, rest))
  }

  /** The container after the value it was waiting for. */
  function With(p: Plan, v: Value): Plan {
    match p
    case PList(items, todo) => PList(items + [v], todo)
    case PDict(entries, key, rest) => PDict(Put(entries, key, v), key, rest)
  }

  /** The tape that is left, innermost container first. */
  function Suffix(plans: seq<Plan>): seq<Node> {
    if plans == [] then [] else TodoTape(plans[|plans| - 1]) + Suffix(plans[..|plans| - 1])
  }

  /** The value of the whole document once the innermost container is given `v`. */
  function Resume(plans: seq<Plan>, v: Value): Value {
    if plans == [] then v
    else Resume(plans[..|plans| - 1], Total(With(plans[|plans| - 1], v)))
  }

  lemma Last<T>(init: seq<T>, x: T)
    ensures (init + [x])[..|init|] == init && (init + [x])[|init|] == x
  {}

  lemma Regroup3<T>(a: seq<T>, b: seq<T>, c: seq<T>)
    ensures (a + b) + c == a + (b + c)
  {}

  /** One more plan needs its own tape first. */
  lemma SuffixOf(init: seq<Plan>, p: Plan)
    ensures Suffix(init + [p]) == TodoTape(p) + Suffix(init)
  {
    hide TodoTape;
    Last(init, p);
  }

  lemma ResumeOf(init: seq<Plan>, p: Plan, v: Value)
    ensures Resume(init + [p], v) == Resume(init, Total(With(p, v)))
  {
    hide Total, With;
    Last(init, p);
  }

  /** An item that is still to come, or is the one waited for, makes the same list. */
  lemma NextItem(items: seq<Value>, todo: seq<Tree>)
    requires todo != []
    ensures Total(PList(items, todo)) == Total(With(PList(items, todo[1..]), Meaning(todo[0])))
  {
    hide Meaning;
    Regroup3(items, [Meaning(todo[0])], ItemMeanings(todo[1..]));
  }

  /** Starting the next item of a list changes nothing in what is to come. */
  lemma StartItem(init: seq<Plan>, items: seq<Value>, todo: seq<Tree>)
    requires todo != []
    ensures var p := PList(items, todo[1..]);
            && Resume(init, Total(PList(items, todo))) == Resume(init + [p], Meaning(todo[0]))
            && Suffix(init + [PList(items, todo)]) == TapeOf(todo[0]) + Suffix(init + [p])
  {
    hide Meaning, TapeOf, Total, With, Suffix, Resume;
    var p := PList(items, todo[1..]);
    NextItem(items, todo);
    ResumeOf(init, p, Meaning(todo[0]));
    SuffixOf(init, p);
    SuffixOf(init, PList(items, todo));
    Regroup3(TapeOf(todo[0]), ItemsTape(todo[1..]), Suffix(init));
  }

  lemma NextMember(entries: seq<Entry>, key: seq<codepoint>, rest: seq<TreeMember>)
    requires rest != []
    ensures Total(PDict(entries, key, rest)) == Total(With(PDict(entries, Text(rest[0].key), rest[1..]), Meaning(rest[0].value)))
  {
    hide Meaning, Text, Put;
  }

  lemma MemberTape(ms: seq<TreeMember>, after: seq<Node>)
    requires ms != []
    ensures MembersTape(ms) + after == [TString(ms[0].key)] + (TapeOf(ms[0].value) + (MembersTape(ms[1..]) + after))
  {
    hide TapeOf;
    var key, value, more := [TString(ms[0].key)], TapeOf(ms[0].value), MembersTape(ms[1..]);
    Regroup3(key + value, more, after);
    Regroup3(key, value, more + after);
  }

  /** The same for the next member of a dict, whose key is read first. */
  lemma StartMember(init: seq<Plan>, entries: seq<Entry>, key: seq<codepoint>, rest: seq<TreeMember>)
    requires rest != []
    ensures var p := PDict(entries, Text(rest[0].key), rest[1..]);
            && Resume(init, Total(PDict(entries, key, rest))) == Resume(init + [p], Meaning(rest[0].value))
            && Suffix(init + [PDict(entries, key, rest)])
               == [TString(rest[0].key)] + (TapeOf(rest[0].value) + Suffix(init + [p]))
  {
    hide Meaning, TapeOf, Text, Total, With, Suffix, Resume, MembersTape;
    var p := PDict(entries, Text(rest[0].key), rest[1..]);
    NextMember(entries, key, rest);
    ResumeOf(init, p, Meaning(rest[0].value));
    SuffixOf(init, p);
    SuffixOf(init, PDict(entries, key, rest));
    MemberTape(rest, Suffix(init));
  }

  /** Opening a container of a document. */
  lemma OpenContainer(plans: seq<Plan>, t: Tree)
    requires !t.Leaf?
    ensures var p := if t.Items? then PList([], t.items) else PDict([], [], t.members);
            && Total(p) == Meaning(t)
            && TapeOf(t)[1..] + Suffix(plans) == Suffix(plans + [p])
            && TodoCount(p) == if t.Items? then |t.items| else |t.members|
  {
    hide ItemMeanings, PutAll, ItemsTape, MembersTape;
    var p := if t.Items? then PList([], t.items) else PDict([], [], t.members);
    assert (plans + [p])[..|plans|] == plans;
    if t.Items? {
      assert [] + ItemMeanings(t.items) == ItemMeanings(t.items);
      assert TapeOf(t)[1..] == ItemsTape(t.items);
    } else {
      assert TapeOf(t)[1..] == MembersTape(t.members);
    }
  }
}
