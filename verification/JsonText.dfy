/** JSON values as trees, and the text isojson writes for them: compact, or indented by two spaces. */
module JsonText {
  import opened Common
  import opened Strings
  import opened Out

  datatype Json =
    | Null
    | Bool(b: bool)
    | Int(i: int)
    | Real(token: seq<byte>)
    | Str(cps: seq<codepoint>)
    | Arr(items: seq<Json>)
    | Obj(members: seq<Member>)

  datatype Member = Member(key: seq<codepoint>, value: Json)

  const NULL: seq<byte> := [0x6E, 0x75, 0x6C, 0x6C]
  const TRUE: seq<byte> := [0x74, 0x72, 0x75, 0x65]
  const FALSE: seq<byte> := [0x66, 0x61, 0x6C, 0x73, 0x65]
  const COMMA: byte := 0x2C
  const COLON: byte := 0x3A
  const SPACE: byte := 0x20
  const NEWLINE: byte := 0x0A
  const LBRACKET: byte := 0x5B
  const RBRACKET: byte := 0x5D
  const LBRACE: byte := 0x7B
  const RBRACE: byte := 0x7D
  const MINUS: byte := 0x2D

  /** The decimal digits of a natural number, with no leading zero. */
  function NatText(n: nat): (r: seq<byte>)
    ensures |r| >= 1
  {
    if n < 10 then [0x30 + n] else NatText(n / 10) + [0x30 + n % 10]
  }

  function IntText(i: int): (r: seq<byte>)
    ensures |r| >= 1
  {
    if i < 0 then [MINUS] + NatText(-i) else NatText(i)
  }

  function Spaces(level: nat): seq<byte> {
    if level == 0 then [] else Spaces(level - 1) + [SPACE, SPACE]
  }

  /** A line break and the indent of a level, when indenting. */
  function Break(ind: bool, level: nat): seq<byte> {
    if ind then [NEWLINE] + Spaces(level) else []
  }

  function Colon(ind: bool): seq<byte> {
    if ind then [COLON, SPACE] else [COLON]
  }

  /** The text of a value whose line is indented to `level`. */
  function Write(v: Json, ind: bool, level: nat): seq<byte>
    decreases v, 0
  {
    match v
    case Null => NULL
    case Bool(b) => if b then TRUE else FALSE
    case Int(i) => IntText(i)
    case Real(token) => token
    case Str(cps) => Quoted(cps)
    case Arr(items) =>
      if items == [] then [LBRACKET, RBRACKET]
      else [LBRACKET] + WriteItems(items, true, ind, level + 1) + Break(ind, level) + [RBRACKET]
    case Obj(members) =>
      if members == [] then [LBRACE, RBRACE]
      else [LBRACE] + WriteMembers(members, true, ind, level + 1) + Break(ind, level) + [RBRACE]
  }

  function WriteItems(items: seq<Json>, first: bool, ind: bool, level: nat): seq<byte>
    decreases items, 1
  {
    if items == [] then []
    else Comma(first) + Break(ind, level) + Write(items[0], ind, level) + WriteItems(items[1..], false, ind, level)
  }

  function WriteMembers(members: seq<Member>, first: bool, ind: bool, level: nat): seq<byte>
    decreases members, 1
  {
    if members == [] then []
    else KeyText(members[0].key, first, ind, level) + Write(members[0].value, ind, level)
         + WriteMembers(members[1..], false, ind, level)
  }

  function Comma(first: bool): seq<byte> {
    if first then [] else [COMMA]
  }

  /** An item of a list with what comes before it. */
  function ItemText(v: Json, first: bool, ind: bool, level: nat): seq<byte> {
    Comma(first) + Break(ind, level) + Write(v, ind, level)
  }

  function KeyText(key: seq<codepoint>, first: bool, ind: bool, level: nat): seq<byte> {
    Comma(first) + Break(ind, level) + Quoted(key) + Colon(ind)
  }

  /** The nesting of containers in a value. */
  function Height(v: Json): nat
    decreases v, 0
  {
    match v
    case Arr(items) => 1 + ItemsHeight(items)
    case Obj(members) => 1 + MembersHeight(members)
    case _ => 0
  }

  function ItemsHeight(items: seq<Json>): nat
    decreases items, 1
  {
    if items == [] then 0
    else
      var a, b := Height(items[0]), ItemsHeight(items[1..]);
      if a < b then b else a
  }

  function MembersHeight(members: seq<Member>): nat
    decreases members, 1
  {
    if members == [] then 0
    else
      var a, b := Height(members[0].value), MembersHeight(members[1..]);
      if a < b then b else a
  }

  lemma {:induction false} WriteItemsSnoc(items: seq<Json>, v: Json, first: bool, ind: bool, level: nat)
    ensures WriteItems(items + [v], first, ind, level)
         == WriteItems(items, first, ind, level) + ItemText(v, first && items == [], ind, level)
    decreases |items|
  {
    hide Write, Break;
    if items == [] {
      assert (items + [v])[1..] == [];
      assert WriteItems([], false, ind, level) == [];
    } else {
      assert (items + [v])[1..] == items[1..] + [v];
      WriteItemsSnoc(items[1..], v, false, ind, level);
      assert !first || !(first && items == []);
    }
  }

  // ---- text growing piece by piece ----------------------------------------------------------------

  lemma ArrayText(before: seq<byte>, vs: seq<Json>, ind: bool, level: nat)
    ensures var text := before + [LBRACKET] + WriteItems(vs, true, ind, level + 1);
            vs != [] ==> text + Break(ind, level) + [RBRACKET] == before + Write(Arr(vs), ind, level)
    ensures before + [LBRACKET, RBRACKET] == before + Write(Arr([]), ind, level)
    ensures before <= before + [LBRACKET]
  {
    hide WriteItems, Break;
    if vs != [] {
      assert before + [LBRACKET] + WriteItems(vs, true, ind, level + 1) + Break(ind, level) + [RBRACKET]
          == before + ([LBRACKET] + WriteItems(vs, true, ind, level + 1) + Break(ind, level) + [RBRACKET]);
    }
  }

  lemma ObjectText(before: seq<byte>, ms: seq<Member>, ind: bool, level: nat)
    ensures var text := before + [LBRACE] + WriteMembers(ms, true, ind, level + 1);
            ms != [] ==> text + Break(ind, level) + [RBRACE] == before + Write(Obj(ms), ind, level)
    ensures before + [LBRACE, RBRACE] == before + Write(Obj([]), ind, level)
    ensures before <= before + [LBRACE]
  {
    hide WriteMembers, Break;
    if ms != [] {
      assert before + [LBRACE] + WriteMembers(ms, true, ind, level + 1) + Break(ind, level) + [RBRACE]
          == before + ([LBRACE] + WriteMembers(ms, true, ind, level + 1) + Break(ind, level) + [RBRACE]);
    }
  }

  lemma AppendItem(text: seq<byte>, items: seq<Json>, v: Json, ind: bool, level: nat)
    ensures text + WriteItems(items, true, ind, level) + ItemText(v, items == [], ind, level)
         == text + WriteItems(items + [v], true, ind, level)
    ensures text + WriteItems(items, true, ind, level) + (Comma(items == []) + Break(ind, level)) + Write(v, ind, level)
         == text + WriteItems(items + [v], true, ind, level)
  {
    hide Break, Write, WriteItems;
    WriteItemsSnoc(items, v, true, ind, level);
    assert text + WriteItems(items, true, ind, level) + (Comma(items == []) + Break(ind, level)) + Write(v, ind, level)
        == text + (WriteItems(items, true, ind, level) + (Comma(items == []) + Break(ind, level) + Write(v, ind, level)));
  }

  lemma {:induction false} WriteMembersSnoc(ms: seq<Member>, m: Member, first: bool, ind: bool, level: nat)
    ensures WriteMembers(ms + [m], first, ind, level)
         == WriteMembers(ms, first, ind, level)
            + (KeyText(m.key, first && ms == [], ind, level) + Write(m.value, ind, level))
    decreases |ms|
  {
    hide Write, KeyText;
    if ms == [] {
      assert (ms + [m])[1..] == [];
      assert WriteMembers([], false, ind, level) == [];
    } else {
      assert (ms + [m])[1..] == ms[1..] + [m];
      WriteMembersSnoc(ms[1..], m, false, ind, level);
    }
  }

  lemma AppendMember(text: seq<byte>, ms: seq<Member>, m: Member, ind: bool, level: nat)
    ensures text + WriteMembers(ms, true, ind, level) + KeyText(m.key, ms == [], ind, level) + Write(m.value, ind, level)
         == text + WriteMembers(ms + [m], true, ind, level)
  {
    hide Write, KeyText;
    WriteMembersSnoc(ms, m, true, ind, level);
  }

  lemma NothingYet(text: seq<byte>, ind: bool, level: nat)
    ensures text + WriteItems([], true, ind, level) == text
    ensures text + WriteMembers([], true, ind, level) == text
  {}

  lemma KeyPieces(start: seq<byte>, cps: seq<codepoint>, first: bool, ind: bool, level: nat)
    ensures start + (Comma(first) + Break(ind, level)) + Quoted(cps) + Colon(ind)
         == start + KeyText(cps, first, ind, level)
  {
    hide Break, Comma, Quoted;
  }

  /** Starts a new line indented to a level. */
  method NewlineIndent(out: OutputBuffer, level: nat)
    requires out.Valid()
    modifies out.Repr
    ensures out.Valid() && fresh(out.Repr - old(out.Repr))
    ensures out.Contents() == old(out.Contents()) + Break(true, level)
  {
    ghost var start := out.Contents();
    out.Push(NEWLINE);
    for i := 0 to level
      invariant out.Valid() && fresh(out.Repr - old(out.Repr))
      invariant out.Contents() == start + ([NEWLINE] + Spaces(i))
    {
      out.ExtendFromSlice([SPACE, SPACE]);
    }
  }

  /** What comes before an item or a key: a comma unless it is the first, and a new line when indenting. */
  method Separate(out: OutputBuffer, first: bool, ind: bool, level: nat)
    requires out.Valid()
    modifies out.Repr
    ensures out.Valid() && fresh(out.Repr - old(out.Repr))
    ensures out.Contents() == old(out.Contents()) + (Comma(first) + Break(ind, level))
    ensures !ind ==> out.Kept(old(out.mem), old(out.moves))
  {
    hide Spaces;
    ghost var start := out.Contents();
    if !first {
      out.Push(COMMA);
    }
    assert out.Contents() == start + Comma(first);
    if ind {
      NewlineIndent(out, level);
    } else {
      NoBreak(start + Comma(first), level);
    }
    Joined(start, Comma(first), Break(ind, level));
  }

  lemma NoBreak(text: seq<byte>, level: nat)
    ensures text + Break(false, level) == text
  {}

  lemma Joined(a: seq<byte>, b: seq<byte>, c: seq<byte>)
    ensures a + b + c == a + (b + c)
  {}
}
