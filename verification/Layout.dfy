/**
 * How a document is laid out, read off its bytes: with `OPT_INDENT_2` every item, key and closing
 * byte stands on its own line behind two spaces a level; without it there is no white space at all
 * outside strings. The grammar knows nothing of how the text is written.
 */
module Layout {
  import opened Common
  import opened Utf8
  import opened JsonText
  import opened Rfc8259
  import RoundTrip
  import Strings

  /** A line feed, exactly `2 * n` spaces, and something else: where that is. */
  function Line(s: seq<byte>, i: nat, n: nat): (r: Option<nat>)
    ensures r.Some? ==> i < r.value < |s|
  {
    var j := i + 1 + 2 * n;
    if j < |s| && s[i] == 0x0A && (forall k | i < k < j :: s[k] == 0x20) && s[j] != 0x20 then Some(j) else None
  }

  /** What precedes an item, a key or a closing byte at level `n`: a new line, or nothing. */
  function Gap(s: seq<byte>, i: nat, ind: bool, n: nat): (r: Option<nat>)
    ensures r.Some? ==> i <= r.value && (i <= |s| ==> r.value <= |s|)
  {
    if ind then Line(s, i, n) else Some(i)
  }

  /** The end of a string, a number or a name, which has no white space in it outside a string. */
  function Scalar(s: seq<byte>, i: nat): (r: Option<nat>)
    requires i <= |s|
    ensures r.Some? ==> i < r.value <= |s|
  {
    if ByteAt(s, i, 0x22) then
      match ParseString(s, i)
      case Some((_, j)) => Some(j)
      case None => None
    else if i < |s| && (IsDigit(s[i]) || s[i] == 0x2D) then
      match ParseNumber(s, i)
      case Some((_, j)) => Some(j)
      case None => None
    else if At(s, i, [0x6E, 0x75, 0x6C, 0x6C]) || At(s, i, [0x74, 0x72, 0x75, 0x65]) then Some(i + 4)
    else if At(s, i, [0x66, 0x61, 0x6C, 0x73, 0x65]) then Some(i + 5)
    else None
  }

  /** The end of the value at `i`, inside `n` containers. */
  function Value(s: seq<byte>, i: nat, ind: bool, n: nat): (r: Option<nat>)
    requires i <= |s|
    ensures r.Some? ==> i < r.value <= |s|
    decreases |s| - i, 0
  {
    if ByteAt(s, i, 0x5B) then
      if ByteAt(s, i + 1, 0x5D) then Some(i + 2) else Items(s, i + 1, ind, n)
    else if ByteAt(s, i, 0x7B) then
      if ByteAt(s, i + 1, 0x7D) then Some(i + 2) else Members(s, i + 1, ind, n)
    else Scalar(s, i)
  }

  /** After the last item: the closing byte, one level further out. */
  function Closing(s: seq<byte>, i: nat, ind: bool, n: nat, close: byte): (r: Option<nat>)
    requires i <= |s|
    ensures r.Some? ==> i < r.value <= |s|
  {
    match Gap(s, i, ind, n)
    case Some(j) => if ByteAt(s, j, close) then Some(j + 1) else None
    case None => None
  }

  /** The items of a list inside `n` containers, from after its bracket or a comma to its end. */
  function Items(s: seq<byte>, i: nat, ind: bool, n: nat): (r: Option<nat>)
    requires i <= |s|
    ensures r.Some? ==> i < r.value <= |s|
    decreases |s| - i, 1
  {
    match Gap(s, i, ind, n + 1)
    case None => None
    case Some(j) =>
      match Value(s, j, ind, n + 1)
      case None => None
      case Some(k) => if ByteAt(s, k, 0x2C) then Items(s, k + 1, ind, n) else Closing(s, k, ind, n, 0x5D)
  }

  /** The colon at `i`, followed by one space when indenting. */
  function AfterColon(s: seq<byte>, i: nat, ind: bool): (r: Option<nat>)
    ensures r.Some? ==> i < r.value <= |s|
  {
    if !ByteAt(s, i, 0x3A) then None
    else if !ind then Some(i + 1)
    else if ByteAt(s, i + 1, 0x20) then Some(i + 2)
    else None
  }

  /** The same for the members of an object. */
  function Members(s: seq<byte>, i: nat, ind: bool, n: nat): (r: Option<nat>)
    requires i <= |s|
    ensures r.Some? ==> i < r.value <= |s|
    decreases |s| - i, 1
  {
    match Gap(s, i, ind, n + 1)
    case None => None
    case Some(j) =>
      match ParseString(s, j)
      case None => None
      case Some((_, c)) =>
        match AfterColon(s, c, ind)
        case None => None
        case Some(w) =>
          match Value(s, w, ind, n + 1)
          case None => None
          case Some(k) => if ByteAt(s, k, 0x2C) then Members(s, k + 1, ind, n) else Closing(s, k, ind, n, 0x7D)
  }

  /** A whole document. */
  predicate LaidOut(s: seq<byte>, ind: bool) {
    Value(s, 0, ind, 0) == Some(|s|)
  }

  // ---- what is written is laid out so --------------------------------------------------------

  lemma {:induction false} SpacesAre(level: nat)
    ensures |Spaces(level)| == 2 * level && forall k | 0 <= k < 2 * level :: Spaces(level)[k] == 0x20
  {
    if level > 0 { SpacesAre(level - 1); }
  }

  /** A break is a gap, whatever comes after it but a space. */
  lemma BreakIsGap(s: seq<byte>, i: nat, ind: bool, n: nat)
    requires At(s, i, Break(ind, n)) && i + |Break(ind, n)| < |s| && s[i + |Break(ind, n)|] != 0x20
    ensures Gap(s, i, ind, n) == Some(i + |Break(ind, n)|)
  {
    hide At, Spaces;
    SpacesAre(n);
    if ind {
      AtIndex(s, i, Break(ind, n), 0);
      forall k | i < k < i + 1 + 2 * n ensures s[k] == 0x20 {
        AtIndex(s, i, Break(ind, n), k - i);
        assert Break(ind, n)[k - i] == Spaces(n)[k - i - 1];
      }
    }
  }

  lemma NameLaidOut(v: Json, ind: bool, n: nat, s: seq<byte>, i: nat)
    requires v.Null? || v.Bool?
    requires i <= |s| && At(s, i, Write(v, ind, n))
    ensures Value(s, i, ind, n) == Some(i + |Write(v, ind, n)|)
  {
    hide ParseNumber, ParseString, Items, Members;
    AtIndex(s, i, Write(v, ind, n), 0);
  }

  lemma ScalarLaidOut(v: Json, ind: bool, n: nat, s: seq<byte>, i: nat)
    requires RoundTrip.Readable(v) && !v.Arr? && !v.Obj? && i <= |s|
    requires At(s, i, Write(v, ind, n)) && RoundTrip.Delimited(s, i + |Write(v, ind, n)|)
    ensures Value(s, i, ind, n) == Some(i + |Write(v, ind, n)|)
  {
    hide At, ParseNumber, ParseString, RoundTrip.Delimited, Strings.Quoted, RealToken, IntText, Items, Members, SurrogateFree;
    match v
    case Int(k) =>
      RoundTrip.ParsesInt(k, s, i);
      RoundTrip.IntStarts(k);
      AtIndex(s, i, IntText(k), 0);
    case Real(t) =>
      RoundTrip.ParsesReal(t, s, i);
      RoundTrip.TokenStarts(t);
      AtIndex(s, i, t, 0);
    case Str(cps) =>
      RoundTrip.StringReads(cps, s, i);
      RoundTrip.QuotedStarts(cps);
      AtIndex(s, i, Strings.Quoted(cps), 0);
    case _ => NameLaidOut(v, ind, n, s, i);
  }

  lemma EmptyLaidOut(v: Json, s: seq<byte>, i: nat, ind: bool, n: nat)
    requires (v == Arr([]) || v == Obj([])) && i <= |s| && At(s, i, Write(v, ind, n))
    ensures Value(s, i, ind, n) == Some(i + |Write(v, ind, n)|)
  {
    hide At, Items, Members;
    AtIndex(s, i, Write(v, ind, n), 0);
    AtIndex(s, i, Write(v, ind, n), 1);
  }

  /** After the last item or member comes the gap and the closing byte. */
  lemma ClosingLaidOut(s: seq<byte>, i: nat, ind: bool, n: nat, close: byte)
    requires At(s, i, Break(ind, n) + [close]) && (close == 0x5D || close == 0x7D)
    ensures i < |s| && RoundTrip.Delimited(s, i) && !ByteAt(s, i, 0x2C)
    ensures Closing(s, i, ind, n, close) == Some(i + |Break(ind, n) + [close]|)
  {
    hide At, Spaces, Gap;
    RoundTrip.Closes(close, ind, n, s, i);
    AtConcat(s, i, Break(ind, n), [close]);
    AtIndex(s, i + |Break(ind, n)|, [close], 0);
    BreakIsGap(s, i, ind, n);
    if ind {
      AtConcat(s, i, [NEWLINE], Spaces(n));
      AtIndex(s, i, [NEWLINE], 0);
    }
  }

  /** The first byte of a written value is neither white space nor a closing byte. */
  lemma StartsWell(v: Json, ind: bool, n: nat, s: seq<byte>, i: nat)
    requires RoundTrip.Readable(v) && At(s, i, Write(v, ind, n))
    ensures i < |s| && s[i] != 0x20 && s[i] != 0x5D && s[i] != 0x7D && s[i] != 0x0A
  {
    hide Write, At;
    RoundTrip.WriteStarts(v, ind, n);
    AtIndex(s, i, Write(v, ind, n), 0);
  }

  /** A written value is laid out, wherever it stands and whatever follows it. */
  lemma {:induction false} ValueLaidOut(v: Json, ind: bool, n: nat, s: seq<byte>, i: nat)
    requires RoundTrip.Readable(v) && i <= |s|
    requires At(s, i, Write(v, ind, n)) && RoundTrip.Delimited(s, i + |Write(v, ind, n)|)
    ensures Value(s, i, ind, n) == Some(i + |Write(v, ind, n)|)
    decreases v, 0
  {
    hide Break, Items, Members, RoundTrip.ItemsTail, RoundTrip.MembersTail, WriteItems, WriteMembers, RoundTrip.Delimited, At, Scalar;
    match v
    case Arr(items) =>
      if items == [] {
        EmptyLaidOut(v, s, i, ind, n);
      } else {
        RoundTrip.WriteArr(items, ind, n);
        AtConcat(s, i, [LBRACKET], RoundTrip.ItemsTail(items, ind, n));
        AtIndex(s, i, [LBRACKET], 0);
        ItemsLaidOut(items, ind, n, s, i + 1);
      }
    case Obj(members) =>
      if members == [] {
        EmptyLaidOut(v, s, i, ind, n);
      } else {
        RoundTrip.WriteObj(members, ind, n);
        AtConcat(s, i, [LBRACE], RoundTrip.MembersTail(members, ind, n));
        AtIndex(s, i, [LBRACE], 0);
        MembersLaidOut(members, ind, n, s, i + 1);
      }
    case _ => ScalarLaidOut(v, ind, n, s, i);
  }

  lemma {:induction false} ItemsLaidOut(items: seq<Json>, ind: bool, n: nat, s: seq<byte>, i: nat)
    requires items != [] && i <= |s| && forall k | 0 <= k < |items| :: RoundTrip.Readable(items[k])
    requires At(s, i, RoundTrip.ItemsTail(items, ind, n))
    ensures Items(s, i, ind, n) == Some(i + |RoundTrip.ItemsTail(items, ind, n)|) && !ByteAt(s, i, 0x5D)
    decreases items, 1
  {
    hide Break, RoundTrip.Delimited, Value, Items, At, Write, WriteItems, RoundTrip.Readable, RoundTrip.AfterItem, Gap, Closing;
    var b, t := Break(ind, n + 1), Write(items[0], ind, n + 1);
    var rest := RoundTrip.AfterItem(items[1..], ind, n);
    AtConcat(s, i, b + t, rest);
    AtConcat(s, i, b, t);
    var j := i + |b| + |t|;
    StartsWell(items[0], ind, n + 1, s, i + |b|);
    BreakIsGap(s, i, ind, n + 1);
    NotClosing(s, i, ind, n + 1);
    RoundTrip.AfterItemComma(items[1..], ind, n);
    if items[1..] == [] {
      ClosingLaidOut(s, j, ind, n, 0x5D);
    } else {
      RoundTrip.CommaFollows(RoundTrip.ItemsTail(items[1..], ind, n), s, j);
      ItemsLaidOut(items[1..], ind, n, s, j + 1);
    }
    ValueLaidOut(items[0], ind, n + 1, s, i + |b|);
    ItemsStep(s, i, ind, n, i + |b|, j);
  }

  lemma NotClosing(s: seq<byte>, i: nat, ind: bool, n: nat)
    requires At(s, i, Break(ind, n)) && i + |Break(ind, n)| < |s|
    requires s[i + |Break(ind, n)|] != 0x5D && s[i + |Break(ind, n)|] != 0x7D
    ensures !ByteAt(s, i, 0x5D) && !ByteAt(s, i, 0x7D)
  {
    hide At, Spaces;
    if ind { AtIndex(s, i, Break(ind, n), 0); }
  }

  lemma ItemsStep(s: seq<byte>, i: nat, ind: bool, n: nat, j: nat, k: nat)
    requires i <= j < k < |s| && Gap(s, i, ind, n + 1) == Some(j) && Value(s, j, ind, n + 1) == Some(k)
    ensures Items(s, i, ind, n) == if s[k] == 0x2C then Items(s, k + 1, ind, n) else Closing(s, k, ind, n, 0x5D)
  {
    hide Gap, Value, Closing;
  }

  lemma MembersStep(s: seq<byte>, i: nat, ind: bool, n: nat, j: nat, key: seq<codepoint>, c: nat, w: nat, k: nat)
    requires i <= j < c < w < k < |s| && Gap(s, i, ind, n + 1) == Some(j) && ParseString(s, j) == Some((key, c))
    requires AfterColon(s, c, ind) == Some(w) && Value(s, w, ind, n + 1) == Some(k)
    ensures Members(s, i, ind, n) == if s[k] == 0x2C then Members(s, k + 1, ind, n) else Closing(s, k, ind, n, 0x7D)
  {
    hide Gap, Value, Closing, ParseString, AfterColon;
  }

  /** A key behind its gap, and its colon. */
  lemma KeyLaidOut(key: seq<codepoint>, ind: bool, n: nat, t: seq<byte>, s: seq<byte>, i: nat)
    requires SurrogateFree(key) && At(s, i, Break(ind, n) + Strings.Quoted(key) + Colon(ind) + t)
    ensures var j := i + |Break(ind, n)|; var c := j + |Strings.Quoted(key)|; var w := c + |Colon(ind)|;
            && Gap(s, i, ind, n) == Some(j) && ParseString(s, j) == Some((key, c)) && j < c
            && AfterColon(s, c, ind) == Some(w) && At(s, w, t) && !ByteAt(s, i, 0x7D)
  {
    hide Break, ParseString, Strings.Quoted, At, Gap;
    var b, k, c := Break(ind, n), Strings.Quoted(key), Colon(ind);
    AtConcat(s, i, b + k + c, t);
    AtConcat(s, i, b + k, c);
    AtConcat(s, i, b, k);
    RoundTrip.QuotedStarts(key);
    AtIndex(s, i + |b|, k, 0);
    BreakIsGap(s, i, ind, n);
    NotClosing(s, i, ind, n);
    RoundTrip.StringReads(key, s, i + |b|);
    AtIndex(s, i + |b + k|, c, 0);
    if ind { AtIndex(s, i + |b + k|, c, 1); }
  }

  lemma {:induction false} MembersLaidOut(members: seq<Member>, ind: bool, n: nat, s: seq<byte>, i: nat)
    requires members != [] && i <= |s| && RoundTrip.Readable(Obj(members))
    requires At(s, i, RoundTrip.MembersTail(members, ind, n))
    ensures Members(s, i, ind, n) == Some(i + |RoundTrip.MembersTail(members, ind, n)|) && !ByteAt(s, i, 0x7D)
    decreases members, 1
  {
    hide Break, RoundTrip.Delimited, Value, ParseString, Members, At, Write, WriteMembers, RoundTrip.AfterMember, Gap, Closing;
    hide Strings.Quoted, SurrogateFree, Colon, AfterColon;
    var m := members[0];
    var b, k, c := Break(ind, n + 1), Strings.Quoted(m.key), Colon(ind);
    var t, rest := Write(m.value, ind, n + 1), RoundTrip.AfterMember(members[1..], ind, n);
    assert b + k + c + t + rest == b + k + c + (t + rest);
    KeyLaidOut(m.key, ind, n + 1, t + rest, s, i);
    var w := i + |b| + |k| + |c|;
    AtConcat(s, w, t, rest);
    var j := w + |t|;
    StartsWell(m.value, ind, n + 1, s, w);
    RoundTrip.AfterMemberComma(members[1..], ind, n);
    if members[1..] == [] {
      ClosingLaidOut(s, j, ind, n, 0x7D);
    } else {
      RoundTrip.CommaFollows(RoundTrip.MembersTail(members[1..], ind, n), s, j);
      MembersLaidOut(members[1..], ind, n, s, j + 1);
    }
    ValueLaidOut(m.value, ind, n + 1, s, w);
    MembersStep(s, i, ind, n, i + |b|, m.key, i + |b| + |k|, w, j);
  }

  /** A written document is laid out, whether indented or compact. */
  lemma DocumentLaidOut(v: Json, ind: bool)
    requires RoundTrip.Readable(v)
    ensures LaidOut(Write(v, ind, 0), ind)
  {
    hide Value, Write, RoundTrip.Readable;
    ValueLaidOut(v, ind, 0, Write(v, ind, 0), 0);
  }
}
