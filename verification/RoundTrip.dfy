/** Whatever value is written, compact or indented, the grammar reads back the same value. */
module RoundTrip {
  import opened Common
  import opened Utf8
  import opened JsonText
  import opened Rfc8259
  import Strings
  import Swar

  /** What may follow a value without changing how it is read. */
  predicate Delimited(s: seq<byte>, j: nat) {
    j <= |s| && (j < |s| ==> !IsDigit(s[j]) && s[j] != 0x2E && s[j] != 0x65 && s[j] != 0x45)
  }

  // ---- numbers -------------------------------------------------------------------------

  lemma {:induction false} DigitRunEnds(s: seq<byte>, i: nat, j: nat)
    requires i <= j <= |s|
    requires forall k | i <= k < j :: IsDigit(s[k])
    requires j < |s| ==> !IsDigit(s[j])
    ensures DigitRun(s, i) == j
    decreases j - i
  {
    hide IsDigit;
    if i < j { DigitRunEnds(s, i + 1, j); }
  }

  /** The digits of a number, where they lie in a text, denote it; only 0 starts with a zero. */
  lemma {:induction false} NatTextReads(n: nat, s: seq<byte>, i: nat)
    requires At(s, i, NatText(n))
    ensures forall k | i <= k < i + |NatText(n)| :: IsDigit(s[k])
    ensures Natural(s, i, i + |NatText(n)|) == n
    ensures s[i] == 0x30 ==> n == 0
  {
    hide At;
    if n < 10 {
      AtIndex(s, i, NatText(n), 0);
      assert Natural(s, i, i) == 0;
    } else {
      var a := NatText(n / 10);
      AtConcat(s, i, a, [0x30 + n % 10]);
      NatTextReads(n / 10, s, i);
      AtIndex(s, i + |a|, [0x30 + n % 10], 0);
    }
  }

  lemma IntegerReads(n: nat, s: seq<byte>, i: nat)
    requires At(s, i, NatText(n)) && Delimited(s, i + |NatText(n)|)
    ensures IntegerEnd(s, i) == Some(i + |NatText(n)|)
  {
    hide Natural;
    NatTextReads(n, s, i);
    if s[i] != 0x30 {
      DigitRunEnds(s, i, i + |NatText(n)|);
    }
  }

  lemma NoMore(s: seq<byte>, j: nat)
    requires Delimited(s, j)
    ensures FractionEnd(s, j) == Some(j) && ExponentEnd(s, j) == Some(j)
  {}

  lemma ParsesInt(n: int, s: seq<byte>, i: nat)
    requires At(s, i, IntText(n)) && Delimited(s, i + |IntText(n)|)
    ensures ParseNumber(s, i) == Some((Int(n), i + |IntText(n)|))
  {
    hide NatText, Delimited, IntegerEnd, FractionEnd, ExponentEnd, At, Natural, IsDigit;
    var j := i + |IntText(n)|;
    NoMore(s, j);
    if n < 0 {
      AtConcat(s, i, [MINUS], NatText(-n));
      AtIndex(s, i, [MINUS], 0);
      IntegerReads(-n, s, i + 1);
      NatTextReads(-n, s, i + 1);
    } else {
      IntegerReads(n, s, i);
      NatTextReads(n, s, i);
      DigitIsNotMinus(s, i);
    }
  }

  lemma DigitIsNotMinus(s: seq<byte>, i: nat)
    requires i < |s| && IsDigit(s[i])
    ensures !ByteAt(s, i, MINUS)
  {}

  /** Digits are read the same in a token and in a text that holds it, up to where the token ends. */
  lemma {:induction false} DigitRunMoves(t: seq<byte>, k: nat, s: seq<byte>, i: nat)
    requires At(s, i, t) && k <= |t| && (i + |t| < |s| ==> !IsDigit(s[i + |t|]))
    ensures DigitRun(s, i + k) == i + DigitRun(t, k)
    decreases |t| - k
  {
    hide At, IsDigit;
    if k < |t| {
      AtIndex(s, i, t, k);
      if IsDigit(t[k]) { DigitRunMoves(t, k + 1, s, i); }
    }
  }

  lemma ByteMoves(t: seq<byte>, k: nat, s: seq<byte>, i: nat, b: byte)
    requires At(s, i, t) && k < |t|
    ensures ByteAt(s, i + k, b) == ByteAt(t, k, b)
  {
    AtIndex(s, i, t, k);
  }

  lemma IntegerMoves(t: seq<byte>, k: nat, s: seq<byte>, i: nat)
    requires At(s, i, t) && Delimited(s, i + |t|) && IntegerEnd(t, k).Some?
    ensures IntegerEnd(s, i + k) == Some(i + IntegerEnd(t, k).value)
  {
    hide DigitRun;
    AtIndex(s, i, t, k);
    DigitRunMoves(t, k, s, i);
  }

  lemma FractionMoves(t: seq<byte>, m: nat, s: seq<byte>, i: nat)
    requires At(s, i, t) && Delimited(s, i + |t|) && m <= |t| && FractionEnd(t, m).Some?
    ensures FractionEnd(s, i + m) == Some(i + FractionEnd(t, m).value)
  {
    hide DigitRun, At;
    if m < |t| {
      ByteMoves(t, m, s, i, 0x2E);
      DigitRunMoves(t, m + 1, s, i);
    }
  }

  lemma ExponentMoves(t: seq<byte>, f: nat, s: seq<byte>, i: nat)
    requires At(s, i, t) && Delimited(s, i + |t|) && f <= |t| && ExponentEnd(t, f).Some?
    ensures ExponentEnd(s, i + f) == Some(i + ExponentEnd(t, f).value)
  {
    hide DigitRun, At;
    if f < |t| {
      ByteMoves(t, f, s, i, 0x65);
      ByteMoves(t, f, s, i, 0x45);
      if IsE(t, f) {
        assert f + 1 < |t|;
        ByteMoves(t, f + 1, s, i, 0x2B);
        ByteMoves(t, f + 1, s, i, 0x2D);
        var d := if IsSign(t, f + 1) then f + 2 else f + 1;
        DigitRunMoves(t, d, s, i);
      }
    }
  }

  /** A number token is read the same wherever it lies. */
  lemma ParsesReal(t: seq<byte>, s: seq<byte>, i: nat)
    requires RealToken(t) && At(s, i, t) && Delimited(s, i + |t|)
    ensures ParseNumber(s, i) == Some((Real(t), i + |t|))
  {
    hide Delimited, IntegerEnd, FractionEnd, ExponentEnd, Natural;
    var k := if ByteAt(t, 0, MINUS) then 1 else 0;
    ByteMoves(t, 0, s, i, MINUS);
    IntegerMoves(t, k, s, i);
    var m := IntegerEnd(t, k).value;
    FractionMoves(t, m, s, i);
    var f := FractionEnd(t, m).value;
    ExponentMoves(t, f, s, i);
    assert t[0..|t|] == t;
  }

  // ---- strings -------------------------------------------------------------------------

  lemma HexReads(c: int, s: seq<byte>, i: nat)
    requires 0 <= c < 0x20 && At(s, i, [0x30, 0x30, Strings.HexDigit(c / 16), Strings.HexDigit(c % 16)])
    ensures HexUnit(s, i) == Some(c)
  {
    var t := [0x30, 0x30, Strings.HexDigit(c / 16), Strings.HexDigit(c % 16)];
    AtIndex(s, i, t, 0);
    AtIndex(s, i, t, 1);
    AtIndex(s, i, t, 2);
    AtIndex(s, i, t, 3);
  }

  lemma EscapeReads(c: byte, s: seq<byte>, i: nat)
    requires Swar.Special(c) && At(s, i, Strings.EscapeSeq(c))
    ensures ByteAt(s, i, 0x5C) && Escape(s, i + 1) == Some((c, i + |Strings.EscapeSeq(c)|))
  {
    hide HexUnit, Strings.HexDigit;
    var t := Strings.EscapeSeq(c);
    AtIndex(s, i, t, 0);
    AtIndex(s, i, t, 1);
    if Strings.EscapeCode(c) == 0x75 {
      assert t == [0x5C, 0x75] + [0x30, 0x30, Strings.HexDigit(c / 16), Strings.HexDigit(c % 16)];
      AtConcat(s, i, [0x5C, 0x75], [0x30, 0x30, Strings.HexDigit(c / 16), Strings.HexDigit(c % 16)]);
      HexReads(c, s, i + 2);
    }
  }

  lemma CharReads(c: codepoint, s: seq<byte>, i: nat)
    requires !Surrogate(c) && At(s, i, Strings.EscapeCp(c))
    ensures ParseChar(s, i) == Some((c, i + |Strings.EscapeCp(c)|)) && !ByteAt(s, i, 0x22)
  {
    hide Escape, DecodeAt, Strings.EscapeSeq, EncodeOne;
    if c < 0x80 && Swar.Special(c) {
      EscapeReads(c, s, i);
    } else {
      SmallEncoding(c);
      DecodeAtInvertsEncodeOne(c, s, i);
      LeadByte(c);
      AtIndex(s, i, EncodeOne(c), 0);
    }
  }

  lemma SmallEncoding(c: codepoint)
    ensures c < 0x80 ==> EncodeOne(c) == [c]
  {}

  lemma LeadByte(c: codepoint)
    ensures EncodeOne(c)[0] == c || EncodeOne(c)[0] >= 0x80
  {}

  lemma {:induction false} CharsRead(cps: seq<codepoint>, s: seq<byte>, i: nat)
    requires SurrogateFree(cps) && At(s, i, Strings.EscapeText(cps) + [0x22])
    ensures ParseChars(s, i) == Some((cps, i + |Strings.EscapeText(cps)| + 1))
    decreases |cps|
  {
    hide ParseChar, Strings.EscapeCp, At;
    if cps == [] {
      assert Strings.EscapeText(cps) + [0x22] == [0x22];
      AtIndex(s, i, [0x22], 0);
    } else {
      var t := Strings.EscapeCp(cps[0]);
      var rest := Strings.EscapeText(cps[1..]) + [0x22];
      assert Strings.EscapeText(cps) + [0x22] == t + rest;
      AtConcat(s, i, t, rest);
      CharReads(cps[0], s, i);
      CharsRead(cps[1..], s, i + |t|);
      AtIndex(s, i + |t|, rest, 0);
      assert cps == [cps[0]] + cps[1..];
    }
  }

  /** Unescaping a written string gives its characters back. */
  lemma StringReads(cps: seq<codepoint>, s: seq<byte>, i: nat)
    requires SurrogateFree(cps) && At(s, i, Strings.Quoted(cps))
    ensures ParseString(s, i) == Some((cps, i + |Strings.Quoted(cps)|))
  {
    hide At, ParseChars;
    assert Strings.Quoted(cps) == [0x22] + (Strings.EscapeText(cps) + [0x22]);
    AtConcat(s, i, [0x22], Strings.EscapeText(cps) + [0x22]);
    AtIndex(s, i, [0x22], 0);
    CharsRead(cps, s, i + 1);
  }

  // ---- values --------------------------------------------------------------------------

  /** What can be written so that it reads back: no surrogates, and number tokens for floats. */
  predicate Readable(v: Json)
    decreases v, 0
  {
    match v
    case Real(token) => RealToken(token)
    case Str(cps) => SurrogateFree(cps)
    case Arr(items) => forall k | 0 <= k < |items| :: Readable(items[k])
    case Obj(members) => forall k | 0 <= k < |members| :: SurrogateFree(members[k].key) && Readable(members[k].value)
    case _ => true
  }

  lemma {:induction false} SkipsSpaces(level: nat, s: seq<byte>, i: nat)
    requires At(s, i, Spaces(level))
    ensures SkipWs(s, i) == SkipWs(s, i + |Spaces(level)|)
  {
    hide At;
    if level > 0 {
      var t := Spaces(level - 1);
      AtConcat(s, i, t, [SPACE, SPACE]);
      SkipsSpaces(level - 1, s, i);
      AtIndex(s, i + |t|, [SPACE, SPACE], 0);
      AtIndex(s, i + |t|, [SPACE, SPACE], 1);
      assert SkipWs(s, i + |t|) == SkipWs(s, i + |t| + 1) == SkipWs(s, i + |t| + 2);
    }
  }

  /** A break is white space up to whatever starts after it. */
  lemma SkipsBreak(ind: bool, level: nat, s: seq<byte>, i: nat)
    requires At(s, i, Break(ind, level))
    ensures SkipWs(s, i) == SkipWs(s, i + |Break(ind, level)|)
  {
    hide At;
    if ind {
      AtConcat(s, i, [NEWLINE], Spaces(level));
      AtIndex(s, i, [NEWLINE], 0);
      SkipsSpaces(level, s, i + 1);
    }
  }

  /** The first byte of a written value. */
  predicate Starts(b: byte) {
    !IsWs(b) && b != RBRACKET && b != RBRACE
  }

  lemma WriteStarts(v: Json, ind: bool, level: nat)
    requires Readable(v)
    ensures |Write(v, ind, level)| >= 1 && Starts(Write(v, ind, level)[0])
  {
    hide WriteItems, WriteMembers, Strings.EscapeText, SurrogateFree;
    match v
    case Int(i) => NatStarts(if i < 0 then -i else i);
    case Real(t) => TokenStarts(t);
    case _ =>
  }

  lemma {:induction false} NatStarts(n: nat)
    ensures IsDigit(NatText(n)[0])
  {
    if n >= 10 { NatStarts(n / 10); }
  }

  lemma TokenStarts(t: seq<byte>)
    requires RealToken(t)
    ensures |t| >= 1 && (IsDigit(t[0]) || t[0] == MINUS)
  {
    hide FractionEnd, ExponentEnd, DigitRun, Natural;
  }

  /** The text of a list from after its bracket, or from after a comma, to its end. */
  function ItemsTail(items: seq<Json>, ind: bool, level: nat): seq<byte>
    requires items != []
  {
    Break(ind, level + 1) + Write(items[0], ind, level + 1) + AfterItem(items[1..], ind, level)
  }

  function AfterItem(rest: seq<Json>, ind: bool, level: nat): seq<byte> {
    WriteItems(rest, false, ind, level + 1) + (Break(ind, level) + [RBRACKET])
  }

  lemma WriteArr(items: seq<Json>, ind: bool, level: nat)
    requires items != []
    ensures Write(Arr(items), ind, level) == [LBRACKET] + ItemsTail(items, ind, level)
  {
    hide Break, Comma;
    var first, rest := Write(items[0], ind, level + 1), WriteItems(items[1..], false, ind, level + 1);
    FirstItem(items, ind, level + 1);
    JoinItems([LBRACKET], Break(ind, level + 1), first, rest, Break(ind, level), [RBRACKET]);
  }

  lemma FirstItem(items: seq<Json>, ind: bool, level: nat)
    requires items != []
    ensures WriteItems(items, true, ind, level) == Break(ind, level) + Write(items[0], ind, level) + WriteItems(items[1..], false, ind, level)
  {
    hide Break, Write;
    assert Comma(true) + Break(ind, level) == Break(ind, level);
  }

  lemma JoinItems(a: seq<byte>, b: seq<byte>, c: seq<byte>, d: seq<byte>, e: seq<byte>, f: seq<byte>)
    ensures a + (b + c + d) + e + f == a + (b + c + (d + (e + f)))
  {}

  lemma AfterItemComma(rest: seq<Json>, ind: bool, level: nat)
    ensures rest == [] ==> AfterItem(rest, ind, level) == Break(ind, level) + [RBRACKET]
    ensures rest != [] ==> AfterItem(rest, ind, level) == [COMMA] + ItemsTail(rest, ind, level)
  {}

  function MembersTail(members: seq<Member>, ind: bool, level: nat): seq<byte>
    requires members != []
  {
    Break(ind, level + 1) + Strings.Quoted(members[0].key) + Colon(ind)
    + Write(members[0].value, ind, level + 1) + AfterMember(members[1..], ind, level)
  }

  function AfterMember(rest: seq<Member>, ind: bool, level: nat): seq<byte> {
    WriteMembers(rest, false, ind, level + 1) + (Break(ind, level) + [RBRACE])
  }

  lemma WriteObj(members: seq<Member>, ind: bool, level: nat)
    requires members != []
    ensures Write(Obj(members), ind, level) == [LBRACE] + MembersTail(members, ind, level)
  {
    hide Break, Strings.Quoted, Colon;
    MemberPieces(members, true, ind, level);
    assert [LBRACE] + ([] + MembersTail(members, ind, level)) == [LBRACE] + MembersTail(members, ind, level);
    assert [LBRACE] + WriteMembers(members, true, ind, level + 1) + Break(ind, level) + [RBRACE]
        == [LBRACE] + (WriteMembers(members, true, ind, level + 1) + (Break(ind, level) + [RBRACE]));
  }

  lemma MemberPieces(members: seq<Member>, first: bool, ind: bool, level: nat)
    requires members != []
    ensures WriteMembers(members, first, ind, level + 1) + (Break(ind, level) + [RBRACE])
         == Comma(first) + MembersTail(members, ind, level)
  {
    hide Break, Strings.Quoted, Colon, Write, Comma;
    Regroup(Comma(first), Break(ind, level + 1), Strings.Quoted(members[0].key), Colon(ind),
            Write(members[0].value, ind, level + 1), WriteMembers(members[1..], false, ind, level + 1),
            Break(ind, level) + [RBRACE]);
  }

  lemma Regroup(a: seq<byte>, b: seq<byte>, c: seq<byte>, d: seq<byte>, e: seq<byte>, f: seq<byte>, g: seq<byte>)
    ensures (a + b + c + d) + e + f + g == a + (b + c + d + e + (f + g))
  {
    assert (a + b + c + d) + e + f == a + (b + c + d + e + f);
  }

  lemma AfterMemberComma(rest: seq<Member>, ind: bool, level: nat)
    ensures rest == [] ==> AfterMember(rest, ind, level) == Break(ind, level) + [RBRACE]
    ensures rest != [] ==> AfterMember(rest, ind, level) == [COMMA] + MembersTail(rest, ind, level)
  {
    hide Break, MembersTail;
    if rest == [] {
      assert WriteMembers(rest, false, ind, level + 1) == [];
    } else {
      MemberPieces(rest, false, ind, level);
    }
  }

  /** After a value comes a comma, or a break and the closing byte; none of them continues the value. */
  lemma Closes(close: byte, ind: bool, level: nat, s: seq<byte>, i: nat)
    requires close == RBRACKET || close == RBRACE
    requires At(s, i, Break(ind, level) + [close])
    ensures Delimited(s, i) && SkipWs(s, i) == i + |Break(ind, level)| && ByteAt(s, SkipWs(s, i), close)
  {
    hide At, Spaces;
    AtConcat(s, i, Break(ind, level), [close]);
    AtIndex(s, i + |Break(ind, level)|, [close], 0);
    SkipsBreak(ind, level, s, i);
    if ind {
      AtConcat(s, i, [NEWLINE], Spaces(level));
      AtIndex(s, i, [NEWLINE], 0);
    }
  }

  lemma CommaFollows(t: seq<byte>, s: seq<byte>, i: nat)
    requires At(s, i, [COMMA] + t)
    ensures Delimited(s, i) && SkipWs(s, i) == i && ByteAt(s, i, COMMA) && At(s, i + 1, t)
  {
    AtConcat(s, i, [COMMA], t);
    AtIndex(s, i, [COMMA], 0);
  }

  /** The first byte of a value decides how it is read. */
  lemma Dispatch(s: seq<byte>, i0: nat, i: nat)
    requires i0 <= |s| && SkipWs(s, i0) == i < |s|
    ensures s[i] == 0x22 && ParseString(s, i).Some? ==>
              ParseValue(s, i0) == Some((Str(ParseString(s, i).value.0), ParseString(s, i).value.1))
    ensures s[i] == LBRACKET && ByteAt(s, SkipWs(s, i + 1), RBRACKET) ==>
              ParseValue(s, i0) == Some((Arr([]), SkipWs(s, i + 1) + 1))
    ensures s[i] == LBRACKET && !ByteAt(s, SkipWs(s, i + 1), RBRACKET) && ParseItems(s, i + 1).Some? ==>
              ParseValue(s, i0) == Some((Arr(ParseItems(s, i + 1).value.0), ParseItems(s, i + 1).value.1))
    ensures s[i] == LBRACE && ByteAt(s, SkipWs(s, i + 1), RBRACE) ==>
              ParseValue(s, i0) == Some((Obj([]), SkipWs(s, i + 1) + 1))
    ensures s[i] == LBRACE && !ByteAt(s, SkipWs(s, i + 1), RBRACE) && ParseMembers(s, i + 1).Some? ==>
              ParseValue(s, i0) == Some((Obj(ParseMembers(s, i + 1).value.0), ParseMembers(s, i + 1).value.1))
    ensures IsDigit(s[i]) || s[i] == MINUS ==> ParseValue(s, i0) == ParseNumber(s, i)
  {
    hide ParseString, ParseNumber, ParseItems, ParseMembers, At;
    AtFirst(s, i, [0x6E, 0x75, 0x6C, 0x6C]);
    AtFirst(s, i, [0x74, 0x72, 0x75, 0x65]);
    AtFirst(s, i, [0x66, 0x61, 0x6C, 0x73, 0x65]);
  }

  lemma AtFirst(s: seq<byte>, i: nat, t: seq<byte>)
    requires |t| > 0
    ensures At(s, i, t) ==> i < |s| && s[i] == t[0]
  {
    if At(s, i, t) { AtIndex(s, i, t, 0); }
  }

  lemma ScalarReads(v: Json, ind: bool, level: nat, s: seq<byte>, i0: nat, i: nat)
    requires Readable(v) && !v.Arr? && !v.Obj? && i0 <= |s|
    requires At(s, i, Write(v, ind, level)) && Delimited(s, i + |Write(v, ind, level)|)
    requires SkipWs(s, i0) == i < |s|
    ensures ParseValue(s, i0) == Some((v, i + |Write(v, ind, level)|))
  {
    hide ParseNumber, ParseString, ParseItems, ParseMembers, Delimited, Strings.Quoted, RealToken, IntText, SurrogateFree;
    match v
    case Int(n) =>
      ParsesInt(n, s, i);
      IntStarts(n);
      AtIndex(s, i, IntText(n), 0);
      Dispatch(s, i0, i);
    case Real(t) =>
      ParsesReal(t, s, i);
      TokenStarts(t);
      AtIndex(s, i, t, 0);
      Dispatch(s, i0, i);
    case Str(cps) =>
      StringReads(cps, s, i);
      QuotedStarts(cps);
      AtIndex(s, i, Strings.Quoted(cps), 0);
      Dispatch(s, i0, i);
    case Bool(b) => if !b { AtIndex(s, i, FALSE, 0); }
    case Null =>
  }

  lemma IntStarts(n: int)
    ensures IsDigit(IntText(n)[0]) || IntText(n)[0] == MINUS
  {
    NatStarts(if n < 0 then -n else n);
  }

  lemma QuotedStarts(cps: seq<codepoint>)
    ensures |Strings.Quoted(cps)| >= 1 && Strings.Quoted(cps)[0] == 0x22
  {}

  /** A written value, after any white space, is read back. */
  lemma {:induction false} ValueReads(v: Json, ind: bool, level: nat, s: seq<byte>, i0: nat, i: nat)
    requires Readable(v) && i0 <= i <= |s| && SkipWs(s, i0) == SkipWs(s, i)
    requires At(s, i, Write(v, ind, level)) && Delimited(s, i + |Write(v, ind, level)|)
    ensures ParseValue(s, i0) == Some((v, i + |Write(v, ind, level)|))
    decreases v, 0
  {
    hide Break, ParseNumber, ParseString, ParseItems, ParseMembers, ItemsTail, MembersTail, WriteItems, WriteMembers;
    hide Delimited, ParseValue, At;
    WriteStarts(v, ind, level);
    AtIndex(s, i, Write(v, ind, level), 0);
    assert SkipWs(s, i) == i;
    match v
    case Arr(items) =>
      if items == [] {
        EmptyReads(v, s, i0, i);
      } else {
        WriteArr(items, ind, level);
        AtConcat(s, i, [LBRACKET], ItemsTail(items, ind, level));
        AtIndex(s, i, [LBRACKET], 0);
        ItemsRead(items, ind, level, s, i + 1);
        Dispatch(s, i0, i);
      }
    case Obj(members) =>
      if members == [] {
        EmptyReads(v, s, i0, i);
      } else {
        WriteObj(members, ind, level);
        AtConcat(s, i, [LBRACE], MembersTail(members, ind, level));
        AtIndex(s, i, [LBRACE], 0);
        MembersRead(members, ind, level, s, i + 1);
        Dispatch(s, i0, i);
      }
    case _ => ScalarReads(v, ind, level, s, i0, i);
  }

  lemma EmptyReads(v: Json, s: seq<byte>, i0: nat, i: nat)
    requires v == Arr([]) || v == Obj([])
    requires i0 <= i && At(s, i, if v.Arr? then [LBRACKET, RBRACKET] else [LBRACE, RBRACE]) && SkipWs(s, i0) == i
    ensures ParseValue(s, i0) == Some((v, i + 2))
  {
    hide ParseValue, At;
    var t := if v.Arr? then [LBRACKET, RBRACKET] else [LBRACE, RBRACE];
    AtIndex(s, i, t, 0);
    AtIndex(s, i, t, 1);
    Dispatch(s, i0, i);
  }

  /** Reading one item, then either the closing bracket or the items after the comma. */
  lemma ItemStep(s: seq<byte>, i: nat, v: Json, j: nat)
    requires i <= |s| && ParseValue(s, i) == Some((v, j)) && j <= |s|
    ensures ByteAt(s, SkipWs(s, j), RBRACKET) ==> ParseItems(s, i) == Some(([v], SkipWs(s, j) + 1))
    ensures ByteAt(s, SkipWs(s, j), COMMA) && ParseItems(s, SkipWs(s, j) + 1).Some? ==>
              var (rest, e) := ParseItems(s, SkipWs(s, j) + 1).value; ParseItems(s, i) == Some(([v] + rest, e))
  {
    hide ParseValue;
  }

  lemma MemberStep(s: seq<byte>, i: nat, key: seq<codepoint>, c: nat, v: Json, j: nat)
    requires i <= |s| && ParseString(s, SkipWs(s, i)) == Some((key, c)) && SkipWs(s, c) == c && ByteAt(s, c, COLON)
    requires ParseValue(s, c + 1) == Some((v, j)) && j <= |s|
    ensures ByteAt(s, SkipWs(s, j), RBRACE) ==> ParseMembers(s, i) == Some(([Member(key, v)], SkipWs(s, j) + 1))
    ensures ByteAt(s, SkipWs(s, j), COMMA) && ParseMembers(s, SkipWs(s, j) + 1).Some? ==>
              var (rest, e) := ParseMembers(s, SkipWs(s, j) + 1).value;
              ParseMembers(s, i) == Some(([Member(key, v)] + rest, e))
  {
    hide ParseValue, ParseString;
  }

  lemma {:induction false} ItemsRead(items: seq<Json>, ind: bool, level: nat, s: seq<byte>, i: nat)
    requires items != [] && i <= |s| && forall k | 0 <= k < |items| :: Readable(items[k])
    requires At(s, i, ItemsTail(items, ind, level))
    ensures ParseItems(s, i) == Some((items, i + |ItemsTail(items, ind, level)|))
    ensures !ByteAt(s, SkipWs(s, i), RBRACKET)
    decreases items, 1
  {
    hide Break, Delimited, ParseValue, ParseItems, At, Write, WriteItems, Readable, AfterItem;
    var b, t, rest := Break(ind, level + 1), Write(items[0], ind, level + 1), AfterItem(items[1..], ind, level);
    AtConcat(s, i, b + t, rest);
    AtConcat(s, i, b, t);
    SkipsBreak(ind, level + 1, s, i);
    var j := i + |b| + |t|;
    AfterItemComma(items[1..], ind, level);
    if items[1..] == [] {
      Closes(RBRACKET, ind, level, s, j);
    } else {
      CommaFollows(ItemsTail(items[1..], ind, level), s, j);
      ItemsRead(items[1..], ind, level, s, j + 1);
    }
    StartsAt(items[0], ind, level + 1, s, i + |b|);
    ValueReads(items[0], ind, level + 1, s, i, i + |b|);
    ItemStep(s, i, items[0], j);
    assert items == [items[0]] + items[1..];
    assert items[1..] == [] ==> items == [items[0]];
  }

  lemma StartsAt(v: Json, ind: bool, level: nat, s: seq<byte>, i: nat)
    requires Readable(v) && At(s, i, Write(v, ind, level))
    ensures i < |s| && SkipWs(s, i) == i && !ByteAt(s, i, RBRACKET) && !ByteAt(s, i, RBRACE)
  {
    hide Write, At;
    WriteStarts(v, ind, level);
    AtIndex(s, i, Write(v, ind, level), 0);
  }

  /** A key and its colon. */
  lemma KeyReads(key: seq<codepoint>, ind: bool, level: nat, t: seq<byte>, s: seq<byte>, i: nat)
    requires SurrogateFree(key) && At(s, i, Break(ind, level) + Strings.Quoted(key) + Colon(ind) + t)
    ensures i <= |s| && !ByteAt(s, SkipWs(s, i), RBRACE)
    ensures var q := i + |Break(ind, level) + Strings.Quoted(key)|; var w := q + |Colon(ind)|;
            && ParseString(s, SkipWs(s, i)) == Some((key, q)) && q + 1 <= w <= |s|
            && SkipWs(s, q) == q && ByteAt(s, q, COLON) && At(s, w, t)
            && SkipWs(s, q + 1) == SkipWs(s, w)
  {
    hide Break, ParseString, Strings.Quoted, At;
    var b, k, c := Break(ind, level), Strings.Quoted(key), Colon(ind);
    AtConcat(s, i, b + k + c, t);
    AtConcat(s, i, b + k, c);
    AtConcat(s, i, b, k);
    SkipsBreak(ind, level, s, i);
    QuotedStarts(key);
    AtIndex(s, i + |b|, k, 0);
    StringReads(key, s, i + |b|);
    AtIndex(s, i + |b + k|, c, 0);
    if ind { AtIndex(s, i + |b + k|, c, 1); }
  }

  lemma {:induction false} MembersRead(members: seq<Member>, ind: bool, level: nat, s: seq<byte>, i: nat)
    requires members != [] && i <= |s| && Readable(Obj(members))
    requires At(s, i, MembersTail(members, ind, level))
    ensures ParseMembers(s, i) == Some((members, i + |MembersTail(members, ind, level)|))
    ensures !ByteAt(s, SkipWs(s, i), RBRACE)
    decreases members, 1
  {
    hide Break, Delimited, ParseValue, ParseString, ParseMembers, At, Write, WriteMembers, AfterMember;
    hide Strings.Quoted, SurrogateFree, Colon, SkipWs;
    var m := members[0];
    var b, k, c := Break(ind, level + 1), Strings.Quoted(m.key), Colon(ind);
    var t, rest := Write(m.value, ind, level + 1), AfterMember(members[1..], ind, level);
    assert b + k + c + t + rest == b + k + c + (t + rest);
    KeyReads(m.key, ind, level + 1, t + rest, s, i);
    var w := i + |b + k| + |c|;
    AtConcat(s, w, t, rest);
    var j := w + |t|;
    AfterMemberComma(members[1..], ind, level);
    if members[1..] == [] {
      Closes(RBRACE, ind, level, s, j);
    } else {
      CommaFollows(MembersTail(members[1..], ind, level), s, j);
      MembersRead(members[1..], ind, level, s, j + 1);
    }
    ValueReads(m.value, ind, level + 1, s, i + |b + k| + 1, w);
    MemberStep(s, i, m.key, i + |b + k|, m.value, j);
    assert members == [m] + members[1..];
    assert members[1..] == [] ==> members == [m];
  }

  /** The round trip of a whole document, which may end in a newline. */
  lemma DocumentReads(v: Json, ind: bool, tail: seq<byte>)
    requires Readable(v) && (tail == [] || tail == [NEWLINE])
    ensures Parse(Write(v, ind, 0) + tail) == Some(v)
  {
    hide ParseValue, Write, Readable;
    var t := Write(v, ind, 0);
    var s := t + tail;
    assert At(s, 0, t);
    ValueReads(v, ind, 0, s, 0, 0);
  }
}
