/** The walk over an n-dimensional array, its fast integer row, and the rollback (src/numpy.rs). */
module NumpyWalk {
  import opened Common
  import opened Out
  import opened JsonText
  import opened Datetime
  import opened Numpy

  /** Memory is a map from byte offset to the element found there. */
  datatype NdArray = NdArray(
    shape: seq<nat>, strides: seq<int>, data: map<int, Elem>, base: int, elem: ElementType, unit: Option<Dt64Unit>)

  // ---- what the walk reads and means -------------------------------------------------------

  /** The offsets of the elements below `p` at dimension `dim`, in row-major order. */
  function Offsets(a: NdArray, dim: nat, p: int): seq<int>
    requires |a.shape| == |a.strides| && dim <= |a.shape|
    decreases |a.shape| - dim, 0, 0
  {
    if dim == |a.shape| then [p] else RowOffsets(a, dim, p, 0)
  }

  function RowOffsets(a: NdArray, dim: nat, p: int, i: nat): seq<int>
    requires |a.shape| == |a.strides| && dim < |a.shape| && i <= a.shape[dim]
    decreases |a.shape| - dim - 1, 1, a.shape[dim] - i
  {
    if i == a.shape[dim] then []
    else Offsets(a, dim + 1, p + i * a.strides[dim]) + RowOffsets(a, dim, p, i + 1)
  }

  /** The array's elements are all in memory, of its type; dates have a unit unless there is no element. */
  ghost predicate InBounds(a: NdArray, offsets: seq<int>) {
    forall o | o in offsets ::
      && o in a.data && OfType(a.data[o], a.elem)
      && (a.elem == Dt64 ==> a.unit.Some? && UnitOk(a.unit.value))
  }

  ghost predicate Readable(a: NdArray, dim: nat, p: int) {
    && |a.shape| == |a.strides| && dim <= |a.shape|
    && InBounds(a, Offsets(a, dim, p))
  }

  lemma LeafReadable(a: NdArray, dim: nat, p: int)
    requires Readable(a, dim, p) && dim == |a.shape|
    ensures p in a.data && OfType(a.data[p], a.elem) && (a.elem == Dt64 ==> a.unit.Some? && UnitOk(a.unit.value))
  {
    assert p in Offsets(a, dim, p);
  }

  lemma {:induction false} RowReadable(a: NdArray, dim: nat, p: int, i: nat, j: nat)
    requires |a.shape| == |a.strides| && dim < |a.shape| && i <= j < a.shape[dim]
    requires InBounds(a, RowOffsets(a, dim, p, i))
    ensures Readable(a, dim + 1, p + j * a.strides[dim])
    decreases j - i
  {
    hide Offsets;
    var here, rest := Offsets(a, dim + 1, p + i * a.strides[dim]), RowOffsets(a, dim, p, i + 1);
    assert RowOffsets(a, dim, p, i) == here + rest;
    assert forall o | o in here :: o in here + rest;
    assert forall o | o in rest :: o in here + rest;
    if i < j { RowReadable(a, dim, p, i + 1, j); }
  }

  /** Every sub-array of an array that can be read can be read. */
  lemma SubReadable(a: NdArray, dim: nat, p: int, j: nat)
    requires Readable(a, dim, p) && dim < |a.shape| && j < a.shape[dim]
    ensures Readable(a, dim + 1, p + j * a.strides[dim])
  {
    RowReadable(a, dim, p, 0, j);
  }

  /** The nested list of the elements, or nothing if one of them is declined. */
  ghost function Tree(a: NdArray, opts: Opts, dim: nat, p: int): Option<Json>
    requires Readable(a, dim, p)
    decreases |a.shape| - dim, 0, 0
  {
    if dim == |a.shape| then
      LeafReadable(a, dim, p);
      ElemTree(a.data[p], a.unit, opts)
    else
      match Rows(a, opts, dim, p, 0)
      case None => None
      case Some(items) => Some(Arr(items))
  }

  ghost function Rows(a: NdArray, opts: Opts, dim: nat, p: int, i: nat): (r: Option<seq<Json>>)
    requires Readable(a, dim, p) && dim < |a.shape| && i <= a.shape[dim]
    ensures r.Some? ==> |r.value| == a.shape[dim] - i
    decreases |a.shape| - dim - 1, 1, a.shape[dim] - i
  {
    if i == a.shape[dim] then Some([])
    else
      SubReadable(a, dim, p, i);
      match Tree(a, opts, dim + 1, p + i * a.strides[dim])
      case None => None
      case Some(v) =>
        match Rows(a, opts, dim, p, i + 1)
        case None => None
        case Some(rest) => Some([v] + rest)
  }

  // ---- the fast row ------------------------------------------------------------------------

  /** One block of a fixed size; the bytes around it stay. */
  method CopyBlock(s: seq<byte>, base: array<byte>, dst: nat, from: nat, size: nat)
    requires from + size <= |s| && dst + |s| <= base.Length
    modifies base
    ensures forall k | 0 <= k < base.Length ::
              base[k] == if dst + from <= k < dst + from + size then s[k - dst] else old(base[k])
  {
    forall k | from <= k < from + size {
      base[dst + k] := s[k];
    }
  }

  /** `s` lies at `dst`, and nothing else has changed. */
  lemma CopiedDigits(base: seq<byte>, before: seq<byte>, s: seq<byte>, dst: nat)
    requires |base| == |before| && dst + |s| <= |base|
    requires forall k | 0 <= k < |base| :: base[k] == if dst <= k < dst + |s| then s[k - dst] else before[k]
    ensures base[dst..dst + |s|] == s && base[..dst] == before[..dst] && base[dst + |s|..] == before[dst + |s|..]
  {}

  /** Copies at most 20 bytes with fixed-size, possibly overlapping copies; nothing beyond them is written. */
  method CopyDigits(s: seq<byte>, base: array<byte>, dst: nat) returns (end: nat)
    requires |s| <= 20 && dst + |s| <= base.Length
    modifies base
    ensures end == dst + |s| && base[dst..end] == s
    ensures base[..dst] == old(base[..dst]) && base[end..] == old(base[end..])
  {
    var n := |s|;
    ghost var before := base[..];
    if n >= 8 {
      CopyBlock(s, base, dst, 0, 8);
      CopyBlock(s, base, dst, n - 8, 8);
      if n > 16 {
        CopyBlock(s, base, dst, 8, 8);
      }
    } else if n >= 4 {
      CopyBlock(s, base, dst, 0, 4);
      CopyBlock(s, base, dst, n - 4, 4);
    } else {
      for i := 0 to n
        invariant forall k | 0 <= k < base.Length :: base[k] == if dst <= k < dst + i then s[k - dst] else before[k]
      {
        base[dst + i] := s[i];
      }
    }
    end := dst + n;
    CopiedDigits(base[..], before, s, dst);
  }

  ghost predicate IntRow(a: NdArray, p: int, n: nat, stride: int) {
    IsInt(a.elem) && forall k | 0 <= k < n :: p + k * stride in a.data && OfType(a.data[p + k * stride], a.elem)
  }

  lemma IntAt(a: NdArray, p: int, n: nat, stride: int, i: nat)
    requires IntRow(a, p, n, stride) && i < n
    ensures p + i * stride in a.data && a.data[p + i * stride].EInt?
    ensures |IntText(a.data[p + i * stride].i)| <= 20
    ensures IntRow(a, p, i, stride) && IntRow(a, p, i + 1, stride)
  {
    hide IntText;
    IntTextLength(a.data[p + i * stride].i, a.elem);
  }

  /** The integers of a row, as JSON values. */
  ghost function IntItems(a: NdArray, p: int, n: nat, stride: int): (r: seq<Json>)
    requires IntRow(a, p, n, stride)
    ensures |r| == n
  {
    if n == 0 then [] else IntItems(a, p, n - 1, stride) + [Int(a.data[p + (n - 1) * stride].i)]
  }

  function Steps(p: int, n: nat, stride: int): seq<int> {
    if n == 0 then [] else Steps(p, n - 1, stride) + [p + (n - 1) * stride]
  }

  /** One element of the row: its comma, if it is not the first, and its digits. */
  method PutItem(base: array<byte>, dst: nat, first: bool, text: seq<byte>) returns (end: nat)
    requires |text| <= 20 && dst + 21 <= base.Length
    modifies base
    ensures dst <= end <= dst + 21
    ensures base[..end] == old(base[..dst]) + (Comma(first) + [] + text)
  {
    end := dst;
    if !first {
      base[dst] := COMMA;
      end := dst + 1;
    }
    ghost var head := base[..end];
    end := CopyDigits(text, base, end);
    assert base[..end] == head + text;
  }

  /** The text of the first `n` integers of a row, with the commas between them. */
  ghost function IntsText(a: NdArray, p: int, n: nat, stride: int): seq<byte>
    requires IntRow(a, p, n, stride)
  {
    WriteItems(IntItems(a, p, n, stride), true, false, 0)
  }

  lemma NoItems(a: NdArray, p: int, stride: int)
    requires IsInt(a.elem)
    ensures IntRow(a, p, 0, stride) && IntItems(a, p, 0, stride) == [] && IntsText(a, p, 0, stride) == []
    ensures Steps(p, 0, stride) == []
  {}

  lemma IntsTextSnoc(a: NdArray, p: int, i: nat, stride: int)
    requires IntRow(a, p, i, stride) && IntRow(a, p, i + 1, stride)
    ensures IntsText(a, p, i + 1, stride)
         == IntsText(a, p, i, stride) + (Comma(i == 0) + [] + IntText(a.data[p + i * stride].i))
  {
    WriteItemsSnoc(IntItems(a, p, i, stride), Int(a.data[p + i * stride].i), true, false, 0);
  }

  /** The next integer of the row. */
  method PutInt(base: array<byte>, dst: nat, a: NdArray, p: int, n: nat, stride: int, i: nat, ghost head: seq<byte>)
    returns (end: nat, ghost at: int)
    requires IntRow(a, p, n, stride) && i < n && IntRow(a, p, i, stride)
    requires dst + 21 <= base.Length && base[..dst] == head + IntsText(a, p, i, stride)
    modifies base
    ensures dst <= end <= dst + 21 && at == p + i * stride
    ensures IntRow(a, p, i + 1, stride) && base[..end] == head + IntsText(a, p, i + 1, stride)
  {
    hide IntText, Comma, IntRow, IntsText;
    at := p + i * stride;
    IntAt(a, p, n, stride, i);
    IntsTextSnoc(a, p, i, stride);
    end := PutItem(base, dst, i == 0, IntText(a.data[p + i * stride].i));
  }

  lemma StepsSnoc(p: int, i: nat, stride: int)
    ensures Steps(p, i + 1, stride) == Steps(p, i, stride) + [p + i * stride]
  {}

  /** The integers one after the other, each within its 21 bytes. */
  method PutInts(base: array<byte>, start: nat, a: NdArray, p: int, n: nat, stride: int, ghost head: seq<byte>)
    returns (dst: nat, ghost visited: seq<int>)
    requires IsInt(a.elem) && IntRow(a, p, n, stride)
    requires start + n * 21 + 1 <= base.Length && base[..start] == head
    modifies base
    ensures dst + 1 <= base.Length && base[..dst] == head + IntsText(a, p, n, stride)
    ensures visited == Steps(p, n, stride)
  {
    hide IntRow, IntsText, Steps;
    dst, visited := start, [];
    NoItems(a, p, stride);
    for i := 0 to n
      invariant dst + (n - i) * 21 + 1 <= base.Length
      invariant IntRow(a, p, i, stride) && base[..dst] == head + IntsText(a, p, i, stride)
      invariant visited == Steps(p, i, stride)
    {
      ghost var at;
      dst, at := PutInt(base, dst, a, p, n, stride, i, head);
      StepsSnoc(p, i, stride);
      visited := visited + [at];
    }
  }

  /**
   * A whole compact row of integers after one reservation of 21 bytes an element and two
   * for the brackets; no store leaves it, and the text is the one written element by element.
   */
  method WriteIntRow(out: OutputBuffer, a: NdArray, p: int, n: nat, stride: int) returns (ghost visited: seq<int>)
    requires out.Valid() && IsInt(a.elem) && IntRow(a, p, n, stride)
    modifies out.Repr
    ensures out.Valid() && fresh(out.Repr - old(out.Repr))
    ensures out.Contents() == old(out.Contents()) + [LBRACKET] + IntsText(a, p, n, stride) + [RBRACKET]
    ensures visited == Steps(p, n, stride)
    ensures out.moves <= old(out.moves) + 1
  {
    hide IntRow, IntsText, Steps;
    ghost var head := out.Contents() + [LBRACKET];
    out.Reserve(n * 21 + 2);
    var base, dst: nat := out.mem, out.len;
    base[dst] := LBRACKET;
    dst, visited := PutInts(base, dst + 1, a, p, n, stride, head);
    ghost var body := base[..dst];
    base[dst] := RBRACKET;
    assert base[..dst + 1] == body + [RBRACKET];
    out.SetLen(dst + 1);
  }

  // ---- the walk ----------------------------------------------------------------------------

  lemma {:induction false} RowIsSteps(a: NdArray, dim: nat, p: int, i: nat)
    requires |a.shape| == |a.strides| && dim + 1 == |a.shape| && i <= a.shape[dim]
    ensures Steps(p, i, a.strides[dim]) + RowOffsets(a, dim, p, i) == Steps(p, a.shape[dim], a.strides[dim])
    decreases a.shape[dim] - i
  {
    if i < a.shape[dim] {
      RowIsSteps(a, dim, p, i + 1);
      var s, here, rest := Steps(p, i, a.strides[dim]), [p + i * a.strides[dim]], RowOffsets(a, dim, p, i + 1);
      assert Steps(p, i + 1, a.strides[dim]) + rest == s + (here + rest);
    }
  }

  lemma {:induction false} RowsAreInts(a: NdArray, opts: Opts, dim: nat, p: int, i: nat)
    requires Readable(a, dim, p) && dim + 1 == |a.shape| && i <= a.shape[dim] && IsInt(a.elem)
    requires IntRow(a, p, a.shape[dim], a.strides[dim]) && IntRow(a, p, i, a.strides[dim])
    ensures Rows(a, opts, dim, p, i).Some?
    ensures IntItems(a, p, i, a.strides[dim]) + Rows(a, opts, dim, p, i).value
         == IntItems(a, p, a.shape[dim], a.strides[dim])
    decreases a.shape[dim] - i
  {
    hide InBounds, IntRow, Tree, OfType;
    var n, stride := a.shape[dim], a.strides[dim];
    if i < n {
      SubReadable(a, dim, p, i);
      IntAt(a, p, n, stride, i);
      LeafIsInt(a, opts, dim + 1, p + i * stride);
      RowsAreInts(a, opts, dim, p, i + 1);
      RegroupItems(IntItems(a, p, i, stride), Int(a.data[p + i * stride].i), Rows(a, opts, dim, p, i + 1).value);
    }
  }

  lemma LeafIsInt(a: NdArray, opts: Opts, dim: nat, q: int)
    requires Readable(a, dim, q) && dim == |a.shape| && IsInt(a.elem)
    ensures q in a.data && a.data[q].EInt? && Tree(a, opts, dim, q) == Some(Int(a.data[q].i))
  {
    hide InBounds;
    LeafReadable(a, dim, q);
  }

  lemma RegroupItems(a: seq<Json>, v: Json, b: seq<Json>)
    ensures a + ([v] + b) == (a + [v]) + b
  {}

  lemma RowIsInts(a: NdArray, dim: nat, p: int)
    requires Readable(a, dim, p) && dim + 1 == |a.shape| && IsInt(a.elem)
    ensures IntRow(a, p, a.shape[dim], a.strides[dim]) && IntRow(a, p, 0, a.strides[dim])
  {
    hide InBounds;
    forall k | 0 <= k < a.shape[dim]
      ensures p + k * a.strides[dim] in a.data && OfType(a.data[p + k * a.strides[dim]], a.elem)
    {
      SubReadable(a, dim, p, k);
      LeafReadable(a, dim + 1, p + k * a.strides[dim]);
    }
  }

  /** Compact text does not depend on the level. */
  lemma {:induction false} CompactInts(a: NdArray, p: int, n: nat, stride: int, first: bool, level: nat)
    requires IntRow(a, p, n, stride)
    ensures WriteItems(IntItems(a, p, n, stride), first, false, level)
         == WriteItems(IntItems(a, p, n, stride), first, false, 0)
  {
    if n > 0 {
      CompactInts(a, p, n - 1, stride, first, level);
      var v := Int(a.data[p + (n - 1) * stride].i);
      WriteItemsSnoc(IntItems(a, p, n - 1, stride), v, first, false, level);
      WriteItemsSnoc(IntItems(a, p, n - 1, stride), v, first, false, 0);
    }
  }

  /** The fast row appends what the element-by-element row would. */
  method FastRow(out: OutputBuffer, opts: Opts, level: nat, a: NdArray, dim: nat, p: int)
    returns (ghost visited: seq<int>)
    requires out.Valid() && Readable(a, dim, p) && dim + 1 == |a.shape| && IsInt(a.elem)
    requires a.shape[dim] > 0 && !opts.indent2
    modifies out.Repr
    ensures out.Valid() && fresh(out.Repr - old(out.Repr))
    ensures Tree(a, opts, dim, p).Some?
    ensures out.Contents() == old(out.Contents()) + Write(Tree(a, opts, dim, p).value, opts.indent2, level)
    ensures visited == Offsets(a, dim, p)
    ensures out.moves <= old(out.moves) + 1
  {
    hide InBounds, WriteItems, IntRow, IntItems, Offsets, Rows;
    ghost var start := out.Contents();
    var n, stride := a.shape[dim], a.strides[dim];
    RowIsInts(a, dim, p);
    visited := WriteIntRow(out, a, p, n, stride);
    FastRowText(a, opts, level, dim, p, start);
  }

  lemma FastRowText(a: NdArray, opts: Opts, level: nat, dim: nat, p: int, start: seq<byte>)
    requires Readable(a, dim, p) && dim + 1 == |a.shape| && IsInt(a.elem) && a.shape[dim] > 0 && !opts.indent2
    requires IntRow(a, p, a.shape[dim], a.strides[dim]) && IntRow(a, p, 0, a.strides[dim])
    ensures Tree(a, opts, dim, p).Some?
    ensures start + [LBRACKET] + IntsText(a, p, a.shape[dim], a.strides[dim]) + [RBRACKET]
         == start + Write(Tree(a, opts, dim, p).value, opts.indent2, level)
    ensures Steps(p, a.shape[dim], a.strides[dim]) == Offsets(a, dim, p)
  {
    hide Readable, WriteItems, Write, IntRow, Tree, Break, Offsets, Steps, IntItems;
    ItemDims(a, dim, p);
    var n, stride := a.shape[dim], a.strides[dim];
    var items := IntItems(a, p, n, stride);
    RowIsItsInts(a, opts, dim, p);
    RowIsSteps(a, dim, p, 0);
    OffsetsOfRow(a, dim, p, stride);
    CompactInts(a, p, n, stride, true, level + 1);
    ArrayText(start, items, false, level);
    NoBreak(start + [LBRACKET] + WriteItems(items, true, false, 0), level);
  }

  lemma RowIsItsInts(a: NdArray, opts: Opts, dim: nat, p: int)
    requires Readable(a, dim, p) && dim + 1 == |a.shape| && IsInt(a.elem) && a.shape[dim] > 0
    requires IntRow(a, p, a.shape[dim], a.strides[dim]) && IntRow(a, p, 0, a.strides[dim])
    ensures var items := IntItems(a, p, a.shape[dim], a.strides[dim]);
            Tree(a, opts, dim, p) == Some(Arr(items)) && |items| == a.shape[dim]
  {
    hide InBounds, IntRow, Rows;
    RowsAreInts(a, opts, dim, p, 0);
    NoItems(a, p, a.strides[dim]);
    assert [] + Rows(a, opts, dim, p, 0).value == Rows(a, opts, dim, p, 0).value;
  }

  lemma OffsetsOfRow(a: NdArray, dim: nat, p: int, stride: int)
    requires Readable(a, dim, p) && dim < |a.shape|
    ensures Steps(p, 0, stride) + RowOffsets(a, dim, p, 0) == Offsets(a, dim, p)
  {
    hide InBounds;
  }

  const ROW_CHUNK: nat := 1024

  /** A row written without line breaks; a float asks for its formatter's whole buffer, whatever its text. */
  predicate Compact(a: NdArray, opts: Opts, dim: nat) {
    dim + 1 == |a.shape| && !opts.indent2 && a.elem !in {F16, F32, F64}
  }

  /** How many of the elements from `i` on the last reservation was for. */
  function Covered(n: nat, i: nat): nat {
    if i % ROW_CHUNK == 0 || n <= i then 0
    else if n <= (i / ROW_CHUNK + 1) * ROW_CHUNK then n - i
    else ROW_CHUNK - i % ROW_CHUNK
  }

  /** How many reservations come before element `i`. */
  function Chunks(i: nat): nat {
    (i + ROW_CHUNK - 1) / ROW_CHUNK
  }

  /** There is room for the elements reserved for, each with its comma, and for the closing bracket. */
  ghost predicate Roomy(out: OutputBuffer, elem: ElementType, n: nat, i: nat)
    reads out
  {
    i > 0 ==> out.mem.Length - out.len >= Covered(n, i) * (MaxText(elem) + 1) + 1
  }

  lemma NextCovered(n: nat, i: nat)
    requires i < n
    ensures i % ROW_CHUNK != 0 ==> Covered(n, i) >= Covered(n, i + 1) + 1
    ensures i % ROW_CHUNK == 0 ==> (if n - i < ROW_CHUNK then n - i else ROW_CHUNK) >= Covered(n, i + 1) + 1
    ensures Chunks(i + 1) == Chunks(i) + if i % ROW_CHUNK == 0 then 1 else 0
  {
    hide Chunks;
    NextIndex(i);
    ChunksOf(i);
    ChunksOf(i + 1);
    assert i == ROW_CHUNK * (i / ROW_CHUNK) + i % ROW_CHUNK;
  }

  /** The next index is in the same chunk, or the first of the next one. */
  lemma NextIndex(i: nat)
    ensures if i % ROW_CHUNK == ROW_CHUNK - 1 then (i + 1) % ROW_CHUNK == 0 && (i + 1) / ROW_CHUNK == i / ROW_CHUNK + 1
            else (i + 1) % ROW_CHUNK == i % ROW_CHUNK + 1 && (i + 1) / ROW_CHUNK == i / ROW_CHUNK
  {}

  lemma ChunksOf(i: nat)
    ensures Chunks(i) == i / ROW_CHUNK + if i % ROW_CHUNK == 0 then 0 else 1
  {}

  lemma Scaled(a: nat, b: nat, w: nat)
    requires a >= b + 1
    ensures a * w >= b * w + w
  {
    MulMonotone(b + 1, a, w);
    assert (b + 1) * w == b * w + w;
  }

  /** The reservation at the start of a chunk; in between there is room left for the element at `i`. */
  method Prepare(out: OutputBuffer, opts: Opts, a: NdArray, dim: nat, i: nat)
    requires out.Valid() && dim < |a.shape| && i < a.shape[dim]
    modifies out.Repr
    ensures out.Valid() && fresh(out.Repr - old(out.Repr))
    ensures out.Contents() == old(out.Contents()) && out.len == old(out.len)
    ensures i % ROW_CHUNK != 0 ==> out.mem == old(out.mem) && out.moves == old(out.moves)
    ensures out.moves <= old(out.moves) + 1
    ensures Compact(a, opts, dim) && old(Roomy(out, a.elem, a.shape[dim], i)) ==>
              out.mem.Length - out.len >= Covered(a.shape[dim], i + 1) * (MaxText(a.elem) + 1) + MaxText(a.elem) + 2
  {
    hide Covered, MaxText;
    var n := a.shape[dim];
    NextCovered(n, i);
    if dim + 1 == |a.shape| && !opts.indent2 && i % ROW_CHUNK == 0 {
      var next := if n - i < ROW_CHUNK then n - i else ROW_CHUNK;
      Scaled(next, Covered(n, i + 1), MaxText(a.elem) + 1);
      out.Reserve(next * (MaxText(a.elem) + 1) + 1);
    } else if i % ROW_CHUNK != 0 {
      Scaled(Covered(n, i), Covered(n, i + 1), MaxText(a.elem) + 1);
    }
  }

  /** One element of a dimension: the chunk's reservation, comma, line break, and what is below it. */
  method WalkItem(out: OutputBuffer, opts: Opts, depth: nat, a: NdArray, dim: nat, p: int, i: nat)
    returns (ok: bool, ghost visited: seq<int>)
    requires out.Valid() && Readable(a, dim, p) && dim < |a.shape| && i < a.shape[dim]
    modifies out.Repr
    ensures out.Valid() && fresh(out.Repr - old(out.Repr))
    ensures Readable(a, dim + 1, p + i * a.strides[dim])
    ensures var q := p + i * a.strides[dim]; var level := depth + dim + 1;
            && (ok <==> Tree(a, opts, dim + 1, q).Some?)
            && (ok ==> out.Contents() == old(out.Contents()) + ItemText(Tree(a, opts, dim + 1, q).value, i == 0, opts.indent2, level))
            && old(out.Contents()) <= out.Contents()
            && visited <= Offsets(a, dim + 1, q) && (ok ==> visited == Offsets(a, dim + 1, q))
    ensures Compact(a, opts, dim) && old(Roomy(out, a.elem, a.shape[dim], i)) ==>
              && (ok ==> Roomy(out, a.elem, a.shape[dim], i + 1))
              && (i % ROW_CHUNK != 0 ==> out.mem == old(out.mem))
              && out.moves <= old(out.moves) + if i % ROW_CHUNK == 0 then 1 else 0
    decreases |a.shape| - dim, 0
  {
    hide Readable, Offsets, Tree, Covered, MaxText, Write, ItemText;
    ItemDims(a, dim, p);
    SubReadable(a, dim, p, i);
    Prepare(out, opts, a, dim, i);
    ok, visited := SeparateBelow(out, opts, depth, a, dim + 1, p + i * a.strides[dim], i == 0);
  }

  /** A comma unless it is the first, a line break when indenting, and what is below. */
  method SeparateBelow(out: OutputBuffer, opts: Opts, depth: nat, a: NdArray, dim: nat, q: int, first: bool)
    returns (ok: bool, ghost visited: seq<int>)
    requires out.Valid() && Readable(a, dim, q)
    modifies out.Repr
    ensures out.Valid() && fresh(out.Repr - old(out.Repr))
    ensures ok <==> Tree(a, opts, dim, q).Some?
    ensures ok ==> out.Contents() == old(out.Contents()) + ItemText(Tree(a, opts, dim, q).value, first, opts.indent2, depth + dim)
    ensures old(out.Contents()) <= out.Contents()
    ensures visited <= Offsets(a, dim, q) && (ok ==> visited == Offsets(a, dim, q))
    ensures dim == |a.shape| && !opts.indent2 ==>
              out.len <= old(out.len) + 1 + MaxText(a.elem) && out.Kept(old(out.mem), old(out.moves))
    decreases |a.shape| - dim, 6
  {
    hide Readable, Write, Comma, Break, Offsets, Tree, MaxText;
    ghost var start := out.Contents();
    ShortComma(first, depth + dim);
    Separate(out, first, opts.indent2, depth + dim);
    ok, visited := WalkBelow(out, opts, depth, a, dim, q);
    if ok {
      Joined(start, Comma(first) + Break(opts.indent2, depth + dim),
              Write(Tree(a, opts, dim, q).value, opts.indent2, depth + dim));
    }
  }

  /** An element, or the next dimension. */
  method WalkBelow(out: OutputBuffer, opts: Opts, depth: nat, a: NdArray, dim: nat, q: int)
    returns (ok: bool, ghost visited: seq<int>)
    requires out.Valid() && Readable(a, dim, q)
    modifies out.Repr
    ensures out.Valid() && fresh(out.Repr - old(out.Repr))
    ensures ok <==> Tree(a, opts, dim, q).Some?
    ensures ok ==> out.Contents() == old(out.Contents()) + Write(Tree(a, opts, dim, q).value, opts.indent2, depth + dim)
    ensures old(out.Contents()) <= out.Contents()
    ensures visited <= Offsets(a, dim, q) && (ok ==> visited == Offsets(a, dim, q))
    ensures dim == |a.shape| ==> out.len <= old(out.len) + MaxText(a.elem) && out.Kept(old(out.mem), old(out.moves))
    decreases |a.shape| - dim, 5
  {
    hide Readable, Write, Offsets, Tree;
    ItemDims(a, dim, q);
    if dim == |a.shape| {
      ok := WriteLeaf(out, opts, a, q, depth + dim);
      LeafOffsets(a, dim, q);
      visited := [q];
    } else {
      ok, visited := Walk(out, opts, depth, a, dim, q);
    }
  }

  lemma ItemDims(a: NdArray, dim: nat, p: int)
    requires Readable(a, dim, p)
    ensures |a.shape| == |a.strides| && dim <= |a.shape|
  {}

  lemma ShortComma(first: bool, level: nat)
    ensures |Comma(first) + Break(false, level)| <= 1
  {}

  /** The element at `q`. */
  method WriteLeaf(out: OutputBuffer, opts: Opts, a: NdArray, q: int, ghost level: nat) returns (ok: bool)
    requires out.Valid() && Readable(a, |a.shape|, q)
    modifies out.Repr
    ensures out.Valid() && fresh(out.Repr - old(out.Repr))
    ensures ok <==> Tree(a, opts, |a.shape|, q).Some?
    ensures ok ==> out.Contents() == old(out.Contents()) + Write(Tree(a, opts, |a.shape|, q).value, opts.indent2, level)
    ensures old(out.Contents()) <= out.Contents()
    ensures out.len <= old(out.len) + MaxText(a.elem) && out.Kept(old(out.mem), old(out.moves))
  {
    hide InBounds, Write, OfType, UnitOk, MaxText;
    LeafReadable(a, |a.shape|, q);
    LeafDate(a, q);
    LeafBound(a, opts, q, level);
    ok := WriteElem(out, a.data[q], a.unit, opts);
  }

  lemma LeafDate(a: NdArray, q: int)
    requires q in a.data && OfType(a.data[q], a.elem) && (a.elem == Dt64 ==> a.unit.Some? && UnitOk(a.unit.value))
    ensures a.data[q].EDt64? ==> I64_MIN <= a.data[q].v <= I64_MAX && a.unit.Some? && UnitOk(a.unit.value)
  {}

  lemma LeafBound(a: NdArray, opts: Opts, q: int, level: nat)
    requires Readable(a, |a.shape|, q)
    ensures Tree(a, opts, |a.shape|, q).Some? ==>
              |Write(Tree(a, opts, |a.shape|, q).value, opts.indent2, level)| <= MaxText(a.elem)
  {
    hide InBounds, Write, OfType, UnitOk, MaxText, ElemTree;
    LeafReadable(a, |a.shape|, q);
    LeafDate(a, q);
    if Tree(a, opts, |a.shape|, q).Some? {
      MaxTextBounds(a.data[q], a.elem, a.unit, opts, opts.indent2, level);
    }
  }

  lemma LeafOffsets(a: NdArray, dim: nat, q: int)
    requires |a.shape| == |a.strides| && dim == |a.shape|
    ensures Offsets(a, dim, q) == [q]
  {}

  /**
   * Writes the array below `p` as nested lists and reads its elements in order, each once;
   * an element that is declined stops it.
   */
  method Walk(out: OutputBuffer, opts: Opts, depth: nat, a: NdArray, dim: nat, p: int)
    returns (ok: bool, ghost visited: seq<int>)
    requires out.Valid() && Readable(a, dim, p) && dim < |a.shape|
    modifies out.Repr
    ensures out.Valid() && fresh(out.Repr - old(out.Repr))
    ensures ok <==> Tree(a, opts, dim, p).Some?
    ensures ok ==> out.Contents() == old(out.Contents()) + Write(Tree(a, opts, dim, p).value, opts.indent2, depth + dim)
    ensures old(out.Contents()) <= out.Contents()
    ensures visited <= Offsets(a, dim, p) && (ok ==> visited == Offsets(a, dim, p))
    ensures Compact(a, opts, dim) ==> out.moves <= old(out.moves) + 1 + (a.shape[dim] + 1023) / 1024
    decreases |a.shape| - dim, 4
  {
    hide InBounds, Write, WriteItems, Comma, Offsets, Chunks;
    var n := a.shape[dim];
    if n == 0 {
      EmptyDim(a, opts, dim, p, depth + dim);
      out.ExtendFromSlice([LBRACKET, RBRACKET]);
      return true, [];
    }
    if dim + 1 == |a.shape| && !opts.indent2 && IsInt(a.elem) {
      visited := FastRow(out, opts, depth + dim, a, dim, p);
      return true, visited;
    }
    ok, visited := WalkRow(out, opts, depth, a, dim, p);
  }

  lemma EmptyDim(a: NdArray, opts: Opts, dim: nat, p: int, level: nat)
    requires Readable(a, dim, p) && dim < |a.shape| && a.shape[dim] == 0
    ensures Tree(a, opts, dim, p) == Some(Arr([])) && Offsets(a, dim, p) == []
    ensures Write(Arr([]), opts.indent2, level) == [LBRACKET, RBRACKET]
  {}

  /** `items` and `visited` are the trees and offsets of the first `i` rows, which were all written. */
  ghost predicate Done(a: NdArray, opts: Opts, dim: nat, p: int, i: nat, items: seq<Json>, visited: seq<int>)
    requires Readable(a, dim, p) && dim < |a.shape| && i <= a.shape[dim]
  {
    && (Rows(a, opts, dim, p, 0).Some? <==> Rows(a, opts, dim, p, i).Some?)
    && (Rows(a, opts, dim, p, i).Some? ==> Rows(a, opts, dim, p, 0).value == items + Rows(a, opts, dim, p, i).value)
    && Offsets(a, dim, p) == visited + RowOffsets(a, dim, p, i)
    && (i > 0 <==> items != [])
  }

  lemma DoneStart(a: NdArray, opts: Opts, dim: nat, p: int)
    requires Readable(a, dim, p) && dim < |a.shape|
    ensures Done(a, opts, dim, p, 0, [], [])
  {
    hide InBounds;
    assert [] + RowOffsets(a, dim, p, 0) == RowOffsets(a, dim, p, 0);
    if Rows(a, opts, dim, p, 0).Some? {
      assert [] + Rows(a, opts, dim, p, 0).value == Rows(a, opts, dim, p, 0).value;
    }
  }

  lemma DoneStep(a: NdArray, opts: Opts, dim: nat, p: int, i: nat, items: seq<Json>, visited: seq<int>)
    requires Readable(a, dim, p) && dim < |a.shape| && i < a.shape[dim]
    requires Done(a, opts, dim, p, i, items, visited)
    requires Readable(a, dim + 1, p + i * a.strides[dim])
    ensures var q := p + i * a.strides[dim]; var t := Tree(a, opts, dim + 1, q);
            && (t.None? ==> Tree(a, opts, dim, p).None?)
            && (t.Some? ==> Done(a, opts, dim, p, i + 1, items + [t.value], visited + Offsets(a, dim + 1, q)))
            && visited + Offsets(a, dim + 1, q) <= Offsets(a, dim, p)
  {
    hide InBounds;
    var q := p + i * a.strides[dim];
    var t := Tree(a, opts, dim + 1, q);
    assert RowOffsets(a, dim, p, i) == Offsets(a, dim + 1, q) + RowOffsets(a, dim, p, i + 1);
    assert visited + (Offsets(a, dim + 1, q) + RowOffsets(a, dim, p, i + 1))
        == (visited + Offsets(a, dim + 1, q)) + RowOffsets(a, dim, p, i + 1);
    if t.Some? && Rows(a, opts, dim, p, i + 1).Some? {
      assert items + ([t.value] + Rows(a, opts, dim, p, i + 1).value)
          == (items + [t.value]) + Rows(a, opts, dim, p, i + 1).value;
    }
  }

  lemma DoneEnd(a: NdArray, opts: Opts, dim: nat, p: int, items: seq<Json>, visited: seq<int>)
    requires Readable(a, dim, p) && dim < |a.shape| && Done(a, opts, dim, p, a.shape[dim], items, visited)
    ensures Tree(a, opts, dim, p) == Some(Arr(items)) && Offsets(a, dim, p) == visited
  {
    hide InBounds;
    assert items + [] == items && visited + [] == visited;
  }

  /** One more row, after those that were written. */
  method WalkNext(out: OutputBuffer, opts: Opts, depth: nat, a: NdArray, dim: nat, p: int, i: nat,
                  ghost start: seq<byte>, ghost items: seq<Json>, ghost visited: seq<int>)
    returns (ok: bool, ghost items': seq<Json>, ghost visited': seq<int>)
    requires out.Valid() && Readable(a, dim, p) && dim < |a.shape| && i < a.shape[dim]
    requires Done(a, opts, dim, p, i, items, visited) && (i == 0 <==> items == [])
    requires out.Contents() == start + WriteItems(items, true, opts.indent2, depth + dim + 1)
    modifies out.Repr
    ensures out.Valid() && fresh(out.Repr - old(out.Repr)) && old(out.Contents()) <= out.Contents()
    ensures !ok ==> Tree(a, opts, dim, p).None? && visited' <= Offsets(a, dim, p)
    ensures ok ==> Done(a, opts, dim, p, i + 1, items', visited') && items' != []
    ensures ok ==> out.Contents() == start + WriteItems(items', true, opts.indent2, depth + dim + 1)
    ensures Compact(a, opts, dim) && old(Roomy(out, a.elem, a.shape[dim], i)) ==>
              && (ok ==> Roomy(out, a.elem, a.shape[dim], i + 1))
              && out.moves <= old(out.moves) + if i % ROW_CHUNK == 0 then 1 else 0
    decreases |a.shape| - dim, 1
  {
    hide Readable, ItemText, WriteItems, Offsets, RowOffsets, Done, Tree, Rows, Write, Compact, Roomy;
    ItemDims(a, dim, p);
    ghost var more;
    ok, more := WalkItem(out, opts, depth, a, dim, p, i);
    DoneStep(a, opts, dim, p, i, items, visited);
    items', visited' := items, visited + more;
    if ok {
      ghost var v := Tree(a, opts, dim + 1, p + i * a.strides[dim]).value;
      AppendItem(start, items, v, opts.indent2, depth + dim + 1);
      items' := items + [v];
    }
  }

  /** The rows of a dimension, one after the other. */
  method WalkRows(out: OutputBuffer, opts: Opts, depth: nat, a: NdArray, dim: nat, p: int)
    returns (ok: bool, ghost items: seq<Json>, ghost visited: seq<int>)
    requires out.Valid() && Readable(a, dim, p) && dim < |a.shape|
    modifies out.Repr
    ensures out.Valid() && fresh(out.Repr - old(out.Repr))
    ensures ok ==> Done(a, opts, dim, p, a.shape[dim], items, visited)
    ensures ok ==> out.Contents() == old(out.Contents()) + WriteItems(items, true, opts.indent2, depth + dim + 1)
    ensures !ok ==> Tree(a, opts, dim, p).None? && visited <= Offsets(a, dim, p)
    ensures old(out.Contents()) <= out.Contents()
    ensures Compact(a, opts, dim) ==> out.moves <= old(out.moves) + (a.shape[dim] + 1023) / 1024
    ensures Compact(a, opts, dim) && ok && a.shape[dim] > 0 ==> out.mem.Length > out.len
    decreases |a.shape| - dim, 2
  {
    hide Readable, ItemText, WriteItems, Offsets, RowOffsets, Done, Tree, Rows, Write, Compact, Covered, Chunks, Roomy;
    NoChunks();
    ChunksAre(a.shape[dim]);
    RoomyEnds(out, a.elem, a.shape[dim]);
    ItemDims(a, dim, p);
    ghost var start, level := out.Contents(), depth + dim + 1;
    items, visited := [], [];
    DoneStart(a, opts, dim, p);
    NothingYet(start, opts.indent2, level);
    for i := 0 to a.shape[dim]
      invariant out.Valid() && fresh(out.Repr - old(out.Repr))
      invariant Done(a, opts, dim, p, i, items, visited) && (i == 0 <==> items == [])
      invariant out.Contents() == start + WriteItems(items, true, opts.indent2, level)
      invariant Compact(a, opts, dim) ==> Roomy(out, a.elem, a.shape[dim], i) && out.moves <= old(out.moves) + Chunks(i)
    {
      NextCovered(a.shape[dim], i);
      MoreChunks(i + 1, a.shape[dim]);
      ok, items, visited := WalkNext(out, opts, depth, a, dim, p, i, start, items, visited);
      if !ok {
        return;
      }
    }
    RoomyEnds(out, a.elem, a.shape[dim]);
    ok := true;
  }

  lemma RoomyEnds(out: OutputBuffer, elem: ElementType, n: nat)
    ensures Roomy(out, elem, n, 0)
    ensures n > 0 && Roomy(out, elem, n, n) ==> out.mem.Length > out.len
  {}

  lemma NoChunks()
    ensures Chunks(0) == 0
  {}

  lemma ChunksAre(n: nat)
    ensures Chunks(n) == (n + 1023) / 1024
  {}

  lemma MoreChunks(i: nat, j: nat)
    requires i <= j
    ensures Chunks(i) <= Chunks(j)
  {}

  /** A dimension with at least one row. */
  method WalkRow(out: OutputBuffer, opts: Opts, depth: nat, a: NdArray, dim: nat, p: int)
    returns (ok: bool, ghost visited: seq<int>)
    requires out.Valid() && Readable(a, dim, p) && dim < |a.shape| && a.shape[dim] > 0
    modifies out.Repr
    ensures out.Valid() && fresh(out.Repr - old(out.Repr))
    ensures ok <==> Tree(a, opts, dim, p).Some?
    ensures ok ==> out.Contents() == old(out.Contents()) + Write(Tree(a, opts, dim, p).value, opts.indent2, depth + dim)
    ensures old(out.Contents()) <= out.Contents()
    ensures visited <= Offsets(a, dim, p) && (ok ==> visited == Offsets(a, dim, p))
    ensures Compact(a, opts, dim) ==> out.moves <= old(out.moves) + 1 + (a.shape[dim] + 1023) / 1024
    decreases |a.shape| - dim, 3
  {
    hide Readable, Write, WriteItems, Offsets, Done, Tree, Rows, Break, Chunks;
    ItemDims(a, dim, p);
    ghost var start, items := out.Contents(), [];
    out.Push(LBRACKET);
    ok, items, visited := WalkRows(out, opts, depth, a, dim, p);
    if !ok {
      return;
    }
    DoneEnd(a, opts, dim, p, items, visited);
    DoneNonEmpty(a, opts, dim, p, items, visited);
    ArrayText(start, items, opts.indent2, depth + dim);
    CloseRow(out, opts.indent2, depth + dim);
  }

  method CloseRow(out: OutputBuffer, ind: bool, level: nat)
    requires out.Valid()
    modifies out.Repr
    ensures out.Valid() && fresh(out.Repr - old(out.Repr))
    ensures out.Contents() == old(out.Contents()) + Break(ind, level) + [RBRACKET]
    ensures !ind ==> out.Kept(old(out.mem), old(out.moves)) && out.len == old(out.len) + 1
  {
    hide Spaces;
    if ind {
      NewlineIndent(out, level);
    } else {
      NoBreak(out.Contents(), level);
    }
    out.Push(RBRACKET);
  }

  lemma DoneNonEmpty(a: NdArray, opts: Opts, dim: nat, p: int, items: seq<Json>, visited: seq<int>)
    requires Readable(a, dim, p) && dim < |a.shape| && a.shape[dim] > 0
    requires Done(a, opts, dim, p, a.shape[dim], items, visited)
    ensures items != []
  {}

  // ---- the whole array ---------------------------------------------------------------------

  /**
   * Writes the array, or declines it; a declined array leaves the text as it was before,
   * however deep and however late the declined element is.
   */
  method SerializeArray(out: OutputBuffer, opts: Opts, depth: nat, a: NdArray) returns (ok: bool)
    requires out.Valid() && Readable(a, 0, a.base) && |a.shape| > 0
    modifies out.Repr
    ensures out.Valid() && fresh(out.Repr - old(out.Repr))
    ensures ok <==> Tree(a, opts, 0, a.base).Some?
    ensures ok ==> out.Contents() == old(out.Contents()) + Write(Tree(a, opts, 0, a.base).value, opts.indent2, depth)
    ensures !ok ==> out.Contents() == old(out.Contents())
  {
    hide InBounds, Write, Tree, Offsets;
    ghost var text := out.Contents();
    var start := out.len;
    ghost var visited;
    ok, visited := Walk(out, opts, depth, a, 0, a.base);
    if !ok {
      out.SetLen(start);
    }
  }

  // ---- C-contiguous arrays -----------------------------------------------------------------

  function Product(shape: seq<nat>, dim: nat): nat
    requires dim <= |shape|
    decreases |shape| - dim
  {
    if dim == |shape| then 1 else shape[dim] * Product(shape, dim + 1)
  }

  /** numpy's C-contiguity: a stride is only fixed where a dimension has more than one entry and nothing is empty. */
  ghost predicate CContiguous(a: NdArray, itemsize: int) {
    && |a.shape| == |a.strides|
    && (0 in a.shape || forall d | 0 <= d < |a.shape| ::
          a.shape[d] != 1 ==> a.strides[d] == itemsize * Product(a.shape, d + 1))
  }

  lemma StepsConcat(p: int, m: nat, n: nat, s: int)
    ensures Steps(p, m, s) + Steps(p + m * s, n, s) == Steps(p, m + n, s)
  {
    if n > 0 {
      StepsConcat(p, m, n - 1, s);
      assert p + m * s + (n - 1) * s == p + (m + n - 1) * s;
      assert Steps(p, m, s) + (Steps(p + m * s, n - 1, s) + [p + m * s + (n - 1) * s])
          == (Steps(p, m, s) + Steps(p + m * s, n - 1, s)) + [p + m * s + (n - 1) * s];
    }
  }

  lemma {:induction false} ContiguousFrom(a: NdArray, itemsize: int, dim: nat, p: int)
    requires CContiguous(a, itemsize) && dim <= |a.shape| && 0 !in a.shape
    ensures Offsets(a, dim, p) == Steps(p, Product(a.shape, dim), itemsize)
    decreases |a.shape| - dim, 0, 0
  {
    hide CContiguous;
    ContiguousShape(a, itemsize);
    if dim == |a.shape| {
      assert Steps(p, 0, itemsize) == [];
    } else {
      ContiguousRow(a, itemsize, dim, p, 0);
      assert Left(a.shape, dim, 0) == Product(a.shape, dim);
    }
  }

  lemma ContiguousShape(a: NdArray, itemsize: int)
    requires CContiguous(a, itemsize)
    ensures |a.shape| == |a.strides|
  {}

  /** The elements of a dimension from index `i` on. */
  function Left(shape: seq<nat>, dim: nat, i: nat): nat
    requires dim < |shape| && i <= shape[dim]
  {
    (shape[dim] - i) * Product(shape, dim + 1)
  }

  lemma {:induction false} ContiguousRow(a: NdArray, itemsize: int, dim: nat, p: int, i: nat)
    requires CContiguous(a, itemsize) && dim < |a.shape| == |a.strides| && i <= a.shape[dim] && 0 !in a.shape
    ensures RowOffsets(a, dim, p, i) == Steps(p + i * Product(a.shape, dim + 1) * itemsize, Left(a.shape, dim, i), itemsize)
    decreases |a.shape| - dim - 1, 1, a.shape[dim] - i
  {
    hide Offsets, Steps, Product, CContiguous;
    var n, m := a.shape[dim], Product(a.shape, dim + 1);
    if i == n {
      NoSteps(p + i * m * itemsize, Left(a.shape, dim, i), itemsize);
    } else {
      var q := p + i * a.strides[dim];
      assert i * a.strides[dim] == i * m * itemsize by { StrideMeans(a, itemsize, dim, i); }
      ContiguousFrom(a, itemsize, dim + 1, q);
      ContiguousRow(a, itemsize, dim, p, i + 1);
      Distribute(i, n, m, itemsize);
      StepsConcat(q, m, Left(a.shape, dim, i + 1), itemsize);
    }
  }

  lemma NoSteps(p: int, n: nat, s: int)
    requires n == 0
    ensures Steps(p, n, s) == []
  {}

  lemma Distribute(i: nat, n: nat, m: nat, s: int)
    requires i < n
    ensures i * m * s + m * s == (i + 1) * m * s
    ensures m + (n - (i + 1)) * m == (n - i) * m
  {}

  lemma StrideMeans(a: NdArray, itemsize: int, dim: nat, i: nat)
    requires CContiguous(a, itemsize) && dim < |a.shape| && i < a.shape[dim] && 0 !in a.shape
    ensures i * a.strides[dim] == i * Product(a.shape, dim + 1) * itemsize
  {
    hide Product;
    var m := Product(a.shape, dim + 1);
    if a.shape[dim] == 1 {
      assert i == 0;
    } else {
      assert a.strides[dim] == itemsize * m;
      Reorder(i, itemsize, m);
    }
  }

  lemma Reorder(i: int, s: int, m: int)
    ensures i * (s * m) == i * m * s
  {
    assert i * (s * m) == (i * m) * s;
  }

  /** Where a dimension is empty, no element lies below. */
  lemma {:induction false} EmptyFrom(a: NdArray, dim: nat, p: int, z: nat)
    requires |a.shape| == |a.strides| && dim <= z < |a.shape| && a.shape[z] == 0
    ensures Offsets(a, dim, p) == []
    decreases |a.shape| - dim, 0, 0
  {
    if dim < z {
      EmptyRow(a, dim, p, z, 0);
    }
  }

  lemma {:induction false} EmptyRow(a: NdArray, dim: nat, p: int, z: nat, i: nat)
    requires |a.shape| == |a.strides| && dim < z < |a.shape| && a.shape[z] == 0 && i <= a.shape[dim]
    ensures RowOffsets(a, dim, p, i) == []
    decreases |a.shape| - dim - 1, 1, a.shape[dim] - i
  {
    if i < a.shape[dim] {
      EmptyFrom(a, dim + 1, p + i * a.strides[dim], z);
      EmptyRow(a, dim, p, z, i + 1);
    }
  }

  /**
   * In a C-contiguous array of any shape the elements are read at offsets 0, itemsize,
   * 2 * itemsize and so on, exactly once each and in order; none if a dimension is empty.
   */
  lemma ContiguousOffsets(a: NdArray, itemsize: int)
    requires CContiguous(a, itemsize)
    ensures Offsets(a, 0, a.base) == Steps(a.base, Product(a.shape, 0), itemsize)
  {
    if 0 in a.shape {
      var z :| 0 <= z < |a.shape| && a.shape[z] == 0;
      EmptyFrom(a, 0, a.base, z);
      EmptyProduct(a.shape, 0, z);
    } else {
      ContiguousFrom(a, itemsize, 0, a.base);
    }
  }

  lemma {:induction false} EmptyProduct(shape: seq<nat>, dim: nat, z: nat)
    requires dim <= z < |shape| && shape[z] == 0
    ensures Product(shape, dim) == 0
    decreases z - dim
  {
    if dim < z { EmptyProduct(shape, dim + 1, z); }
  }
}
