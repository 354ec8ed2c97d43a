/**
 * The output buffer (src/out.rs). Text is written through a raw pointer into one
 * block: first a Python `bytes` object, and a Rust vector ("spill") once a larger
 * `bytes` cannot be allocated. Allocation may fail at any call.
 */
module Out {
  import opened Common

  const MIN_CAP: nat := 64

  /** A new `bytes` object with arbitrary contents, or null when memory runs out. */
  method NewBytes(n: nat) returns (p: array?<byte>)
    ensures p != null ==> fresh(p) && p.Length == n
  {
    if * {
      p := null;
    } else {
      p := new byte[n];
    }
  }

  /** The block of a vector that holds at least `n` bytes; a vector may be given more than it asked for. */
  method NewVecBlock(n: nat) returns (v: array<byte>)
    ensures fresh(v) && v.Length >= n
  {
    var cap :| cap >= n;
    v := new byte[cap];
  }

  method CopyPrefix(src: array<byte>, dst: array<byte>, n: nat)
    requires n <= src.Length && n <= dst.Length && src != dst
    modifies dst
    ensures dst[..n] == src[..n]
  {
    forall k | 0 <= k < n {
      dst[k] := src[k];
    }
  }

  /** `s` lies behind `head`. */
  lemma Extended(block: seq<byte>, head: seq<byte>, s: seq<byte>)
    requires |head| + |s| <= |block|
    requires forall k | 0 <= k < |head| :: block[k] == head[k]
    requires forall k | 0 <= k < |s| :: block[|head| + k] == s[k]
    ensures block[..|head| + |s|] == head + s
  {}

  class OutputBuffer {
    /** The block `ptr` points into; its length is the capacity. */
    var mem: array<byte>
    /** `obj` is null: the block belongs to the vector. */
    var spilled: bool
    /** The length the vector itself records, which only `grow` brings up to date. */
    var spillLen: nat
    var len: nat
    /** How often the text has been moved to another block. */
    ghost var moves: nat
    /** The objects that make up the buffer: itself and its block. */
    ghost var Repr: set<object>

    ghost predicate Valid()
      reads this
      ensures Valid() ==> this in Repr && mem in Repr
    {
      && Repr == {this, mem}
      && len <= mem.Length
      && (spilled ==> spillLen <= mem.Length)
    }

    /** The text written so far. */
    ghost function Contents(): seq<byte>
      requires Valid()
      reads this, mem
    {
      mem[..len]
    }

    /** The text is where it was, in `block`, unless it no longer fits there. */
    ghost predicate Kept(block: array<byte>, count: nat)
      reads this
    {
      len <= block.Length ==> mem == block && moves == count
    }

    constructor FromBlock(block: array<byte>)
      ensures Valid() && Contents() == [] && mem == block && !spilled
    {
      mem, spilled, spillLen, len, moves := block, false, 0, 0, 0;
      Repr := {this, block};
    }

    /** Null, with nothing kept, if the first allocation fails. */
    static method Create(hint: nat) returns (out: OutputBuffer?)
      ensures out != null ==> out.Valid() && fresh(out.Repr) && out.Contents() == []
      ensures out != null ==> out.mem.Length >= 64 && out.mem.Length >= hint
    {
      var wanted := hint + hint / 8;
      var cap := if wanted < MIN_CAP then MIN_CAP else wanted;
      var block := NewBytes(cap);
      if block == null {
        return null;
      }
      out := new OutputBuffer.FromBlock(block);
    }

    /** Makes room for `n` more bytes without changing what was written. */
    method Reserve(n: nat)
      requires Valid()
      modifies this
      ensures Valid() && Contents() == old(Contents()) && len == old(len)
      ensures mem.Length - len >= n
      ensures old(mem.Length) - len >= n ==> mem == old(mem)
      ensures moves == old(moves) + if mem == old(mem) then 0 else 1
      ensures fresh(Repr - old(Repr))
    {
      if mem.Length - len < n {
        Grow(n);
      }
    }

    method Grow(n: nat)
      requires Valid() && mem.Length - len < n
      modifies this
      ensures Valid() && Contents() == old(Contents()) && len == old(len)
      ensures mem.Length - len >= n
      ensures mem.Length >= 2 * old(mem.Length)
      ensures moves == old(moves) + if mem == old(mem) then 0 else 1
      ensures fresh(Repr - old(Repr))
    {
      var want := if len + n < mem.Length * 2 then mem.Length * 2 else len + n;
      if !spilled {
        var bigger := NewBytes(want);
        if bigger != null {
          CopyPrefix(mem, bigger, len);
          mem, moves, Repr := bigger, moves + 1, {this, bigger};
          return;
        }
        var v := NewVecBlock(want);
        CopyPrefix(mem, v, len);
        mem, spilled, spillLen, moves, Repr := v, true, len, moves + 1, {this, v};
      } else {
        spillLen := len;
        VecReserve(want - len);
      }
    }

    /** The vector's own growth: it moves only the bytes it knows about. */
    method VecReserve(additional: nat)
      requires Valid() && spilled && spillLen == len
      modifies this
      ensures Valid() && spilled && Contents() == old(Contents()) && len == old(len)
      ensures mem.Length - len >= additional
      ensures old(mem.Length) - len >= additional ==> mem == old(mem)
      ensures moves == old(moves) + if mem == old(mem) then 0 else 1
      ensures fresh(Repr - old(Repr))
    {
      if mem.Length - spillLen < additional {
        var v := NewVecBlock(spillLen + additional);
        CopyPrefix(mem, v, spillLen);
        mem, moves, Repr := v, moves + 1, {this, v};
      }
    }

    /** Declares the first `n` bytes of the block written. */
    method SetLen(n: nat)
      requires Valid() && n <= mem.Length
      modifies this`len
      ensures Valid() && len == n && Contents() == mem[..n]
    {
      len := n;
    }

    method Push(b: byte)
      requires Valid()
      modifies Repr
      ensures Valid() && Contents() == old(Contents()) + [b]
      ensures Kept(old(mem), old(moves)) && moves <= old(moves) + 1
      ensures fresh(Repr - old(Repr))
    {
      Reserve(1);
      mem[len] := b;
      len := len + 1;
    }

    method ExtendFromSlice(s: seq<byte>)
      requires Valid()
      modifies Repr
      ensures Valid() && Contents() == old(Contents()) + s
      ensures Kept(old(mem), old(moves)) && moves <= old(moves) + 1
      ensures fresh(Repr - old(Repr))
    {
      Reserve(|s|);
      ghost var head := mem[..len];
      forall k | 0 <= k < |s| {
        mem[len + k] := s[k];
      }
      Extended(mem[..], head, s);
      assert mem[..][..len + |s|] == mem[..len + |s|];
      len := len + |s|;
    }

    /**
     * Hands over a `bytes` of exactly the text written, and the size hint for the
     * next call; null if its own allocation or shrink fails.
     */
    method Finish() returns (obj: array?<byte>, hint: nat)
      requires Valid()
      ensures hint == len
      ensures obj != null ==> obj[..] == Contents()
      ensures !spilled && len == mem.Length ==> obj == mem
    {
      hint := len;
      if !spilled && len == mem.Length {
        return mem, hint;
      }
      // A spilled text is copied into a new object; otherwise the object is resized.
      obj := NewBytes(len);
      if obj != null {
        CopyPrefix(mem, obj, len);
      }
    }
  }

  // ---- any history ---------------------------------------------------------

  datatype Op = Append(s: seq<byte>) | PushByte(b: byte) | Room(n: nat) | Truncate(n: nat)

  function Step(text: seq<byte>, op: Op): seq<byte> {
    match op
    case Append(s) => text + s
    case PushByte(b) => text + [b]
    case Room(_) => text
    case Truncate(n) => if n <= |text| then text[..n] else text
  }

  /** What a plain byte sequence holds after the operations. */
  function After(text: seq<byte>, ops: seq<Op>): seq<byte>
    decreases |ops|
  {
    if ops == [] then text else After(Step(text, ops[0]), ops[1..])
  }

  lemma {:induction false} AfterSnoc(text: seq<byte>, ops: seq<Op>, op: Op)
    ensures After(text, ops + [op]) == Step(After(text, ops), op)
    decreases |ops|
  {
    if ops != [] {
      assert (ops + [op])[1..] == ops[1..] + [op];
      AfterSnoc(Step(text, ops[0]), ops[1..], op);
    } else {
      assert (ops + [op])[1..] == [];
    }
  }

  method Perform(out: OutputBuffer, op: Op)
    requires out.Valid()
    modifies out.Repr
    ensures out.Valid() && out.Contents() == Step(old(out.Contents()), op)
    ensures fresh(out.Repr - old(out.Repr))
  {
    match op
    case Append(s) => out.ExtendFromSlice(s);
    case PushByte(b) => out.Push(b);
    case Room(n) => out.Reserve(n);
    case Truncate(n) =>
      if n <= out.len {
        out.SetLen(n);
      }
  }

  /**
   * The buffer refines a byte sequence over every history of operations, whatever
   * allocations fail on the way; what is handed over at the end is that sequence.
   */
  method Replay(hint: nat, ops: seq<Op>) returns (started: bool, result: array?<byte>)
    ensures result != null ==> started && result[..] == After([], ops)
  {
    result := null;
    var out := OutputBuffer.Create(hint);
    started := out != null;
    if out == null {
      return;
    }
    for i := 0 to |ops|
      invariant out.Valid() && fresh(out.Repr)
      invariant out.Contents() == After([], ops[..i])
    {
      Perform(out, ops[i]);
      AfterSnoc([], ops[..i], ops[i]);
      assert ops[..i + 1] == ops[..i] + [ops[i]];
    }
    assert ops[..|ops|] == ops;
    var bytes, _ := out.Finish();
    result := bytes;
  }
}
