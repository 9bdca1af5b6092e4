/** Big-endian integers over byte windows and the read cursor that every decoder advances
    (the `bytes::Bytes` buffer with its `get_*`, `advance`, `slice` and `copy_to_slice`). */
module Bytes {
  import opened Common

  function Pow256(k: nat): (p: nat)
    ensures p >= 1
  {
    if k == 0 then 1 else 256 * Pow256(k - 1)
  }

  /** Powers of 256 add their exponents when multiplied. */
  lemma {:induction false} Pow256Add(a: nat, b: nat)
    ensures Pow256(a + b) == Pow256(a) * Pow256(b)
  {
    if a > 0 {
      Pow256Add(a - 1, b);
      assert Pow256(a + b) == 256 * Pow256(a - 1 + b);
    }
  }

  /** The unsigned value of `s` read most significant byte first (`get_u16`, `get_u32`, ...). */
  function BE(s: seq<byte>): (n: nat)
    ensures n < Pow256(|s|)
  {
    if s == [] then 0
    else
      var prefix := BE(s[..|s| - 1]);
      assert prefix * 256 + s[|s| - 1] <= (Pow256(|s| - 1) - 1) * 256 + 255;
      prefix * 256 + s[|s| - 1]
  }

  /** Truncating a big-endian value to `u8` keeps its last byte. */
  lemma BELowByte(s: seq<byte>)
    requires |s| >= 1
    ensures BE(s) % 256 == s[|s| - 1]
  {
  }

  /** Two's complement reading of a `width`-byte unsigned value (`get_i8`, `get_i32`). */
  function Signed(x: nat, width: nat): (v: int)
    requires 1 <= width && x < Pow256(width)
    ensures -128 * Pow256(width - 1) <= v < 128 * Pow256(width - 1)
    ensures v == x || v == x - Pow256(width)
    ensures v < 0 <==> x >= 128 * Pow256(width - 1)
  {
    if x < 128 * Pow256(width - 1) then x else x - Pow256(width)
  }

  /** A value that fits an `i32`. */
  predicate InI32(x: int) {
    -0x8000_0000 <= x < 0x8000_0000
  }

  /** `get_i32` of a four-byte window. */
  function I32(s: seq<byte>): (v: int)
    requires |s| == 4
    ensures InI32(v)
  {
    Signed(BE(s), 4)
  }

  /** `get_i8` of one byte. */
  function I8(b: byte): (v: int)
    ensures -128 <= v < 128
    ensures v < 0 <==> b >= 128
  {
    if b < 128 then b else b - 256
  }

  /** An `f32` kept as its raw 32-bit pattern: the validator's floating point checks are not modelled. */
  datatype Float32 = Float32(bits: nat)

  /** A pair of `f32` (position, velocity, stick coordinates). */
  datatype Vec2 = Vec2(x: Float32, y: Float32)

  /** The `f32` stored at offset `at` of `w`. */
  function F32At(w: seq<byte>, at: nat): Float32
    requires at + 4 <= |w|
  {
    Float32(BE(w[at..at + 4]))
  }

  /** The big-endian unsigned value of the `width` bytes at offset `at` of `w`. */
  function UIntAt(w: seq<byte>, at: nat, width: nat): nat
    requires at + width <= |w|
  {
    BE(w[at..at + width])
  }

  /** A read cursor over an immutable buffer: `data` is the buffer, `pos` how much of it has been consumed
      (`Bytes::len()` is `|data| - pos`). Every read fails with `Underflow` when too few bytes remain,
      where the original panics. */
  class Stream {
    const data: seq<byte>
    var pos: nat

    ghost predicate Valid()
      reads this
    {
      pos <= |data|
    }

    /** `Bytes::remaining()` */
    function Remaining(): (n: nat)
      reads this
      requires Valid()
      ensures pos + n == |data|
    {
      |data| - pos
    }

    constructor (bytes: seq<byte>)
      ensures Valid() && data == bytes && pos == 0
    {
      data := bytes;
      pos := 0;
    }

    /** `get_u8`: the next byte. */
    method GetU8() returns (r: Result<byte>)
      requires Valid()
      modifies this
      ensures Valid()
      ensures old(pos) < |data| ==> r == Ok(data[old(pos)]) && pos == old(pos) + 1
      ensures old(pos) >= |data| ==> r == Err(Underflow) && pos == old(pos)
    {
      if pos >= |data| {
        return Err(Underflow);
      }
      r := Ok(data[pos]);
      pos := pos + 1;
    }

    /** `get_u16`, `get_u32`: `width` bytes, big-endian. */
    method GetUInt(width: nat) returns (r: Result<nat>)
      requires Valid()
      modifies this
      ensures Valid()
      ensures old(pos) + width <= |data| ==>
        r == Ok(UIntAt(data, old(pos), width)) && pos == old(pos) + width
      ensures old(pos) + width > |data| ==> r == Err(Underflow) && pos == old(pos)
    {
      if pos + width > |data| {
        return Err(Underflow);
      }
      r := Ok(UIntAt(data, pos, width));
      pos := pos + width;
    }

    /** `get_i32`: four bytes, big-endian, two's complement. */
    method GetI32() returns (r: Result<int>)
      requires Valid()
      modifies this
      ensures Valid()
      ensures old(pos) + 4 <= |data| ==> r == Ok(I32(data[old(pos)..old(pos) + 4])) && pos == old(pos) + 4
      ensures old(pos) + 4 > |data| ==> r == Err(Underflow) && pos == old(pos)
    {
      if pos + 4 > |data| {
        return Err(Underflow);
      }
      r := Ok(I32(data[pos..pos + 4]));
      pos := pos + 4;
    }

    /** `get_i8`: the next byte, two's complement. */
    method GetI8() returns (r: Result<int>)
      requires Valid()
      modifies this
      ensures Valid()
      ensures old(pos) < |data| ==> r == Ok(I8(data[old(pos)])) && pos == old(pos) + 1
      ensures old(pos) >= |data| ==> r == Err(Underflow) && pos == old(pos)
    {
      if pos >= |data| {
        return Err(Underflow);
      }
      r := Ok(I8(data[pos]));
      pos := pos + 1;
    }

    /** `get_f32`: four bytes kept as a raw word. */
    method GetF32() returns (r: Result<Float32>)
      requires Valid()
      modifies this
      ensures Valid()
      ensures old(pos) + 4 <= |data| ==>
        r == Ok(F32At(data, old(pos))) && pos == old(pos) + 4
      ensures old(pos) + 4 > |data| ==> r == Err(Underflow) && pos == old(pos)
    {
      if pos + 4 > |data| {
        return Err(Underflow);
      }
      r := Ok(F32At(data, pos));
      pos := pos + 4;
    }

    /** `copy_to_slice` into a buffer of `n` bytes: the next `n` bytes, consumed. */
    method Take(n: nat) returns (r: Result<seq<byte>>)
      requires Valid()
      modifies this
      ensures Valid()
      ensures old(pos) + n <= |data| ==> r == Ok(data[old(pos)..old(pos) + n]) && pos == old(pos) + n
      ensures old(pos) + n > |data| ==> r == Err(Underflow) && pos == old(pos)
    {
      if pos + n > |data| {
        return Err(Underflow);
      }
      r := Ok(data[pos..pos + n]);
      pos := pos + n;
    }

    /** `slice(..n)` and `get(0..n)`: the next `n` bytes, not consumed. */
    method Peek(n: nat) returns (r: Result<seq<byte>>)
      requires Valid()
      ensures pos + n <= |data| ==> r == Ok(data[pos..pos + n])
      ensures pos + n > |data| ==> r == Err(Underflow)
    {
      if pos + n > |data| {
        return Err(Underflow);
      }
      r := Ok(data[pos..pos + n]);
    }

    /** `advance(n)`: skips `n` bytes. */
    method Advance(n: nat) returns (r: Outcome)
      requires Valid()
      modifies this
      ensures Valid()
      ensures old(pos) + n <= |data| ==> r == Pass && pos == old(pos) + n
      ensures old(pos) + n > |data| ==> r == Fail(Underflow) && pos == old(pos)
    {
      if pos + n > |data| {
        return Fail(Underflow);
      }
      pos := pos + n;
      r := Pass;
    }
  }
}
