/** The byte ring of `lzss/src/ring_buffer.rs`. */
module RingBuffers {
  import opened IntegerCodes
  import opened Arithmetic

  class RingBuffer {
    const buffer: array<Byte>
    var offset: nat

    ghost predicate Valid()
      reads this
    {
      offset < buffer.Length
    }

    /** The bytes, oldest first. */
    ghost function Contents(): (s: seq<Byte>)
      reads this, buffer
      requires Valid()
      ensures |s| == buffer.Length
    {
      buffer[offset..] + buffer[..offset]
    }

    constructor (size: nat)
      requires size > 0
      ensures Valid() && fresh(buffer) && buffer.Length == size
      ensures Contents() == seq(size, _ => 0)
    {
      buffer := new Byte[size](_ => 0);
      offset := 0;
    }

    // A position relative to the oldest byte, wrapping around.
    function Index(index: nat): nat
      reads this
      requires Valid()
    {
      Wrap(offset + index, buffer.Length)
    }

    /** Drops the oldest byte and appends `byte`. */
    method Push(byte: Byte)
      requires Valid()
      modifies this, buffer
      ensures Valid()
      ensures Contents() == old(Contents())[1..] + [byte]
    {
      ghost var before := buffer[..];
      buffer[offset] := byte;
      assert buffer[..] == before[offset := byte];
      WrapIs(offset + 1, buffer.Length, if offset + 1 == buffer.Length then 1 else 0,
             if offset + 1 == buffer.Length then 0 else offset + 1);
      offset := Index(1);
    }

    /** The byte at a position relative to the oldest one, modulo the size. */
    method Get(index: nat) returns (byte: Byte)
      requires Valid()
      ensures byte == Contents()[Wrap(index, buffer.Length)]
    {
      byte := buffer[Index(index)];
      IndexWraps(offset, index, buffer.Length);
    }
  }

  // A position in a ring.
  function Wrap(x: nat, n: nat): (r: nat)
    requires n > 0
    ensures r < n
  {
    x % n
  }

  lemma {:induction false} WrapIs(x: nat, n: nat, q: nat, r: nat)
    requires x == q * n + r && r < n
    ensures Wrap(x, n) == r
  {
    QuotientIs(x, n, q, r);
  }

  lemma {:induction false} IndexWraps(offset: nat, index: nat, n: nat)
    requires offset < n
    ensures var r := Wrap(index, n); Wrap(offset + index, n) == if offset + r < n then offset + r else offset + r - n
  {
    var q, r := index / n, index % n;
    assert index == q * n + r;
    var i := if offset + r < n then offset + r else offset + r - n;
    if offset + r < n {
      QuotientIs(offset + index, n, q, i);
    } else {
      Distribute(q, 1, n);
      QuotientIs(offset + index, n, q + 1, i);
    }
  }
}
