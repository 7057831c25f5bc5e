/** The compression iterator of `lzss/src/compress.rs`: a lookahead kept in the same ring buffer as
    the window, and an exhaustive match search, refining the greedy tokens of module `Lzss`. */
module IteratorCompressors {
  import opened Options
  import opened IntegerCodes
  import opened RingBuffers
  import opened Lzss

  class IteratorCompressor {
    const window: nat
    const buffer: RingBuffer
    var input: seq<Byte>
    var ahead: nat
    var pending: Option<Byte>
    // The window's initial zeros and the whole input, and the position of the next byte in it.
    ghost const text: seq<Byte>
    ghost var p: nat

    /** The ring holds the last bytes read from the input: the window and the lookahead. */
    ghost predicate Valid()
      reads this, buffer, buffer.buffer
    {
      && buffer.Valid() && buffer.buffer.Length == window + MAX_LENGTH
      && window <= MAX_WINDOW_SIZE
      && ahead <= MAX_LENGTH
      && window <= p <= p + ahead <= |text|
      && input == text[p + ahead..]
      && buffer.Contents() == Held(text, p + ahead, window + MAX_LENGTH)
    }

    /** The bytes still to come. */
    ghost function Rest(): seq<Byte>
      reads this, buffer, buffer.buffer
      requires Valid()
    {
      (if pending.Some? then [pending.value] else []) + Compress(text, p, window)
    }

    constructor (window: nat, input: seq<Byte>)
      requires window <= MAX_WINDOW_SIZE
      ensures Valid() && fresh(buffer) && fresh(buffer.buffer)
      ensures this.window == window && text == Zeros(window) + input && p == window && ahead == 0
      ensures Rest() == CompressZeros(input, window)
    {
      this.window := window;
      buffer := new RingBuffer(window + MAX_LENGTH);
      this.input := input;
      ahead := 0;
      pending := None;
      text := Zeros(window) + input;
      p := window;
    }

    /** Takes the next byte, from the lookahead if there is one. */
    method NextByte() returns (r: Option<Byte>)
      requires Valid()
      modifies this, buffer, buffer.buffer
      ensures Valid() && pending == old(pending)
      ensures r == if old(p) == |text| then None else Some(text[old(p)])
      ensures p == if old(p) == |text| then old(p) else old(p) + 1
    {
      hide Wrap, Held;
      if ahead > 0 {
        var x := buffer.Get(window + MAX_LENGTH - ahead);
        WrapIs(window + MAX_LENGTH - ahead, window + MAX_LENGTH, 0, window + MAX_LENGTH - ahead);
        HeldAt(text, p + ahead, window + MAX_LENGTH, window + MAX_LENGTH - ahead);
        ahead := ahead - 1;
        p := p + 1;
        r := Some(x);
      } else if input != [] {
        var x := Pull();
        ahead := ahead - 1;
        p := p + 1;
        r := Some(x);
      } else {
        r := None;
      }
    }

    // Moves one byte from the input to the lookahead.
    method Pull() returns (x: Byte)
      requires Valid() && input != [] && ahead < MAX_LENGTH
      modifies this, buffer, buffer.buffer
      ensures Valid() && pending == old(pending) && p == old(p)
      ensures ahead == old(ahead) + 1 && x == text[p + old(ahead)]
    {
      x := input[0];
      HeldPush(text, p + ahead, window + MAX_LENGTH);
      input := input[1..];
      buffer.Push(x);
      ahead := ahead + 1;
    }

    /** The byte `index` after the next one, reading the input as far as needed. */
    method Peek(index: nat) returns (r: Option<Byte>)
      requires Valid() && index < MAX_LENGTH
      modifies this, buffer, buffer.buffer
      ensures Valid() && pending == old(pending) && p == old(p)
      ensures r == if p + index < |text| then Some(text[p + index]) else None
      ensures old(ahead) <= ahead && (index < ahead || ahead == |text| - p <= index)
    {
      hide Wrap, Held;
      if index < ahead {
        var x := buffer.Get(window + MAX_LENGTH - ahead + index);
        var k := window + MAX_LENGTH - ahead + index;
        WrapIs(k, window + MAX_LENGTH, 0, k);
        HeldAt(text, p + ahead, window + MAX_LENGTH, k);
        r := Some(x);
      } else {
        var x: Byte := 0;
        var n: nat := index + 1 - ahead;
        while n > 0
          invariant Valid() && pending == old(pending) && p == old(p)
          invariant n == index + 1 - ahead && old(ahead) <= index
          invariant ahead == old(ahead) || (0 < ahead && x == text[p + ahead - 1])
        {
          if input == [] {
            return None;
          }
          x := Pull();
          n := n - 1;
        }
        r := Some(x);
      }
    }

    /** The byte `j` after the one `i + 1` bytes ago. */
    method Behind(i: nat, j: nat) returns (y: Byte)
      requires Valid() && i < window && j <= ahead
      ensures y == text[p - 1 - i + j]
    {
      hide Wrap, Held;
      var size := window + MAX_LENGTH;
      y := buffer.Get(2 * size - ahead - 1 - i + j);
      WrapIs(2 * size - ahead - 1 - i + j, size, 1, size - ahead - 1 - i + j);
      HeldAt(text, p + ahead, size, size - ahead - 1 - i + j);
    }

    /** The length of the longest match at an offset. */
    method MatchAt(i: nat) returns (j: nat)
      requires Valid() && i < window
      modifies this, buffer, buffer.buffer
      ensures Valid() && pending == old(pending) && p == old(p)
      ensures j == MatchLength(text, p, i) && j <= ahead && old(ahead) <= ahead
    {
      hide Held, MatchFrom;
      j := 0;
      while j < MAX_LENGTH
        invariant Valid() && pending == old(pending) && p == old(p)
        invariant j <= MAX_LENGTH && p + j <= |text|
        invariant MatchLength(text, p, i) == MatchFrom(text, p, i, j)
        invariant j <= ahead && old(ahead) <= ahead
      {
        var x := Peek(j);
        MatchFromStep(text, p, i, j);
        var y := Behind(i, j);
        if x != Some(y) {
          return;
        }
        j := j + 1;
      }
    }

    /** The longest match, the nearest one where there are several: the search goes from the farthest
        offset to the nearest and keeps the last maximum. */
    method FindMatch() returns (m: Match)
      requires Valid()
      modifies this, buffer, buffer.buffer
      ensures Valid() && pending == old(pending) && p == old(p)
      ensures m == Best(text, p, window)
      ensures m.length <= ahead
    {
      m := Match(0, 0);
      var i := window;
      while i > 0
        invariant Valid() && pending == old(pending) && p == old(p)
        invariant 0 <= i <= window
        invariant i == window ==> m == Match(0, 0)
        invariant i < window ==> i <= m.offset < window && m.length == MatchLength(text, p, m.offset)
        invariant forall k :: i <= k < window ==>
          MatchLength(text, p, k) <= m.length && (k < m.offset ==> MatchLength(text, p, k) < m.length)
        invariant m.length <= ahead
      {
        i := i - 1;
        var j := MatchAt(i);
        if j >= m.length {
          m := Match(i, j);
        }
      }
      BestIsUnique(text, p, window, m);
    }

    /** One call of the iterator yields the next byte of the compressed text. */
    method Next() returns (r: Option<Byte>)
      requires Valid()
      modifies this, buffer, buffer.buffer
      ensures Valid()
      ensures old(Rest()) == (if r.Some? then [r.value] else []) + Rest()
      ensures r.None? ==> Rest() == []
    {
      hide Compress, Best, Zeros, Held;
      if pending.Some? {
        r := pending;
        pending := None;
      } else {
        var m := FindMatch();
        CompressStep(text, p, window);
        if m.length > MIN_LENGTH {
          ahead := ahead - m.length;
          p := p + m.length;
          pending := Some(m.offset);
          r := Some(2 * (m.length - 1) + 1);
        } else {
          var x := NextByte();
          if x.None? {
            return None;
          }
          r := Some(Literal(x.value));
        }
      }
    }
  }

  /** The last `size` of the bytes read, the ring's initial zeros included. */
  ghost function Held(text: seq<Byte>, end: nat, size: nat): (s: seq<Byte>)
    requires end <= |text| && MAX_LENGTH <= size <= end + MAX_LENGTH
    ensures |s| == size
  {
    (Zeros(MAX_LENGTH) + text[..end])[end + MAX_LENGTH - size..]
  }

  lemma {:induction false} HeldAt(text: seq<Byte>, end: nat, size: nat, k: nat)
    requires end <= |text| && MAX_LENGTH <= size <= end + MAX_LENGTH && k < size
    requires end - size + k >= 0
    ensures Held(text, end, size)[k] == text[end - size + k]
  {
  }

  lemma {:induction false} HeldPush(text: seq<Byte>, end: nat, size: nat)
    requires end < |text| && MAX_LENGTH <= size <= end + MAX_LENGTH
    ensures Held(text, end, size)[1..] + [text[end]] == Held(text, end + 1, size)
  {
    assert text[..end + 1] == text[..end] + [text[end]];
  }
}
