/** The decompression iterator of `lzss/src/decompress.rs`, a ring buffer refining the machine of
    module `Lzss`. */
module Decompressors {
  import opened IntegerCodes
  import opened RingBuffers
  import opened Lzss

  /** What `next` hands back; going back further than the window is an index underflow. */
  datatype Item = Yielded(byte: Byte) | Exhausted | OutOfWindow

  class Decompressor {
    const window: nat
    const buffer: RingBuffer
    var input: seq<Byte>
    var offset: Byte
    var length: nat
    // Everything the buffer has ever held, its initial zeros included.
    ghost var history: seq<Byte>

    ghost predicate Valid()
      reads this, buffer, buffer.buffer
    {
      && buffer.Valid()
      && buffer.buffer.Length == window
      && window <= |history|
      && buffer.Contents() == history[|history| - window..]
    }

    ghost function State(): Decoder
      reads this
    {
      Decoder(input, history, offset, length)
    }

    constructor (window: nat, input: seq<Byte>)
      requires window > 0
      ensures Valid() && fresh(buffer) && fresh(buffer.buffer)
      ensures this.window == window && State() == Start(input, window)
    {
      this.window := window;
      buffer := new RingBuffer(window);
      this.input := input;
      offset := 0;
      length := 0;
      history := Zeros(window);
    }

    /** One call of the iterator is one step of the machine. */
    method Next() returns (item: Item)
      requires Valid()
      modifies this, buffer, buffer.buffer
      ensures Valid()
      ensures match Lzss.Next(old(State()), window)
              case Output(byte, decoder) => item == Yielded(byte) && State() == decoder
              case End(decoder) => item == Exhausted && State() == decoder
              case Underflow => item.OutOfWindow?
    {
      if length > 0 {
        item := CopyByte();
      } else if input == [] {
        item := Exhausted;
      } else {
        var x := input[0];
        input := input[1..];
        if x % 2 == 0 {
          PushByte(x / 2);
          item := Yielded(x / 2);
        } else {
          length := x / 2 + 1;
          if input == [] {
            item := Exhausted;
          } else {
            offset := input[0];
            input := input[1..];
            item := CopyByte();
          }
        }
      }
    }

    method PushByte(x: Byte)
      requires Valid()
      modifies this, buffer, buffer.buffer
      ensures Valid()
      ensures State() == old(Write(State(), x))
    {
      buffer.Push(x);
      history := history + [x];
      assert old(history)[|old(history)| - window..][1..] + [x] == history[|history| - window..];
    }

    method CopyByte() returns (item: Item)
      requires Valid() && length > 0
      modifies this, buffer, buffer.buffer
      ensures Valid()
      ensures match Copy(old(State()), window)
              case Output(byte, decoder) => item == Yielded(byte) && State() == decoder
              case End(decoder) => false
              case Underflow => item.OutOfWindow?
    {
      hide Wrap;
      if offset >= window {
        return OutOfWindow;
      }
      var x := buffer.Get(window - 1 - offset);
      WrapIs(window - 1 - offset, window, 0, window - 1 - offset);
      assert x == history[|history| - 1 - offset];
      PushByte(x);
      length := length - 1;
      item := Yielded(x);
    }

    /** Reading up to the first end collects the whole output of the machine. */
    method Collect() returns (bytes: seq<Byte>)
      requires Valid()
      modifies this, buffer, buffer.buffer
      ensures bytes == Decompress(old(State()), window)
    {
      hide Decompress, Copy;
      bytes := [];
      ghost var start := State();
      DecompressStep(start, window);
      var item := Next();
      while item.Yielded?
        invariant Valid()
        invariant !item.Yielded? ==> Decompress(start, window) == bytes
        invariant item.Yielded? ==> Decompress(start, window) == bytes + [item.byte] + Decompress(State(), window)
        decreases item.Yielded?, |input|, length
      {
        bytes := bytes + [item.byte];
        DecompressStep(State(), window);
        item := Next();
      }
    }
  }
}
