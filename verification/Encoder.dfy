/** The encoder of `compile.scm` as it runs: a context whose dictionary and counts change, writing bytes to
    the compressor. */
module Encoders {
  import opened IntegerCodes
  import opened RibGraphs
  import opened RibTokens
  import opened Encoding
  import Counting
  import Lzss
  import ListCompressors

  class EncodeContext {
    const compressor: ListCompressors.ListCompressor
    var dictionary: seq<nat>
    var counts: map<nat, int>
    const nil: nat

    constructor (nil: nat)
      ensures fresh(compressor) && compressor.Ready() && compressor.text == [] && compressor.output == []
      ensures dictionary == [] && counts == map[] && this.nil == nil
    {
      compressor := new ListCompressors.ListCompressor();
      dictionary := [];
      counts := map[];
      this.nil := nil;
    }

    ghost function State(): Context
      reads this
    {
      Context(dictionary, counts)
    }

    // ----- counting -----

    method IncrementCount(id: nat)
      modifies this`counts
      ensures counts == Counting.Increment(old(counts), id)
    {
      if id in counts {
        counts := counts[id := counts[id] + 1];
      } else {
        counts := counts[id := 1];
      }
    }

    method CountData(g: Graph, r: Ref)
      requires Acyclic(g) && NopsLeadToRibs(g) && Below(r, |g|)
      modifies this`counts
      ensures counts == Counting.CountData(g, r, nil, old(counts))
      decreases (if r.Rib? then r.id + 1 else 0), 0
    {
      if r.Rib? {
        var node := g[r.id];
        var shared := Counting.IsSharedTag(node.tag);
        if !(shared && r.id in counts) {
          if node.tag == Counting.PROCEDURE_TAG {
            CountCode(g, node.car);
          } else {
            CountData(g, node.car);
          }
          CountData(g, node.cdr);
        }
        if shared {
          IncrementCount(r.id);
        }
      }
    }

    method CountCode(g: Graph, r: Ref)
      requires Acyclic(g) && NopsLeadToRibs(g) && Below(r, |g|)
      modifies this`counts
      ensures counts == Counting.CountCode(g, r, nil, old(counts))
      decreases (if r.Rib? then r.id + 1 else 0), 1
    {
      if r.Rib? {
        if r.id == nil {
          CountData(g, r);
        } else if IsNop(g, r) {
          var codes := Strip(g, r);
          var counted := codes.id in counts;
          IncrementCount(codes.id);
          if !counted {
            CountCode(g, codes);
          }
        } else {
          var node := g[r.id];
          if node.tag == Counting.IF_TAG {
            CountCode(g, node.car);
          } else {
            CountData(g, node.car);
          }
          CountCode(g, node.cdr);
        }
      }
    }

    // ----- writing -----

    method WriteIntegerTail(integer: nat)
      requires compressor.Ready()
      modifies compressor
      ensures compressor.Ready() && compressor.text == old(compressor.text) + Tail(integer)
    {
      hide ListCompressors.ListCompressor.Ready, IntegerPart;
      var x: nat := integer;
      while x != 0
        invariant compressor.Ready()
        invariant compressor.text + Tail(x) == old(compressor.text) + Tail(integer)
        decreases x
      {
        ghost var before := compressor.text;
        var part := IntegerPart(x, INTEGER_BASE, x / INTEGER_BASE == 0);
        compressor.Write(part);
        Shift(before, part, Tail(x / INTEGER_BASE));
        x := x / INTEGER_BASE;
      }
    }

    // The head byte of a token and the rest of its integer.
    method WriteInteger(head: Byte, rest: nat)
      requires compressor.Ready() && head < 128
      modifies compressor
      ensures compressor.Ready() && compressor.text == old(compressor.text) + ([head] + Tail(rest))
    {
      hide ListCompressors.ListCompressor.Ready, Tail;
      Shift(compressor.text, head, Tail(rest));
      compressor.Write(head);
      WriteIntegerTail(rest);
    }

    method WriteRefer(index: nat, keep: bool)
      requires compressor.Ready() && Writable(Refer(index, keep))
      modifies compressor
      ensures compressor.Ready() && compressor.text == old(compressor.text) + TokenBytes(Refer(index, keep))
    {
      hide Head, Tail, ListCompressors.ListCompressor.Ready;
      var x := ReferInteger(index, keep);
      WriteInteger(2 * (1 + Head(x, SHARE_BASE)), x / SHARE_BASE);
    }

    method WriteMake(tag: nat)
      requires compressor.Ready() && Writable(Make(tag))
      modifies compressor
      ensures compressor.Ready() && compressor.text == old(compressor.text) + TokenBytes(Make(tag))
    {
      WriteInteger(1 + 4 * Head(tag, TAG_BASE), tag / TAG_BASE);
    }

    method WriteNumber(n: int)
      requires compressor.Ready() && Writable(Push(n))
      modifies compressor
      ensures compressor.Ready() && compressor.text == old(compressor.text) + TokenBytes(Push(n))
    {
      var x := EncodeNumber(n);
      WriteInteger(3 + 4 * Head(x, NUMBER_BASE), x / NUMBER_BASE);
    }

    // ----- encoding -----

    /** Writes the bytes of a value's tokens and leaves the dictionary and the counts as `Encode` says. */
    method EncodeRib(g: Graph, r: Ref)
      requires Acyclic(g) && NopsLeadToRibs(g) && Below(r, |g|) && compressor.Ready()
      requires forall t <- Encode(g, r, State()).tokens :: Writable(t)
      modifies this`dictionary, this`counts, compressor
      ensures compressor.Ready() && State() == Encode(g, r, old(State())).context
      ensures compressor.text == old(compressor.text) + Bytes(Encode(g, r, old(State())).tokens)
      decreases if r.Rib? then r.id + 1 else 0
    {
      hide ListCompressors.ListCompressor.Ready, TokenBytes, Bytes, Encode, IndexOf, Use;
      ghost var c, text := State(), compressor.text;
      if r.Int? {
        EncodeNumberIsPush(g, r.n, c);
        OneToken(Push(r.n));
        WriteNumber(r.n);
      } else {
        var id := Strip(g, r).id;
        var entry := id in counts;
        if entry && id in dictionary {
          EncodeEntry(g, r, c);
          EncodeReference(id);
        } else {
          EncodeFields(g, r, c);
          ghost var car := Encode(g, g[id].car, c);
          ghost var cdr := Encode(g, g[id].cdr, car.context);
          FieldBytes(car.tokens, cdr.tokens, g[id].tag, entry, text);
          EncodeRib(g, g[id].car);
          EncodeRib(g, g[id].cdr);
          WriteMake(g[id].tag);
          if entry {
            dictionary := [id] + dictionary;
            counts := counts[id := counts[id] - 1];
            compressor.Write(0);
          }
        }
      }
    }

    method EncodeReference(id: nat)
      requires compressor.Ready() && id in counts && id in dictionary
      requires Writable(Refer(IndexOf(dictionary, id), Decrement(counts, id)[id] != 0))
      modifies this`dictionary, this`counts, compressor
      ensures var d, n := old(dictionary), Decrement(old(counts), id);
              var index, keep := IndexOf(d, id), n[id] != 0;
              && compressor.Ready() && dictionary == Use(d, index, keep) && counts == n
              && compressor.text == old(compressor.text) + Bytes([Refer(index, keep)])
    {
      hide ListCompressors.ListCompressor.Ready, TokenBytes, Bytes;
      var index := IndexOf(dictionary, id);
      counts := counts[id := counts[id] - 1];
      var removed := counts[id] == 0;
      dictionary := Remove(dictionary, index);
      if !removed {
        dictionary := [id] + dictionary;
      }
      OneToken(Refer(index, !removed));
      WriteRefer(index, !removed);
    }
  }

  /** The bytecode of a program, or what the closing checks of the encoder found left over. */
  datatype Bytecode = Bytecode(bytes: seq<Byte>) | DictionaryNotEmpty | InvalidCount

  function Outcome(e: Encoded): Bytecode
    requires forall t <- e.tokens :: Writable(t)
  {
    if e.context.dictionary != [] then DictionaryNotEmpty
    else if exists id :: id in e.context.counts && e.context.counts[id] != 0 then InvalidCount
    else Bytecode(Lzss.CompressList(Bytes(e.tokens)))
  }

  method EncodeProgram(g: Graph, root: Ref) returns (r: Bytecode)
    requires Acyclic(g) && NopsLeadToRibs(g) && Below(root, |g|) && Counting.HasNull(g, root)
    requires forall t <- Encode(g, root, Counting.StartContext(g, root)).tokens :: Writable(t)
    ensures r == Outcome(Encode(g, root, Counting.StartContext(g, root)))
  {
    hide Encode, Counting.CountCode, Lzss.CompressList, Bytes, ListCompressors.ListCompressor.Valid,
         ListCompressors.ListCompressor.OnTrack;
    var context := new EncodeContext(Counting.NullOf(g, root));
    context.CountCode(g, root);
    context.counts := Counting.CountsAbove(context.counts, 1);
    context.EncodeRib(g, root);
    ghost var bytes := Bytes(Encode(g, root, Counting.StartContext(g, root)).tokens);
    assert [] + bytes == bytes;
    context.compressor.Flush();
    if |context.dictionary| != 0 {
      return DictionaryNotEmpty;
    }
    if exists id :: id in context.counts && context.counts[id] != 0 {
      return InvalidCount;
    }
    r := Bytecode(context.compressor.output);
  }

  lemma {:induction false} EncodeNumberIsPush(g: Graph, n: int, c: Context)
    requires Acyclic(g) && NopsLeadToRibs(g)
    ensures Encode(g, Int(n), c) == Encoded([Push(n)], c)
  {
  }

  lemma {:induction false} Shift(a: seq<Byte>, b: Byte, c: seq<Byte>)
    ensures a + ([b] + c) == a + [b] + c
  {
  }

  /** The bytes of a rib are those of its fields, of its tag and, if it is counted, a zero. */
  lemma {:induction false} FieldBytes(car: seq<Token>, cdr: seq<Token>, tag: nat, entry: bool, text: seq<Byte>)
    requires var tokens := car + cdr + [Make(tag)];
             forall t <- if entry then tokens + [Remember] else tokens :: Writable(t)
    ensures forall t <- car :: Writable(t)
    ensures forall t <- cdr :: Writable(t)
    ensures Writable(Make(tag))
    ensures var tokens := car + cdr + [Make(tag)];
            var bytes := text + Bytes(car) + Bytes(cdr) + TokenBytes(Make(tag));
            if entry then text + Bytes(tokens + [Remember]) == bytes + [0]
            else text + Bytes(tokens) == bytes
  {
    hide Bytes, TokenBytes;
    var tokens := car + cdr + [Make(tag)];
    var all := if entry then tokens + [Remember] else tokens;
    assert forall t :: t in tokens ==> t in all;
    assert forall t :: t in car ==> t in tokens;
    assert forall t :: t in cdr ==> t in tokens;
    assert Make(tag) in tokens;
    BytesAppend(car, cdr);
    BytesAppend(car + cdr, [Make(tag)]);
    OneToken(Make(tag));
    if entry {
      BytesAppend(tokens, [Remember]);
      OneToken(Remember);
      assert TokenBytes(Remember) == [0] by {
        RememberIsZero();
      }
    }
  }

  lemma {:induction false} RememberIsZero()
    ensures TokenBytes(Remember) == [0]
  {
  }

  lemma {:induction false} OneToken(t: Token)
    requires Writable(t)
    ensures Bytes([t]) == TokenBytes(t)
  {
    assert [t][1..] == [];
  }
}
