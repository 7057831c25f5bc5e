/** `decode_ribs` of `vm/src/vm.rs`: from compressed bytes to ribs on a garbage-collected heap. */
module Decoders {
  import opened Options
  import opened IntegerCodes
  import opened Stores
  import opened RibTokens
  import opened HeapDecoding
  import opened Memories
  import Lzss
  import Machine
  import Decompressors

  type Input = Decompressors.Decompressor

  /** The bytes still to be read. */
  ghost function Rest(input: Input): seq<Byte>
    reads input, input.buffer, input.buffer.buffer
    requires input.Valid()
  {
    Lzss.Decompress(input.State(), input.window)
  }

  // In a window of the greatest size no offset reaches too far.
  ghost predicate Open(input: Input)
    reads input, input.buffer, input.buffer.buffer
  {
    input.Valid() && input.window == Lzss.MAX_WINDOW_SIZE
  }

  method NextByte(input: Input) returns (r: Option<Byte>)
    requires Open(input)
    modifies input, input.buffer, input.buffer.buffer
    ensures Open(input)
    ensures old(Rest(input)) == if r.Some? then [r.value] + Rest(input) else []
  {
    Lzss.DecompressStep(input.State(), input.window);
    var item := input.Next();
    r := if item.Yielded? then Some(item.byte) else None;
  }

  method DecodeIntegerTail(input: Input, head: Byte, initial: nat) returns (r: Decoded)
    requires Open(input)
    modifies input, input.buffer, input.buffer.buffer
    ensures Open(input)
    ensures var expected := DecodeTail(head, initial, old(Rest(input)));
            if expected.Value? then r.Value? && r.integer == expected.integer && Rest(input) == expected.rest
            else r == expected
  {
    hide Lzss.Decompress;
    var x := head;
    var y: nat := x / 2;
    var base: nat := initial;
    ghost var rest := Rest(input);
    while x % 2 != 0
      invariant Open(input)
      invariant DecodeTail(head, initial, rest)
                == if x % 2 == 0 then Value(y, Rest(input)) else DecodeMore(y, base, Rest(input))
      decreases |Rest(input)| + x % 2
    {
      var next := NextByte(input);
      if next.None? {
        return BytecodeEnd;
      }
      x := next.value;
      y := y + x / 2 * base;
      base := base * INTEGER_BASE;
      if y >= U128_LIMIT || base >= U128_LIMIT {
        return Overflow;
      }
    }
    r := Value(y, []);
  }

  // ----- tokens on the memory -----

  method RememberTop(m: Memory) returns (r: Result<()>)
    requires m.Valid() && RememberOn(m.model).Ok?
    modifies m, m.heap
    ensures r.OutOfMemory? ==> 2 * m.live == m.SpaceSize()
    ensures r.Ok? ==> m.Valid() && RememberOn(old(m.model)) == Machine.Ok(m.model)
  {
    hide Memory.Valid;
    ghost var v := Car(m.model, m.model.stack);
    var stack := m.Stack();
    var code := m.Code();
    var value := m.Car(stack, m.model.stack);
    var cons :- m.Allocate(value, Pointer(code.SetTag(Machine.PAIR)), v, Pointer(m.model.code.SetTag(Machine.PAIR)));
    m.SetCode(cons, Fresh(old(m.model)));
    r := Result.Ok(());
  }

  method MoveEntry(m: Memory, index: nat)
    requires m.Valid() && MoveToFront(m.model, index).Ok?
    modifies m, m.heap
    ensures m.Valid() && MoveToFront(old(m.model), index) == Machine.Ok(m.model)
  {
    hide Memory.Valid;
    if index > 0 {
      ghost var s := m.model;
      ghost var a := Machine.TailOf(s, s.code, index - 1).value;
      var code := m.Code();
      var cons := m.Tail(code, index - 1, s.code);
      ghost var b := Machine.ConsAtCdr(s, a).value;
      var head := m.CdrCons(cons, a);
      ghost var c := Cdr(s, b);
      var tail := m.Cdr(head, b);
      m.SetCdr(head, Pointer(code), b, Pointer(s.code));
      m.SetCdr(cons, tail, a, c);
      m.SetCode(head, b);
    }
  }

  method ReferTo(m: Memory, index: nat, keep: bool) returns (r: Result<()>)
    requires m.Valid() && ReferOn(m.model, index, keep).Ok?
    modifies m, m.heap
    ensures r.OutOfMemory? ==> 2 * m.live == m.SpaceSize()
    ensures r.Ok? ==> m.Valid() && ReferOn(old(m.model), index, keep) == Machine.Ok(m.model)
  {
    hide Memory.Valid, MoveToFront;
    MoveEntry(m, index);
    ghost var v := Car(m.model, m.model.code);
    var code := m.Code();
    var value := m.Car(code, m.model.code);
    if !keep {
      ghost var a := Machine.ConsAtCdr(m.model, m.model.code).value;
      var next := m.CdrCons(code, m.model.code);
      m.SetCode(next, a);
    }
    r := m.Push(value, v);
  }

  method MakeRib(m: Memory, tag: nat)
    requires m.Valid() && MakeOn(m.model, tag).Ok?
    modifies m, m.heap
    ensures m.Valid() && MakeOn(old(m.model), tag) == Machine.Ok(m.model)
  {
    hide Memory.Valid;
    ghost var a, w := m.model.stack, Machine.PopOf(m.model).value.0;
    var cons := m.Stack();
    var cdr := m.Pop();
    ghost var v := Car(m.model, m.model.stack);
    var stack := m.Stack();
    var car := m.Car(stack, m.model.stack);
    m.SetCar(cons, car, a, v);
    m.SetRawCdr(cons, cdr.SetTag(tag), a, w.SetTag(tag));
    stack := m.Stack();
    m.SetCar(stack, Pointer(cons), m.model.stack, Pointer(a));
  }

  /** Reads the rest of one token and carries it out. */
  method DecodeToken(m: Memory, input: Input, head: Byte, ghost t: Token, ghost rest: seq<Byte>)
    returns (r: Result<()>)
    requires m.Valid() && Open(input) && ReadToken([head] + Rest(input)) == Read(t, rest)
    requires StepOn(m.model, t).Ok?
    modifies m, m.heap, input, input.buffer, input.buffer.buffer
    ensures r.OutOfMemory? ==> 2 * m.live == m.SpaceSize()
    ensures r.Ok? ==> m.Valid() && StepOn(old(m.model), t) == Machine.Ok(m.model)
    ensures Open(input) && Rest(input) == rest
  {
    hide Memory.Valid, Lzss.Decompress, RememberOn, ReferOn, MakeOn, Machine.PushOf, DecodeTail, DecodeNumber;
    assert ([head] + Rest(input))[1..] == Rest(input);
    if head % 2 == 0 {
      if head == 0 {
        r := RememberTop(m);
      } else {
        var x := DecodeIntegerTail(input, head / 2 - 1, SHARE_BASE);
        r := ReferTo(m, x.integer / 2, x.integer % 2 == 1);
      }
    } else if head / 2 % 2 == 0 {
      var x := DecodeIntegerTail(input, head / 4, TAG_BASE);
      MakeRib(m, x.integer % TAG_LIMIT);
      r := Result.Ok(());
    } else {
      var x := DecodeIntegerTail(input, head / 4, NUMBER_BASE);
      var n := DecodeNumber(x.integer);
      r := m.Push(Number(n.value), Number(n.value));
    }
  }

  /** Decoding the bytes of some tokens carries out the tokens, whatever the collector does meanwhile. */
  method DecodeRibs(m: Memory, input: Input, ghost tokens: seq<Token>) returns (r: Result<Cons>)
    requires m.Valid() && Open(input)
    requires forall t <- tokens :: Writable(t)
    requires Rest(input) == Bytes(tokens)
    requires RunOn(m.model, tokens).Ok? && Machine.PopOf(RunOn(m.model, tokens).value).Ok?
    requires Machine.PopOf(RunOn(m.model, tokens).value).value.0.Pointer?
    modifies m, m.heap, input, input.buffer, input.buffer.buffer
    ensures r.OutOfMemory? ==> 2 * m.live == m.SpaceSize()
    ensures r.Ok? ==>
      var popped := Machine.PopOf(RunOn(old(m.model), tokens).value).value;
      m.Valid() && m.model == popped.1 && ConsMoves(m.loc, popped.0.cons, r.value)
  {
    hide Memory.Valid, Lzss.Decompress, StepOn, ReadToken, TokenBytes;
    ghost var todo := tokens;
    var head := NextByte(input);
    while head.Some?
      invariant m.Valid() && Open(input) && forall t <- todo :: Writable(t)
      invariant RunOn(m.model, todo) == RunOn(old(m.model), tokens)
      invariant Bytes(todo) == if head.Some? then [head.value] + Rest(input) else []
      decreases |todo|
    {
      assert Writable(todo[0]);
      TokenRoundTrip(todo[0], Bytes(todo[1..]));
      var done := DecodeToken(m, input, head.value, todo[0], Bytes(todo[1..]));
      if done.OutOfMemory? {
        return OutOfMemory;
      }
      todo := todo[1..];
      head := NextByte(input);
    }
    ghost var v := Machine.PopOf(m.model).value.0;
    var value := m.Pop();
    r := Result.Ok(value.cons);
  }
}
