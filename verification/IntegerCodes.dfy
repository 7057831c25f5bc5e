/** The variable-length integer codes of the bytecode: the writer of `compile.scm`, the reader of
    `vm/src/vm.rs`, and the proof that each undoes the other. */
module IntegerCodes {
  import opened Options
  import opened Arithmetic

  type Byte = x: int | 0 <= x < 256

  const INTEGER_BASE: nat := 64
  const NUMBER_BASE: nat := 16
  const TAG_BASE: nat := 16
  const SHARE_BASE: nat := 31

  // The first value a `u128` cannot hold.
  const U128_LIMIT: nat := 0x1_0000_0000_0000_0000_0000_0000_0000_0000
  // Integers below this bound are decoded without leaving `u128`.
  const SAFE_LIMIT: nat := 0x400_0000_0000_0000_0000_0000_0000_0000

  /** The outcome of reading an integer: the value and the unread bytes, the end of the input, or an
      arithmetic overflow of the `u128` accumulator. */
  datatype Decoded = Value(integer: nat, rest: seq<Byte>) | BytecodeEnd | Overflow

  // ----- writer -----

  function IntegerPart(x: nat, base: nat, last: bool): (part: nat)
    requires base > 0
    ensures part < 2 * base && part / 2 == x % base && (part % 2 == 0 <==> last)
  {
    (if last then 0 else 1) + 2 * (x % base)
  }

  function Head(x: nat, base: nat): (part: nat)
    requires base > 0
    ensures part < 2 * base && part / 2 == x % base && (part % 2 == 0 <==> x < base)
  {
    NoQuotient(x, base);
    IntegerPart(x, base, x / base == 0)
  }

  lemma {:induction false} NoQuotient(x: nat, base: nat)
    requires base > 0
    ensures x / base == 0 <==> x < base
  {
    assert x == base * (x / base) + x % base;
    if x / base > 0 {
      assert base * (x / base) >= base;
    }
  }

  /** The bytes that follow the head, least significant digit first. */
  function Tail(x: nat): (bytes: seq<Byte>)
    ensures forall b <- bytes :: b < 128
  {
    if x == 0 then [] else [IntegerPart(x, INTEGER_BASE, x / INTEGER_BASE == 0)] + Tail(x / INTEGER_BASE)
  }

  /** The head byte and every byte after it say whether it is the last one. */
  lemma {:induction false} LastPartIsMarked(x: nat, base: nat)
    requires base > 0
    ensures Head(x, base) % 2 == 0 <==> Tail(x / base) == []
    ensures forall i :: 0 <= i < |Tail(x)| ==> (Tail(x)[i] % 2 == 0 <==> i == |Tail(x)| - 1)
    decreases x
  {
    NoQuotient(x, base);
    if x > 0 {
      LastPartIsMarked(x / INTEGER_BASE, base);
      assert Tail(x) == [IntegerPart(x, INTEGER_BASE, x / INTEGER_BASE == 0)] + Tail(x / INTEGER_BASE);
    }
  }

  // ----- reader -----

  /** The reading loop: `y` is the value so far, `base` the weight of the next digit. */
  function DecodeMore(y: nat, base: nat, input: seq<Byte>): Decoded
    decreases |input|
  {
    if input == [] then BytecodeEnd
    else
      var y' := y + input[0] / 2 * base;
      var base' := base * INTEGER_BASE;
      if y' >= U128_LIMIT || base' >= U128_LIMIT then Overflow
      else if input[0] % 2 == 0 then Value(y', input[1..])
      else DecodeMore(y', base', input[1..])
  }

  function DecodeTail(head: Byte, base: nat, input: seq<Byte>): Decoded {
    if head % 2 == 0 then Value(head / 2, input) else DecodeMore(head / 2, base, input)
  }

  // ----- round trip -----

  /** The weight of the digit after the last one of `q`, when its first has the weight `base`. */
  function Weight(base: nat, q: nat): nat
    decreases q
  {
    if q == 0 then base else Weight(base * INTEGER_BASE, q / INTEGER_BASE)
  }

  lemma {:induction false} WeightGrows(base: nat, q: nat)
    ensures Weight(base, q) >= base
    decreases q
  {
    if q > 0 {
      WeightGrows(base * INTEGER_BASE, q / INTEGER_BASE);
    }
  }

  // The digits of `q` but the last weigh no more than `q` itself.
  lemma {:induction false} WeightIsSmall(base: nat, q: nat)
    requires q > 0
    ensures Weight(base, q) <= base * q * INTEGER_BASE
    decreases q
  {
    var rest := q / INTEGER_BASE;
    if rest == 0 {
      MultiplyMonotone(1, q, base);
    } else {
      WeightIsSmall(base * INTEGER_BASE, rest);
      assert base * INTEGER_BASE * rest == base * (INTEGER_BASE * rest);
      MultiplyMonotone(INTEGER_BASE * rest, q, base);
    }
  }

  lemma {:induction false} DecodeMoreInvertsTail(y: nat, base: nat, x: nat, rest: seq<Byte>)
    requires x > 0 && y < base
    ensures DecodeMore(y, base, Tail(x) + rest)
            == if Weight(base, x) < U128_LIMIT then Value(y + x * base, rest) else Overflow
    decreases x
  {
    var part, q := IntegerPart(x, INTEGER_BASE, x / INTEGER_BASE == 0), x / INTEGER_BASE;
    assert x == INTEGER_BASE * q + part / 2;
    DistributeDigit(q, part / 2, base);
    assert x * base == q * (base * INTEGER_BASE) + part / 2 * base;
    MultiplyMonotone(part / 2, INTEGER_BASE - 1, base);
    WeightGrows(base * INTEGER_BASE, q);
    assert (Tail(x) + rest)[1..] == Tail(q) + rest;
    assert (Tail(x) + rest)[0] == part;
    if q == 0 {
      assert (Tail(x) + rest)[1..] == rest;
    } else {
      DecodeMoreInvertsTail(y + part / 2 * base, base * INTEGER_BASE, q, rest);
    }
  }

  lemma {:induction false} DistributeDigit(q: int, r: int, base: int)
    ensures (INTEGER_BASE * q + r) * base == q * (base * INTEGER_BASE) + r * base
  {
  }

  /** A written integer followed by any bytes reads back as itself and leaves exactly those bytes, unless the
      weight that the reader has computed after the last byte overflows. */
  lemma {:induction false} IntegerRoundTrip(x: nat, base: nat, rest: seq<Byte>)
    requires 0 < base <= 64
    ensures DecodeTail(Head(x, base), base, Tail(x / base) + rest)
            == if x < base || Weight(base, x / base) < 0x1_0000_0000_0000_0000_0000_0000_0000_0000
               then Value(x, rest) else Overflow
    ensures x < 0x400_0000_0000_0000_0000_0000_0000_0000 ==> x < base || Weight(base, x / base) < U128_LIMIT
  {
    assert x == base * (x / base) + x % base;
    NoQuotient(x, base);
    if x / base == 0 {
      assert Tail(0) + rest == rest;
    } else {
      assert x % base + (x / base) * base == x;
      DecodeMoreInvertsTail(x % base, base, x / base, rest);
      WeightIsSmall(base, x / base);
    }
  }

  // ----- signed numbers -----

  // A number is a signed 63-bit integer: one bit of the word tells numbers from pointers.
  const NUMBER_LIMIT: int := 0x4000_0000_0000_0000
  const I64_LIMIT: int := 0x8000_0000_0000_0000

  predicate IsNumber(n: int) {
    -NUMBER_LIMIT <= n < NUMBER_LIMIT
  }

  /** The low 63 bits of `n` read in two's complement. */
  function FromI64(n: int): (r: int)
    ensures IsNumber(r)
    ensures IsNumber(n) ==> r == n
  {
    (n + NUMBER_LIMIT) % (2 * NUMBER_LIMIT) - NUMBER_LIMIT
  }

  /** The low 64 bits of `n` read in two's complement. */
  function ToI64(n: int): (r: int)
    ensures -I64_LIMIT <= r < I64_LIMIT
    ensures -I64_LIMIT <= n < I64_LIMIT ==> r == n
  {
    (n + I64_LIMIT) % (2 * I64_LIMIT) - I64_LIMIT
  }

  function EncodeNumber(n: int): nat {
    if n < 0 then 1 + 4 * -n else 2 * n
  }

  /** No number stands for the floating-point code, which this model leaves out. */
  function DecodeNumber(n: nat): Option<int> {
    if n % 2 == 0 then Some(FromI64(ToI64(n / 2)))
    else if n / 2 % 2 == 0 then Some(FromI64(ToI64(-ToI64(n / 4))))
    else None
  }

  /** A number survives encoding exactly when it fits in 63 bits. */
  lemma {:induction false} NumberRoundTrip(n: int)
    ensures DecodeNumber(EncodeNumber(n)) == Some(n) <==> -0x4000_0000_0000_0000 <= n < 0x4000_0000_0000_0000
  {
    if n < 0 {
      assert EncodeNumber(n) / 2 == 2 * -n;
      assert EncodeNumber(n) / 4 == -n;
    } else {
      assert EncodeNumber(n) / 2 == n;
    }
  }

  /** All the way through the bytes: a 63-bit number is read back, whatever follows it. */
  lemma {:induction false} NumberBytesRoundTrip(n: int, rest: seq<Byte>)
    requires IsNumber(n)
    ensures var x := EncodeNumber(n);
            && DecodeTail(Head(x, NUMBER_BASE), NUMBER_BASE, Tail(x / NUMBER_BASE) + rest) == Value(x, rest)
            && DecodeNumber(x) == Some(n)
  {
    NumberRoundTrip(n);
    IntegerRoundTrip(EncodeNumber(n), NUMBER_BASE, rest);
  }
}
