/** The tokens of the bytecode and the bytes they are written as. */
module RibTokens {
  import opened Options
  import opened IntegerCodes
  import Arithmetic

  /** `Remember` enters the top of the stack into the dictionary. `Refer` pushes the entry at an index and
      moves it to the front or, when it is used for the last time, drops it. `Make` makes a rib of the two
      values on top. */
  datatype Token = Remember | Refer(index: nat, keep: bool) | Make(tag: nat) | Push(n: int)

  const TAG_LIMIT: nat := 65536
  const INDEX_LIMIT: nat := 0x1_0000_0000_0000_0000

  /** Tags are 16 bits wide, numbers 63, and no dictionary outgrows the address space. */
  predicate Writable(t: Token) {
    match t
    case Remember => true
    case Refer(index, _) => index < INDEX_LIMIT
    case Make(tag) => tag < TAG_LIMIT
    case Push(n) => IsNumber(n)
  }

  function ReferInteger(index: nat, keep: bool): nat {
    2 * index + if keep then 1 else 0
  }

  function TokenBytes(t: Token): (bytes: seq<Byte>)
    requires Writable(t)
    ensures bytes != [] && forall b <- bytes :: b < 128
  {
    match t
    case Remember => [0]
    case Refer(index, keep) =>
      var x := ReferInteger(index, keep);
      [2 * (1 + Head(x, SHARE_BASE))] + Tail(x / SHARE_BASE)
    case Make(tag) => [1 + 4 * Head(tag, TAG_BASE)] + Tail(tag / TAG_BASE)
    case Push(n) =>
      var x := EncodeNumber(n);
      [3 + 4 * Head(x, NUMBER_BASE)] + Tail(x / NUMBER_BASE)
  }

  /** The first byte says what kind of token it starts: its lowest bit tells ribs and numbers from references, and the
      next one ribs from numbers. A lone zero remembers. */
  lemma {:induction false} FirstByteTellsKind(t: Token)
    requires Writable(t)
    ensures var bytes := TokenBytes(t);
            && (t.Remember? <==> bytes == [0]) && (t.Remember? <==> bytes[0] == 0)
            && (t.Refer? || t.Remember? <==> bytes[0] % 2 == 0)
            && (t.Make? <==> bytes[0] % 4 == 1) && (t.Push? <==> bytes[0] % 4 == 3)
  {
  }

  /** The bases are the greatest for which every byte of every token has seven bits. */
  lemma {:induction false} BasesAreGreatest(base: nat)
    requires base > 0
    ensures (forall x: nat, last :: IntegerPart(x, base, last) < 128) <==> base <= INTEGER_BASE
    ensures (forall x: nat :: 2 * (1 + Head(x, base)) < 128) <==> base <= SHARE_BASE
    ensures (forall x: nat :: 1 + 4 * Head(x, base) < 128) <==> base <= TAG_BASE
    ensures (forall x: nat :: 3 + 4 * Head(x, base) < 128) <==> base <= NUMBER_BASE
  {
    var x := 2 * base - 1;
    assert x % base == base - 1 by {
      Arithmetic.QuotientIs(x, base, 1, base - 1);
    }
    assert IntegerPart(x, base, false) == 2 * base - 1;
    if base > 1 {
      assert Head(x, base) == 2 * base - 1;
    }
  }

  function Bytes(tokens: seq<Token>): (bytes: seq<Byte>)
    requires forall t <- tokens :: Writable(t)
    ensures forall b <- bytes :: b < 128
  {
    if tokens == [] then [] else TokenBytes(tokens[0]) + Bytes(tokens[1..])
  }

  datatype Reading = Read(token: Token, rest: seq<Byte>) | Malformed

  /** One round of the decoding loop, as far as its input goes. */
  function ReadToken(input: seq<Byte>): Reading
    requires input != []
  {
    var head, rest := input[0], input[1..];
    if head % 2 == 0 then
      if head == 0 then Read(Remember, rest)
      else
        match DecodeTail(head / 2 - 1, SHARE_BASE, rest)
        case Value(x, rest) => Read(Refer(x / 2, x % 2 == 1), rest)
        case _ => Malformed
    else if head / 2 % 2 == 0 then
      match DecodeTail(head / 4, TAG_BASE, rest)
      case Value(x, rest) => Read(Make(x % TAG_LIMIT), rest)
      case _ => Malformed
    else
      match DecodeTail(head / 4, NUMBER_BASE, rest)
      case Value(x, rest) =>
        var n := DecodeNumber(x);
        if n.Some? then Read(Push(n.value), rest) else Malformed
      case _ => Malformed
  }

  lemma {:induction false} ReferRoundTrip(index: nat, keep: bool, rest: seq<Byte>)
    requires Writable(Refer(index, keep))
    ensures ReadToken(TokenBytes(Refer(index, keep)) + rest) == Read(Refer(index, keep), rest)
  {
    hide Head, Tail, DecodeTail;
    var x, input := ReferInteger(index, keep), TokenBytes(Refer(index, keep)) + rest;
    assert input[1..] == Tail(x / SHARE_BASE) + rest;
    IntegerRoundTrip(x, SHARE_BASE, rest);
  }

  lemma {:induction false} MakeRoundTrip(tag: nat, rest: seq<Byte>)
    requires Writable(Make(tag))
    ensures ReadToken(TokenBytes(Make(tag)) + rest) == Read(Make(tag), rest)
  {
    hide Head, Tail, DecodeTail;
    var input := TokenBytes(Make(tag)) + rest;
    assert input[1..] == Tail(tag / TAG_BASE) + rest;
    IntegerRoundTrip(tag, TAG_BASE, rest);
  }

  lemma {:induction false} PushRoundTrip(n: int, rest: seq<Byte>)
    requires Writable(Push(n))
    ensures ReadToken(TokenBytes(Push(n)) + rest) == Read(Push(n), rest)
  {
    hide Head, Tail, DecodeTail, DecodeNumber, EncodeNumber;
    var x, input := EncodeNumber(n), TokenBytes(Push(n)) + rest;
    assert input[1..] == Tail(x / NUMBER_BASE) + rest;
    NumberBytesRoundTrip(n, rest);
  }

  /** A written token reads back as itself and leaves exactly the bytes after it. */
  lemma {:induction false} TokenRoundTrip(t: Token, rest: seq<Byte>)
    requires t.Refer? ==> t.index < 0x1_0000_0000_0000_0000
    requires t.Make? ==> t.tag < 0x1_0000
    requires t.Push? ==> -0x4000_0000_0000_0000 <= t.n < 0x4000_0000_0000_0000
    ensures Writable(t) && ReadToken(TokenBytes(t) + rest) == Read(t, rest)
  {
    match t
    case Remember => assert (TokenBytes(t) + rest)[1..] == rest;
    case Refer(index, keep) => ReferRoundTrip(index, keep, rest);
    case Make(tag) => MakeRoundTrip(tag, rest);
    case Push(n) => PushRoundTrip(n, rest);
  }

  lemma {:induction false} BytesAppend(a: seq<Token>, b: seq<Token>)
    requires forall t <- a + b :: Writable(t)
    ensures Bytes(a + b) == Bytes(a) + Bytes(b)
  {
    if a == [] {
      assert a + b == b;
    } else {
      assert (a + b)[1..] == a[1..] + b;
      BytesAppend(a[1..], b);
    }
  }
}
