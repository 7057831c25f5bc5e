/** What LZSS means: the greedy token choice both compressors make and the machine the decompressor
    runs, on plain sequences, with the round trip between the two. */
module Lzss {
  import opened IntegerCodes

  const MAX_WINDOW_SIZE: nat := 256
  const MAX_LENGTH: nat := 128
  const MIN_LENGTH: nat := 2

  function Min(a: nat, b: nat): nat {
    if a < b then a else b
  }

  function Zeros(n: nat): (zeros: seq<Byte>)
    ensures |zeros| == n && forall k :: 0 <= k < n ==> zeros[k] == 0
  {
    seq(n, _ => 0)
  }

  // ----- the greedy choice -----

  /** The length of the longest match at `p` against the text `offset + 1` bytes earlier, given that
      the first `j` bytes agree. */
  function MatchFrom(text: seq<Byte>, p: nat, offset: nat, j: nat): (m: nat)
    requires offset < p && p + j <= |text| && j <= MAX_LENGTH
    ensures j <= m <= MAX_LENGTH && p + m <= |text|
    decreases MAX_LENGTH - j
  {
    if j < MAX_LENGTH && p + j < |text| && text[p + j] == text[p - 1 - offset + j]
    then MatchFrom(text, p, offset, j + 1)
    else j
  }

  lemma {:induction false} MatchFromStep(text: seq<Byte>, p: nat, offset: nat, j: nat)
    requires offset < p && p + j <= |text| && j <= MAX_LENGTH
    ensures MatchFrom(text, p, offset, j)
            == if j < MAX_LENGTH && p + j < |text| && text[p + j] == text[p - 1 - offset + j]
               then MatchFrom(text, p, offset, j + 1) else j
  {
  }

  function MatchLength(text: seq<Byte>, p: nat, offset: nat): (m: nat)
    requires offset < p <= |text|
    ensures m <= MAX_LENGTH && p + m <= |text|
  {
    MatchFrom(text, p, offset, 0)
  }

  /** The bytes from `p` to `end` repeat those `offset + 1` bytes earlier. */
  ghost predicate Repeats(text: seq<Byte>, p: nat, end: nat, offset: nat)
    requires offset < p && end <= |text|
  {
    forall q, r :: p <= q < end && r == q - 1 - offset ==> text[q] == text[r]
  }

  /** `MatchFrom` is what its name says: everything before its end agrees and it cannot go on. */
  lemma {:induction false} MatchIsLongest(text: seq<Byte>, p: nat, offset: nat, j: nat)
    requires offset < p && p + j <= |text| && j <= MAX_LENGTH
    ensures var m := MatchFrom(text, p, offset, j);
            && Repeats(text, p + j, p + m, offset)
            && (m == MAX_LENGTH || p + m == |text| || text[p + m] != text[p - 1 - offset + m])
    decreases MAX_LENGTH - j
  {
    if j < MAX_LENGTH && p + j < |text| && text[p + j] == text[p - 1 - offset + j] {
      MatchIsLongest(text, p, offset, j + 1);
    }
  }

  datatype Match = Match(offset: nat, length: nat)

  /** `m` is the longest match among the first `k` offsets, and the nearest of the longest ones. */
  ghost predicate IsBest(text: seq<Byte>, p: nat, k: nat, m: Match)
    requires k <= p <= |text|
  {
    && (if k == 0 then m == Match(0, 0) else m.offset < k && m.length == MatchLength(text, p, m.offset))
    && forall i :: 0 <= i < k ==>
      MatchLength(text, p, i) <= m.length && (i < m.offset ==> MatchLength(text, p, i) < m.length)
  }

  function Best(text: seq<Byte>, p: nat, k: nat): (m: Match)
    requires k <= p <= |text|
    ensures m.length <= MAX_LENGTH && p + m.length <= |text|
    ensures if k == 0 then m.length == 0 else m.offset < k
  {
    if k == 0 then Match(0, 0)
    else if k == 1 then Match(0, MatchLength(text, p, 0))
    else
      var m := Best(text, p, k - 1);
      var length := MatchLength(text, p, k - 1);
      if length > m.length then Match(k - 1, length) else m
  }

  lemma {:induction false} BestIsBest(text: seq<Byte>, p: nat, k: nat)
    requires k <= p <= |text|
    ensures IsBest(text, p, k, Best(text, p, k))
  {
    if k > 1 {
      BestIsBest(text, p, k - 1);
      var m, b := Best(text, p, k - 1), Best(text, p, k);
      forall i | 0 <= i < k
        ensures MatchLength(text, p, i) <= b.length && (i < b.offset ==> MatchLength(text, p, i) < b.length)
      {
        if i < k - 1 {
          assert MatchLength(text, p, i) <= m.length;
        }
      }
    }
  }

  lemma {:induction false} BestIsUnique(text: seq<Byte>, p: nat, k: nat, m: Match)
    requires k <= p <= |text| && IsBest(text, p, k, m)
    ensures m == Best(text, p, k)
  {
    BestIsBest(text, p, k);
    var b := Best(text, p, k);
    if k > 0 {
      assert MatchLength(text, p, m.offset) == m.length;
      assert MatchLength(text, p, b.offset) == b.length;
    }
  }

  /** A literal is shifted left by one in eight bits. */
  function Literal(b: Byte): (r: Byte)
    ensures r % 2 == 0 && r / 2 == Low(b)
  {
    if b < 128 then 2 * b else 2 * b - 256
  }

  function Low(b: Byte): (r: Byte)
    ensures r < 128 && (b < 128 ==> r == b)
  {
    if b < 128 then b else b - 128
  }

  /** One step of a compressed text: a byte as it is, or `length` bytes from `offset + 1` bytes ago. */
  datatype Token = Plain(byte: Byte) | Copied(length: Length, offset: Byte)

  type Length = n: int | 0 < n <= MAX_LENGTH witness 1

  function TokenLength(t: Token): Length {
    if t.Plain? then 1 else t.length
  }

  /** The greedy choice at `p`. */
  function TokenAt(text: seq<Byte>, p: nat, window: nat): (t: Token)
    requires p < |text| && window <= MAX_WINDOW_SIZE
    ensures p + TokenLength(t) <= |text|
  {
    var m := Best(text, p, Min(window, p));
    if m.length > MIN_LENGTH then Copied(m.length, m.offset) else Plain(text[p])
  }

  function TokenBytes(t: Token): seq<Byte> {
    match t
    case Plain(b) => [Literal(b)]
    case Copied(length, offset) => [2 * (length - 1) + 1, offset]
  }

  /** The greedy tokens of `text[p..]`, when the decompressor already holds `text[..p]` and its window
      has `window` bytes. */
  function Tokens(text: seq<Byte>, p: nat, window: nat): seq<Token>
    requires p <= |text| && window <= MAX_WINDOW_SIZE
    decreases |text| - p
  {
    if p == |text| then []
    else
      var t := TokenAt(text, p, window);
      [t] + Tokens(text, p + TokenLength(t), window)
  }

  function Bytes(tokens: seq<Token>): seq<Byte> {
    if tokens == [] then [] else TokenBytes(tokens[0]) + Bytes(tokens[1..])
  }

  /** A token stands for the bytes at `p`. */
  ghost predicate Stands(t: Token, text: seq<Byte>, p: nat, window: nat) {
    && p + TokenLength(t) <= |text|
    && match t
       case Plain(b) => text[p] == b
       case Copied(length, offset) => offset < Min(window, p) && Repeats(text, p, p + length, offset)
  }

  /** The tokens stand for `text[p..]`, greedy or not. */
  ghost predicate AllStand(tokens: seq<Token>, text: seq<Byte>, p: nat, window: nat) {
    if tokens == [] then p == |text|
    else Stands(tokens[0], text, p, window) && AllStand(tokens[1..], text, p + TokenLength(tokens[0]), window)
  }

  lemma {:induction false} TokenStands(text: seq<Byte>, p: nat, window: nat)
    requires p < |text| && window <= MAX_WINDOW_SIZE
    ensures Stands(TokenAt(text, p, window), text, p, window)
  {
    var k := Min(window, p);
    var m := Best(text, p, k);
    if m.length > MIN_LENGTH {
      BestIsBest(text, p, k);
      MatchIsLongest(text, p, m.offset, 0);
    }
  }

  /** The `n` bytes from `p` on repeat those `offset + 1` bytes earlier. */
  ghost predicate CanCopyFrom(text: seq<Byte>, p: nat, n: nat, offset: nat) {
    offset < p && p + n <= |text| && Repeats(text, p, p + n, offset)
  }

  /** Some offset of the window repeats `n` bytes. */
  ghost predicate CanCopy(text: seq<Byte>, p: nat, window: nat, n: nat) {
    exists o :: 0 <= o < Min(window, p) && CanCopyFrom(text, p, n, o)
  }

  /** A match is as long as the text repeats. */
  lemma {:induction false} CanCopyIffMatched(text: seq<Byte>, p: nat, offset: nat, n: nat)
    requires offset < p <= |text| && n <= 128
    ensures CanCopyFrom(text, p, n, offset) <==> n <= MatchLength(text, p, offset)
  {
    hide MatchFrom;
    MatchIsLongest(text, p, offset, 0);
    var m := MatchLength(text, p, offset);
    if m < n && p + n <= |text| {
      assert text[p + m] != text[p - 1 - offset + m];
    }
  }

  /** A token copies exactly if at least three bytes are repeated from within the window. It then copies as many as
      any offset repeats, up to 128, from the nearest offset that repeats so many. */
  lemma {:induction false} CopiesIffRepeated(text: seq<Byte>, p: nat, window: nat)
    requires p < |text| && window <= 256
    ensures var t := TokenAt(text, p, window);
            && (t.Copied? <==> CanCopy(text, p, window, 3))
            && (t.Plain? ==> t.byte == text[p])
            && (t.Copied? ==>
                  && t.offset < Min(window, p) && t.length <= 128 && CanCopyFrom(text, p, t.length, t.offset)
                  && (forall n: nat :: n <= 128 && CanCopy(text, p, window, n) ==> n <= t.length)
                  && (forall o: nat :: o < t.offset ==> !CanCopyFrom(text, p, t.length, o)))
  {
    hide Best, MatchLength, CanCopyFrom;
    var k := Min(window, p);
    var m := Best(text, p, k);
    BestIsBest(text, p, k);
    forall o, n: nat | 0 <= o < k && n <= 128
      ensures CanCopyFrom(text, p, n, o) <==> n <= MatchLength(text, p, o)
    {
      CanCopyIffMatched(text, p, o, n);
    }
    if m.length >= 3 {
      assert CanCopyFrom(text, p, 3, m.offset);
    }
  }

  lemma {:induction false} TokensStand(text: seq<Byte>, p: nat, window: nat)
    requires p <= |text| && window <= MAX_WINDOW_SIZE
    ensures AllStand(Tokens(text, p, window), text, p, window)
    decreases |text| - p
  {
    hide TokenAt, Stands;
    if p < |text| {
      var t := TokenAt(text, p, window);
      TokenStands(text, p, window);
      TokensStand(text, p + TokenLength(t), window);
      assert Tokens(text, p, window)[1..] == Tokens(text, p + TokenLength(t), window);
    }
  }

  /** The compressed form of `text[p..]`. */
  function Compress(text: seq<Byte>, p: nat, window: nat): seq<Byte>
    requires p <= |text| && window <= MAX_WINDOW_SIZE
  {
    Bytes(Tokens(text, p, window))
  }

  lemma {:induction false} CompressStep(text: seq<Byte>, p: nat, window: nat)
    requires p <= |text| && window <= MAX_WINDOW_SIZE
    ensures Compress(text, p, window) ==
            if p == |text| then []
            else
              var t := TokenAt(text, p, window);
              TokenBytes(t) + Compress(text, p + TokenLength(t), window)
  {
  }

  /** No text grows. */
  lemma {:induction false} TokenIsShort(text: seq<Byte>, p: nat, window: nat)
    requires p < |text| && window <= MAX_WINDOW_SIZE
    ensures var t := TokenAt(text, p, window); |TokenBytes(t)| <= TokenLength(t)
  {
    hide Best;
  }

  lemma {:induction false} CompressShrinks(text: seq<Byte>, p: nat, window: nat)
    requires p <= |text| && window <= MAX_WINDOW_SIZE
    ensures |Compress(text, p, window)| <= |text| - p
    decreases |text| - p
  {
    hide Compress, TokenAt;
    CompressStep(text, p, window);
    if p < |text| {
      var t := TokenAt(text, p, window);
      TokenIsShort(text, p, window);
      CompressShrinks(text, p + TokenLength(t), window);
    }
  }

  // ----- the decompressor as a machine -----

  /** A decompressor: its unread input, everything it has written, and the match it is in the middle
      of copying. Only the last `window` bytes of the history can be referred to. */
  datatype Decoder = Decoder(input: seq<Byte>, history: seq<Byte>, offset: Byte, length: nat)

  /** The next byte. Going back further than the window is an index underflow. */
  datatype Read = Output(byte: Byte, decoder: Decoder) | End(decoder: Decoder) | Underflow

  function Write(d: Decoder, x: Byte): Decoder {
    d.(history := d.history + [x])
  }

  function Copy(d: Decoder, window: nat): (r: Read)
    requires window <= |d.history| && d.length > 0
    ensures r.Output? ==> r.decoder.input == d.input && r.decoder.length == d.length - 1
    ensures r.Output? ==> r.decoder.history == d.history + [r.byte]
  {
    if d.offset >= window then Underflow
    else
      var x := d.history[|d.history| - 1 - d.offset];
      Output(x, Write(d, x).(length := d.length - 1))
  }

  function Next(d: Decoder, window: nat): (r: Read)
    requires window <= |d.history|
    ensures r.Output? ==>
      |r.decoder.input| < |d.input| || (r.decoder.input == d.input && r.decoder.length < d.length)
    ensures r.Output? ==> r.decoder.history == d.history + [r.byte]
  {
    if d.length > 0 then Copy(d, window)
    else if d.input == [] then End(d)
    else
      var x, d' := d.input[0], d.(input := d.input[1..]);
      if x % 2 == 0 then Output(x / 2, Write(d', x / 2))
      else if d'.input == [] then End(d'.(length := x / 2 + 1))
      else Copy(d'.(length := x / 2 + 1, offset := d'.input[0], input := d'.input[1..]), window)
  }

  /** The history of a decompressor that has been read up to its first end. */
  function Run(d: Decoder, window: nat): (history: seq<Byte>)
    requires window <= |d.history|
    ensures |d.history| <= |history|
    decreases |d.input|, d.length
  {
    var r := Next(d, window);
    if r.Output? then Run(r.decoder, window) else d.history
  }

  /** All the bytes a decompressor yields up to the first end; an underflow yields nothing more. */
  function Decompress(d: Decoder, window: nat): seq<Byte>
    requires window <= |d.history|
  {
    Run(d, window)[|d.history|..]
  }

  lemma {:induction false} DecompressStep(d: Decoder, window: nat)
    requires window <= |d.history|
    ensures var r := Next(d, window);
            Decompress(d, window) == if r.Output? then [r.byte] + Decompress(r.decoder, window) else []
  {
    var r := Next(d, window);
    if r.Output? {
      RunExtends(r.decoder, window);
    }
  }

  lemma {:induction false} RunExtends(d: Decoder, window: nat)
    requires window <= |d.history|
    ensures d.history <= Run(d, window)
    decreases |d.input|, d.length
  {
    var r := Next(d, window);
    if r.Output? {
      RunExtends(r.decoder, window);
    }
  }

  // ----- round trip -----

  function Mask(text: seq<Byte>): (masked: seq<Byte>)
    ensures IsMask(text, masked)
  {
    seq(|text|, k requires 0 <= k < |text| => Low(text[k]))
  }

  ghost predicate IsMask(text: seq<Byte>, low: seq<Byte>) {
    |low| == |text| && forall k :: 0 <= k < |text| ==> low[k] == Low(text[k])
  }

  /** A decoder after the rest of its match. */
  function CopyAll(d: Decoder, window: nat): (end: Decoder)
    requires window <= |d.history| && d.offset < window
    ensures end.input == d.input && end.offset == d.offset && end.length == 0
    ensures |end.history| == |d.history| + d.length
    decreases d.length
  {
    if d.length == 0 then d else CopyAll(Copy(d, window).decoder, window)
  }

  lemma {:induction false} RunCopyAll(d: Decoder, window: nat)
    requires window <= |d.history| && d.offset < window
    ensures Run(d, window) == Run(CopyAll(d, window), window)
    decreases d.length
  {
    if d.length > 0 {
      assert Next(d, window) == Copy(d, window);
      RunCopyAll(Copy(d, window).decoder, window);
    }
  }

  /** Copying a match reproduces the text, even where the match overlaps its own output. */
  lemma {:induction false} CopyMatch(low: seq<Byte>, p: nat, before: seq<Byte>, window: nat, d: Decoder)
    requires p + d.length <= |low| && window <= |before| + p && d.history == before + low[..p]
    requires d.offset < Min(window, p)
    requires Repeats(low, p, p + d.length, d.offset)
    ensures CopyAll(d, window).history == before + low[..p + d.length]
    decreases d.length
  {
    if d.length > 0 {
      assert d.history[|d.history| - 1 - d.offset] == low[p - 1 - d.offset] == low[p];
      assert d.history + [low[p]] == before + low[..p + 1];
      CopyMatch(low, p + 1, before, window, Copy(d, window).decoder);
    }
  }

  lemma {:induction false} ReadToken(length: nat, offset: Byte, rest: seq<Byte>, history: seq<Byte>, window: nat,
                                     o: Byte)
    requires window <= |history| && 0 < length <= MAX_LENGTH
    ensures Run(Decoder([2 * (length - 1) + 1, offset] + rest, history, o, 0), window)
            == Run(Decoder(rest, history, offset, length), window)
  {
    var d := Decoder([2 * (length - 1) + 1, offset] + rest, history, o, 0);
    assert d.input[1..][1..] == rest;
    assert d.input[0] / 2 + 1 == length;
    assert Next(d, window) == Copy(Decoder(rest, history, offset, length), window);
  }

  /** The decompressor reads back a match token as the text it stands for. */
  lemma {:induction false} ReadMatch(low: seq<Byte>, p: nat, m: Match, rest: seq<Byte>, before: seq<Byte>,
                                     window: nat, offset: Byte)
    requires p + m.length <= |low| && window <= |before| + p
    requires 0 < m.length <= MAX_LENGTH && m.offset < Min(window, p) && m.offset < 256
    requires Repeats(low, p, p + m.length, m.offset)
    ensures Run(Decoder([2 * (m.length - 1) + 1, m.offset] + rest, before + low[..p], offset, 0), window)
            == Run(Decoder(rest, before + low[..p + m.length], m.offset, 0), window)
  {
    hide Run, CopyAll, Repeats;
    var d := Decoder(rest, before + low[..p], m.offset, m.length);
    ReadToken(m.length, m.offset, rest, d.history, window, offset);
    RunCopyAll(d, window);
    CopyMatch(low, p, before, window, d);
    assert CopyAll(d, window) == Decoder(rest, before + low[..p + m.length], m.offset, 0);
  }

  lemma {:induction false} ReadLiteral(b: Byte, rest: seq<Byte>, history: seq<Byte>, window: nat, offset: Byte)
    requires window <= |history|
    ensures Run(Decoder([Literal(b)] + rest, history, offset, 0), window)
            == Run(Decoder(rest, history + [Low(b)], offset, 0), window)
  {
    var d := Decoder([Literal(b)] + rest, history, offset, 0);
    assert d.input[1..] == rest;
  }

  /** Reading one token takes the decompressor from the text before it to the text after it. */
  lemma {:induction false} ReadOne(t: Token, text: seq<Byte>, low: seq<Byte>, p: nat, before: seq<Byte>, window: nat,
                                   offset: Byte,
                rest: seq<Byte>)
    returns (offset': Byte)
    requires Stands(t, text, p, window) && IsMask(text, low) && window <= |before| + p
    ensures Run(Decoder(TokenBytes(t) + rest, before + low[..p], offset, 0), window)
            == Run(Decoder(rest, before + low[..p + TokenLength(t)], offset', 0), window)
  {
    hide Run;
    match t
    case Plain(b) =>
      offset' := offset;
      assert before + low[..p] + [low[p]] == before + low[..p + 1];
      ReadLiteral(b, rest, before + low[..p], window, offset);
    case Copied(length, o) =>
      offset' := o;
      ReadMatch(low, p, Match(o, length), rest, before, window, offset);
  }

  lemma {:induction false} RunEnds(history: seq<Byte>, window: nat, offset: Byte)
    requires window <= |history|
    ensures Run(Decoder([], history, offset, 0), window) == history
  {
  }

  /** Whatever the choice of tokens, decompression restores the low seven bits of the text. */
  lemma {:induction false} RunInvertsBytes(
    tokens: seq<Token>, text: seq<Byte>, low: seq<Byte>, p: nat, before: seq<Byte>, window: nat, offset: Byte)
    requires AllStand(tokens, text, p, window) && IsMask(text, low) && window <= |before| + p
    ensures p <= |text| && Run(Decoder(Bytes(tokens), before + low[..p], offset, 0), window) == before + low
  {
    hide Run, TokenBytes, IsMask, Stands, TokenLength;
    BytesStep(tokens);
    AllStandStep(tokens, text, p, window);
    hide Bytes, AllStand;
    if tokens == [] {
      SameLength(text, low);
      assert low[..p] == low;
      RunEnds(before + low, window, offset);
    } else {
      var offset' := ReadOne(tokens[0], text, low, p, before, window, offset, Bytes(tokens[1..]));
      RunInvertsBytes(tokens[1..], text, low, p + TokenLength(tokens[0]), before, window, offset');
    }
  }

  lemma {:induction false} SameLength(text: seq<Byte>, low: seq<Byte>)
    requires IsMask(text, low)
    ensures |low| == |text|
  {
  }

  lemma {:induction false} BytesStep(tokens: seq<Token>)
    ensures Bytes(tokens) == if tokens == [] then [] else TokenBytes(tokens[0]) + Bytes(tokens[1..])
  {
  }

  lemma {:induction false} AllStandStep(tokens: seq<Token>, text: seq<Byte>, p: nat, window: nat)
    requires AllStand(tokens, text, p, window)
    ensures tokens == [] ==> p == |text|
    ensures tokens != [] ==>
      && Stands(tokens[0], text, p, window) && p + TokenLength(tokens[0]) <= |text|
      && AllStand(tokens[1..], text, p + TokenLength(tokens[0]), window)
  {
  }

  lemma {:induction false} RunInvertsCompress(text: seq<Byte>, p: nat, before: seq<Byte>, window: nat)
    requires p <= |text| && window <= |before| + p && window <= MAX_WINDOW_SIZE
    ensures Run(Decoder(Compress(text, p, window), before + Mask(text)[..p], 0, 0), window) == before + Mask(text)
  {
    TokensStand(text, p, window);
    RunInvertsBytes(Tokens(text, p, window), text, Mask(text), p, before, window, 0);
  }

  // ----- the two ways to start -----

  /** A fresh decompressor: a window of zeros. */
  function Start(input: seq<Byte>, window: nat): Decoder {
    Decoder(input, Zeros(window), 0, 0)
  }

  /** The iterator compressor may refer to the zeros its buffer starts with. */
  function CompressZeros(bytes: seq<Byte>, window: nat): seq<Byte>
    requires window <= MAX_WINDOW_SIZE
  {
    Compress(Zeros(window) + bytes, window, window)
  }

  /** The list compressor starts with an empty window. */
  function CompressList(bytes: seq<Byte>): seq<Byte> {
    Compress(bytes, 0, MAX_WINDOW_SIZE)
  }

  lemma {:induction false} IteratorRoundTrip(bytes: seq<Byte>, window: nat)
    requires window <= MAX_WINDOW_SIZE
    ensures Decompress(Start(CompressZeros(bytes, window), window), window) == Mask(bytes)
  {
    var text := Zeros(window) + bytes;
    RunInvertsCompress(text, window, [], window);
    assert [] + Mask(text)[..window] == Zeros(window);
    assert ([] + Mask(text))[window..] == Mask(bytes);
  }

  lemma {:induction false} ListRoundTrip(bytes: seq<Byte>)
    ensures Decompress(Start(CompressList(bytes), MAX_WINDOW_SIZE), MAX_WINDOW_SIZE) == Mask(bytes)
  {
    RunInvertsCompress(bytes, 0, Zeros(MAX_WINDOW_SIZE), MAX_WINDOW_SIZE);
    assert Zeros(MAX_WINDOW_SIZE) + Mask(bytes)[..0] == Zeros(MAX_WINDOW_SIZE);
  }

  lemma {:induction false} MaskIsIdentityIffSevenBits(bytes: seq<Byte>)
    ensures Mask(bytes) == bytes <==> forall b <- bytes :: b < 128
  {
    if Mask(bytes) == bytes {
      forall b | b in bytes ensures b < 128 {
        var k :| 0 <= k < |bytes| && bytes[k] == b;
        assert Mask(bytes)[k] == Low(b);
      }
    } else {
      var k :| 0 <= k < |bytes| && Mask(bytes)[k] != bytes[k];
      assert bytes[k] in bytes;
    }
  }

  /** Compression loses nothing exactly when every byte has seven bits. */
  lemma {:induction false} RoundTripIffSevenBits(bytes: seq<Byte>, window: nat)
    requires window <= MAX_WINDOW_SIZE
    ensures Decompress(Start(CompressZeros(bytes, window), window), window) == bytes
            <==> forall b <- bytes :: b < 128
  {
    IteratorRoundTrip(bytes, window);
    MaskIsIdentityIffSevenBits(bytes);
  }
}
