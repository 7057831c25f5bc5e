/** The compressor of `compile.scm`: a buffer list of which the lookahead is a tail. It writes the
    same greedy tokens as module `Lzss` over the whole input, however the input is cut into writes. */
module ListCompressors {
  import opened IntegerCodes
  import opened Lzss

  /** The record's lists are kept as sequences. `current` is a tail of the `buffer` list, so an element
      appended to the last pair shows in both, unless `current` has run out of pairs. */
  class ListCompressor {
    var buffer: seq<Byte>
    var current: seq<Byte>
    var back: nat
    var ahead: nat
    // The bytes written out.
    var output: seq<Byte>
    // The bytes pushed so far, the position of `current` in them, and the tokens written.
    ghost var text: seq<Byte>
    ghost var p: nat

    ghost predicate Valid()
      reads this
    {
      && p <= |text|
      && back == Min(MAX_WINDOW_SIZE, p)
      && buffer == text[p - back..]
      && current == text[p..]
      && ahead == |current|
      && forall k :: 0 <= k < |text| ==> text[k] < 128
    }

    /** Whatever is pushed later, the output so far is the start of the compressed text. */
    ghost predicate OnTrack()
      reads this
      requires Valid()
    {
      Tracks(text, output, p)
    }

    constructor ()
      ensures Valid() && OnTrack() && text == [] && output == [] && p == 0
    {
      buffer, current, back, ahead, output := [], [], 0, 0, [];
      text, p := [], 0;
    }

    /** Appends a byte to the lists. When `current` has run out of a buffer that is not empty, it stays empty and
        the byte is never looked at. */
    method Push(x: Byte)
      modifies this
      ensures text == old(text) + [x] && p == old(p) && output == old(output)
      ensures ahead == old(ahead) + 1 && back == old(back) && buffer == old(buffer) + [x]
      ensures current == if old(buffer) == [] then [x] else if old(current) == [] then [] else old(current) + [x]
      ensures old(Valid()) ==>
        (Valid() <==> x < 128 && (old(buffer) == [] || old(current) != []))
    {
      assert Valid() ==> (text + [x])[p..] == text[p..] + [x];
      assert Valid() ==> (text + [x])[p - back..] == text[p - back..] + [x];
      if buffer != [] {
        // The last pair is shared with `current` only while `current` has a pair.
        current := if current == [] then [] else current + [x];
        buffer := buffer + [x];
      } else {
        buffer := [x];
        current := buffer;
      }
      ahead := ahead + 1;
      text := text + [x];
      assert text[|text| - 1] == x;
      assert old(Valid()) ==> |text[p..]| == |old(current)| + 1;
    }

    method Pop(n: nat) returns (x: Byte)
      requires Valid() && 0 < n <= |current|
      modifies this
      ensures Valid() && text == old(text) && p == old(p) + n && output == old(output)
      ensures x == text[old(p)]
    {
      x := current[0];
      current := current[n..];
      ahead := ahead - n;
      back := back + n;
      if back > MAX_WINDOW_SIZE {
        buffer := buffer[back - MAX_WINDOW_SIZE..];
        back := MAX_WINDOW_SIZE;
      }
      p := p + n;
    }

    /** The length of the match that starts `i` bytes into the buffer. */
    method MatchAt(i: nat) returns (n: nat)
      requires Valid() && i < back
      ensures n == MatchLength(text, p, back - 1 - i)
    {
      n := 0;
      while n < |current| && buffer[i + n] == current[n] && n < MAX_LENGTH
        invariant n <= MAX_LENGTH && n <= |current|
        invariant MatchLength(text, p, back - 1 - i) == MatchFrom(text, p, back - 1 - i, n)
      {
        n := n + 1;
      }
    }

    /** The longest match, the last one in the buffer where there are several. */
    method FindMatch() returns (i: nat, n: nat)
      requires Valid()
      ensures back == 0 ==> n == 0
      ensures back > 0 ==> i < back && Best(text, p, back) == Match(back - 1 - i, n)
    {
      hide MatchLength, Best;
      i, n := 0, 0;
      var k := 0;
      while k < back
        invariant k <= back
        invariant k == 0 ==> n == 0
        invariant k > 0 ==> i < k && n == MatchLength(text, p, back - 1 - i)
        invariant forall o :: back - k <= o < back ==>
          MatchLength(text, p, o) <= n && (o < back - 1 - i ==> MatchLength(text, p, o) < n)
      {
        var m := MatchAt(k);
        if m >= n {
          i, n := k, m;
        }
        k := k + 1;
      }
      if back > 0 {
        BestIsUnique(text, p, back, Match(back - 1 - i, n));
      }
    }

    /** Writes one token. */
    method WriteNext()
      requires Valid() && current != []
      modifies this
      ensures Valid() && text == old(text)
      ensures var t := TokenAt(text, old(p), MAX_WINDOW_SIZE);
              p == old(p) + TokenLength(t) && output == old(output) + TokenBytes(t)
    {
      hide Best;
      var i, n := FindMatch();
      if n > MIN_LENGTH {
        var length: Byte := 1 + 2 * (n - 1);
        var offset: Byte := back - i - 1;
        output := output + [length] + [offset];
        var x := Pop(n);
      } else {
        var x := Pop(1);
        output := output + [Literal(x)];
      }
    }

    /** The state between writes: the lookahead is short but, once anything was written, not empty. */
    ghost predicate Ready()
      reads this
    {
      Valid() && OnTrack() && ahead <= MAX_LENGTH && (current == [] ==> text == [])
    }

    method Write(x: Byte)
      requires Ready() && x < 128
      modifies this
      ensures Ready() && text == old(text) + [x] && current != []
    {
      hide Tracks, TokenAt, TokenBytes;
      Push(x);
      ExtendTrack(old(text), x, output, p);
      if ahead > MAX_LENGTH {
        ghost var before := output;
        WriteNext();
        AdvanceTrack(text, before, old(p));
      }
    }

    /** Writes out the lookahead; what was written is then the compressed form of what was pushed. */
    method Flush()
      requires Ready()
      modifies this
      ensures Valid() && text == old(text) && current == []
      ensures output == CompressList(text)
    {
      hide Compress, TokenAt, TokenBytes;
      assert text + [] == text;
      while current != []
        invariant Valid() && text == old(text)
        invariant CompressList(text) == output + Compress(text, p, MAX_WINDOW_SIZE)
        decreases |current|
      {
        CompressStep(text, p, MAX_WINDOW_SIZE);
        ghost var before, t := output, TokenAt(text, p, MAX_WINDOW_SIZE);
        ghost var rest := Compress(text, p + TokenLength(t), MAX_WINDOW_SIZE);
        WriteNext();
        assert before + (TokenBytes(t) + rest) == before + TokenBytes(t) + rest;
      }
      CompressStep(text, p, MAX_WINDOW_SIZE);
    }
  }

  ghost predicate Tracks(text: seq<Byte>, output: seq<Byte>, p: nat)
    requires p <= |text|
  {
    forall more: seq<Byte> ::
      CompressList(text + more) == output + Compress(text + more, p, MAX_WINDOW_SIZE)
  }

  lemma {:induction false} ExtendTrack(text: seq<Byte>, x: Byte, output: seq<Byte>, p: nat)
    requires p <= |text| && Tracks(text, output, p)
    ensures Tracks(text + [x], output, p)
  {
    hide Compress;
    forall more: seq<Byte>
      ensures CompressList(text + [x] + more) == output + Compress(text + [x] + more, p, MAX_WINDOW_SIZE)
    {
      assert text + [x] + more == text + ([x] + more);
    }
  }

  lemma {:induction false} AdvanceTrack(text: seq<Byte>, output: seq<Byte>, p: nat)
    requires p + MAX_LENGTH <= |text| && Tracks(text, output, p)
    ensures var t := TokenAt(text, p, MAX_WINDOW_SIZE);
            Tracks(text, output + TokenBytes(t), p + TokenLength(t))
  {
    hide Compress, TokenAt, TokenBytes;
    var t := TokenAt(text, p, MAX_WINDOW_SIZE);
    forall more: seq<Byte>
      ensures CompressList(text + more)
              == output + TokenBytes(t) + Compress(text + more, p + TokenLength(t), MAX_WINDOW_SIZE)
    {
      var rest := Compress(text + more, p + TokenLength(t), MAX_WINDOW_SIZE);
      TokenLooksAhead(text, more, p);
      CompressStep(text + more, p, MAX_WINDOW_SIZE);
      assert output + (TokenBytes(t) + rest) == output + TokenBytes(t) + rest;
    }
  }

  // ----- a token depends on no more than the next `MAX_LENGTH` bytes -----

  lemma {:induction false} MatchLooksAhead(text: seq<Byte>, more: seq<Byte>, p: nat, offset: nat, j: nat)
    requires offset < p && p + MAX_LENGTH <= |text| && j <= MAX_LENGTH
    ensures MatchFrom(text + more, p, offset, j) == MatchFrom(text, p, offset, j)
    decreases MAX_LENGTH - j
  {
    if j < MAX_LENGTH {
      MatchLooksAhead(text, more, p, offset, j + 1);
    }
  }

  lemma {:induction false} BestLooksAhead(text: seq<Byte>, more: seq<Byte>, p: nat, k: nat)
    requires k <= p && p + MAX_LENGTH <= |text|
    ensures Best(text + more, p, k) == Best(text, p, k)
  {
    hide MatchFrom;
    if k > 0 {
      MatchLooksAhead(text, more, p, k - 1, 0);
      BestLooksAhead(text, more, p, k - 1);
    }
  }

  lemma {:induction false} TokenLooksAhead(text: seq<Byte>, more: seq<Byte>, p: nat)
    requires p + MAX_LENGTH <= |text|
    ensures TokenAt(text + more, p, MAX_WINDOW_SIZE) == TokenAt(text, p, MAX_WINDOW_SIZE)
  {
    BestLooksAhead(text, more, p, Min(MAX_WINDOW_SIZE, p));
  }
}
