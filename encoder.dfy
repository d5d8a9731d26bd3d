// The encoder: base64 text of the compressed stream laid into the slots of
// the template, one block of the template per TEMPLATE_BYTES bytes. A
// block whose text is shorter than the slots marks its end with '=' and
// fills the remaining slots with random characters of the alphabet.

module Encoder {
  import opened Base64
  import opened Picture
  import opened Streams

  /**
   * re.sub('x', lambda m: f.pop(0), t): every 'x' of t replaced by the next
   * character of f, everything else kept.
   */
  function Fill(t: string, f: string): (r: string)
    requires CountX(t) <= |f|
    ensures |r| == |t|
    decreases |t|
  {
    if |t| == 0 then []
    else if t[0] == 'x' then [f[0]] + Fill(t[1..], f[1..])
    else [t[0]] + Fill(t[1..], f)
  }

  /**
   * The characters _encode_chunk lays into the slots: the encoding without
   * its padding, then, when that is shorter than the slots, '=' and random
   * characters (drawn here from `filler`) up to the number of slots.
   */
  function SlotText(chunk: seq<byte>, filler: nat -> char, slots: nat): (s: string)
    ensures |s| >= slots
  {
    var e := Unpadded(chunk);
    if |e| < slots then e + "=" + Draws(filler, slots - |e| - 1) else e
  }

  /**
   * The slots start with the unpadded encoding; when it is shorter than the
   * slots, a '=' follows it and the text is exactly as long as the slots.
   */
  lemma SlotTextShape(chunk: seq<byte>, filler: nat -> char, slots: nat)
    ensures |SlotText(chunk, filler, slots)| >= |Unpadded(chunk)|
    ensures SlotText(chunk, filler, slots)[..|Unpadded(chunk)|] == Unpadded(chunk)
    ensures |Unpadded(chunk)| < slots ==>
              |SlotText(chunk, filler, slots)| == slots && SlotText(chunk, filler, slots)[|Unpadded(chunk)|] == '='
    ensures |Unpadded(chunk)| >= slots ==> SlotText(chunk, filler, slots) == Unpadded(chunk)
  {
    var e := Unpadded(chunk);
    if |e| < slots {
      assert (e + "=" + Draws(filler, slots - |e| - 1))[..|e|] == e;
    }
  }

  /** The first n characters random.choice draws, the k-th of them being filler(k). */
  function Draws(filler: nat -> char, n: nat): (s: string)
    ensures |s| == n
  {
    if n == 0 then [] else Draws(filler, n - 1) + [filler(n - 1)]
  }

  /** What _encode_chunk returns for a chunk. */
  function ChunkText(template: string, chunk: seq<byte>, filler: nat -> char): (block: string)
    ensures |block| == |template|
  {
    Fill(template, SlotText(chunk, filler, CountX(template)))
  }

  /** _encode_chunk. */
  method EncodeChunk(template: string, inchunk: seq<byte>, filler: nat -> char) returns (block: string)
    ensures block == ChunkText(template, inchunk, filler)
  {
    var chars := CountX(template);
    var echunk := Unpadded(inchunk);
    if |echunk| < chars {
      echunk := PadOut(echunk, chars, filler);
    }
    block := Substitute(template, echunk);
  }

  /** The padding loop of _encode_chunk: '=' and then random characters up to `chars`. */
  method PadOut(echunk: string, chars: nat, filler: nat -> char) returns (padded: string)
    requires |echunk| < chars
    ensures padded == echunk + "=" + Draws(filler, chars - |echunk| - 1)
  {
    padded := echunk + "=";
    var k := 0;
    while |padded| < chars
      invariant k <= chars - |echunk| - 1
      invariant padded == echunk + "=" + Draws(filler, k)
      decreases chars - |padded|
    {
      padded := padded + [filler(k)];
      k := k + 1;
    }
  }

  /** re.sub('x', lambda m: echunk.pop(0), template). */
  method Substitute(template: string, echunk: string) returns (block: string)
    requires CountX(template) <= |echunk|
    ensures block == Fill(template, echunk)
  {
    block := [];
    var i, j := 0, 0;
    while i < |template|
      invariant 0 <= i <= |template|
      invariant j + CountX(template[i..]) == CountX(template)
      invariant block + Fill(template[i..], echunk[j..]) == Fill(template, echunk)
    {
      FillStep(template, echunk, i, j);
      var c := if template[i] == 'x' then echunk[j] else template[i];
      var j' := if template[i] == 'x' then j + 1 else j;
      assert (block + [c]) + Fill(template[i + 1..], echunk[j'..]) == block + ([c] + Fill(template[i + 1..], echunk[j'..]));
      block := block + [c];
      j := j';
      i := i + 1;
    }
    assert template[i..] == [];
  }

  /**
   * The chunks encode cuts its compressed stream into: `size` bytes each,
   * the last one shorter, and no empty chunk.
   */
  function Chunks(data: seq<byte>, size: nat): (cs: seq<seq<byte>>)
    requires size > 0
    ensures Concat(cs) == data
    decreases |data|
  {
    if |data| >= size then
      var rest := Chunks(data[size..], size);
      assert ([data[..size]] + rest)[1..] == rest;
      assert data[..size] + data[size..] == data;
      [data[..size]] + rest
    else if |data| == 0 then []
    else [data]
  }

  /** The blocks written for the chunks: one per chunk, in the chunks' order. */
  function Blocks(template: string, chunks: seq<seq<byte>>, filler: nat -> char): (bs: seq<string>)
    ensures |bs| == |chunks|
    ensures forall k :: 0 <= k < |bs| ==> bs[k] == ChunkText(template, chunks[k], filler)
    decreases |chunks|
  {
    if |chunks| == 0 then []
    else [ChunkText(template, chunks[0], filler)] + Blocks(template, chunks[1..], filler)
  }

  /**
   * encode: `outputs` are what the compressor returns for each read that
   * returned data, `flushed` what it returns at the end of the input; the
   * result is the sequence of blocks written to the output stream.
   */
  method Encode(template: string, outputs: seq<seq<byte>>, flushed: seq<byte>, filler: nat -> char)
      returns (blocks: seq<string>)
    requires CountX(template) >= 4
    ensures blocks == Blocks(template, Chunks(Concat(outputs) + flushed, BytesFor(CountX(template))), filler)
  {
    var size := BytesFor(CountX(template));
    BytesForFits(CountX(template));
    var buf: seq<byte> := [];
    blocks := [];
    ghost var sent: seq<byte> := [];
    var i := 0;
    while i < |outputs|
      invariant 0 <= i <= |outputs|
      invariant sent + buf == Concat(outputs[..i])
      invariant Whole(|sent|, size) && |buf| < size
      invariant blocks == Blocks(template, Chunks(sent, size), filler)
    {
      ConcatStep(outputs, i);
      blocks, sent, buf := Feed(template, blocks, sent, buf, outputs[i], size, filler);
      i := i + 1;
    }
    assert outputs[..i] == outputs;
    blocks, sent, buf := Feed(template, blocks, sent, buf, flushed, size, filler);
    if |buf| > 0 {
      var block := EncodeChunk(template, buf, filler);
      SendChunk(template, sent, buf, size, filler);
      blocks := blocks + [block];
    } else {
      assert sent + buf == sent;
    }
  }

  /**
   * One pass of the outer loop of encode: append what the compressor
   * returned to the buffer and write every whole block it now holds.
   */
  method Feed(template: string, blocks: seq<string>, ghost sent: seq<byte>, buf: seq<byte>, more: seq<byte>,
              size: nat, filler: nat -> char)
      returns (blocks': seq<string>, ghost sent': seq<byte>, buf': seq<byte>)
    requires size > 0 && Whole(|sent|, size)
    requires blocks == Blocks(template, Chunks(sent, size), filler)
    ensures sent' + buf' == sent + buf + more
    ensures Whole(|sent'|, size) && |buf'| < size
    ensures blocks' == Blocks(template, Chunks(sent', size), filler)
  {
    var written, rest, whole := WriteWhole(template, buf + more, size, filler);
    blocks' := blocks + written;
    sent' := sent + whole;
    buf' := rest;
    assert Whole(|sent'|, size) && blocks' == Blocks(template, Chunks(sent', size), filler) by {
      SendWhole(template, sent, whole, size, filler);
      assert |sent'| == |sent| + |whole|;
    }
    assert sent' + buf' == sent + buf + more by {
      AppendAssoc(sent, whole, rest);
      AppendAssoc(sent, buf, more);
    }
  }

  /**
   * The inner loop of encode: while a whole block's worth is buffered, write
   * it and drop it from the buffer. Returns the blocks written and what is
   * left in the buffer.
   */
  method WriteWhole(template: string, buf: seq<byte>, size: nat, filler: nat -> char)
      returns (written: seq<string>, rest: seq<byte>, ghost whole: seq<byte>)
    requires size > 0
    ensures whole + rest == buf && |rest| < size
    ensures Whole(|whole|, size)
    ensures written == Blocks(template, Chunks(whole, size), filler)
  {
    written := [];
    rest := buf;
    whole := [];
    while |rest| >= size
      invariant whole + rest == buf
      invariant Whole(|whole|, size)
      invariant written == Blocks(template, Chunks(whole, size), filler)
      decreases |rest|
    {
      written, whole, rest := WriteOne(template, written, whole, rest, size, filler);
    }
  }

  /** One pass of the inner loop of encode: write the first `size` bytes of the buffer and drop them. */
  method WriteOne(template: string, written: seq<string>, ghost whole: seq<byte>, rest: seq<byte>, size: nat,
                  filler: nat -> char)
      returns (written': seq<string>, ghost whole': seq<byte>, rest': seq<byte>)
    requires 0 < size <= |rest| && Whole(|whole|, size)
    requires written == Blocks(template, Chunks(whole, size), filler)
    ensures whole' + rest' == whole + rest && |rest'| == |rest| - size
    ensures Whole(|whole'|, size)
    ensures written' == Blocks(template, Chunks(whole', size), filler)
  {
    var chunk := rest[..size];
    whole' := whole + chunk;
    rest' := rest[size..];
    var block := EncodeChunk(template, chunk, filler);
    written' := written + [block];
    assert written' == Blocks(template, Chunks(whole', size), filler) by {
      SendChunk(template, whole, chunk, size, filler);
    }
    assert Whole(|whole'|, size) && whole' + rest' == whole + rest by {
      Advance(whole, rest, size);
      WholeStep(|whole|, size);
    }
  }

  lemma Advance<T>(done: seq<T>, rest: seq<T>, size: nat)
    requires size <= |rest|
    ensures (done + rest[..size]) + rest[size..] == done + rest
    ensures |done + rest[..size]| == |done| + size
  {
    assert rest[..size] + rest[size..] == rest;
  }


  // ---------------------------------------------------------------------
  // Properties

  /** n is a whole number of chunks of `size` bytes. */
  predicate Whole(n: nat, size: nat)
    requires size > 0
    decreases n
  {
    n == 0 || (n >= size && Whole(n - size, size))
  }

  lemma {:induction false} WholeAdd(m: nat, n: nat, size: nat)
    requires size > 0 && Whole(m, size) && Whole(n, size)
    ensures Whole(m + n, size)
    decreases m
  {
    if m > 0 {
      WholeAdd(m - size, n, size);
      assert m + n - size == (m - size) + n;
    }
  }

  lemma {:induction false} WholeStep(n: nat, size: nat)
    requires size > 0 && Whole(n, size)
    ensures Whole(n + size, size)
    decreases n
  {
    assert n + size - size == n;
  }

  lemma ConcatStep<T>(xs: seq<seq<T>>, i: nat)
    requires i < |xs|
    ensures Concat(xs[..i + 1]) == Concat(xs[..i]) + xs[i]
  {
    assert xs[..i + 1] == xs[..i] + [xs[i]];
    ConcatAppend(xs[..i], [xs[i]]);
  }

  /** Sending one more chunk after whole chunks appends one block. */
  lemma SendChunk(template: string, sent: seq<byte>, chunk: seq<byte>, size: nat, filler: nat -> char)
    requires size > 0 && Whole(|sent|, size) && 0 < |chunk| <= size
    ensures Blocks(template, Chunks(sent + chunk, size), filler)
            == Blocks(template, Chunks(sent, size), filler) + [ChunkText(template, chunk, filler)]
  {
    ChunksAppend(sent, chunk, size);
    assert Chunks(chunk, size) == [chunk] by {
      if |chunk| == size {
        assert chunk[..size] == chunk && chunk[size..] == [];
      }
    }
    BlocksAppend(template, Chunks(sent, size), [chunk], filler);
  }

  /** Sending whole chunks after whole chunks appends their blocks. */
  lemma SendWhole(template: string, sent: seq<byte>, whole: seq<byte>, size: nat, filler: nat -> char)
    requires size > 0 && Whole(|sent|, size) && Whole(|whole|, size)
    ensures Whole(|sent| + |whole|, size)
    ensures Blocks(template, Chunks(sent + whole, size), filler)
            == Blocks(template, Chunks(sent, size), filler) + Blocks(template, Chunks(whole, size), filler)
  {
    assert Whole(|sent| + |whole|, size) by {
      WholeAdd(|sent|, |whole|, size);
    }
    var xs, ys := Chunks(sent, size), Chunks(whole, size);
    assert Chunks(sent + whole, size) == xs + ys by {
      ChunksAppend(sent, whole, size);
    }
    assert Blocks(template, xs + ys, filler) == Blocks(template, xs, filler) + Blocks(template, ys, filler) by {
      BlocksAppend(template, xs, ys, filler);
    }
  }

  /** Chunking after whole chunks starts afresh. */
  lemma {:induction false} ChunksAppend(a: seq<byte>, b: seq<byte>, size: nat)
    requires size > 0 && Whole(|a|, size)
    ensures Chunks(a + b, size) == Chunks(a, size) + Chunks(b, size)
    decreases |a|
  {
    if |a| == 0 {
      assert a + b == b;
    } else {
      assert (a + b)[..size] == a[..size];
      assert (a + b)[size..] == a[size..] + b;
      ChunksAppend(a[size..], b, size);
    }
  }

  lemma {:induction false} BlocksAppend(template: string, xs: seq<seq<byte>>, ys: seq<seq<byte>>, filler: nat -> char)
    ensures Blocks(template, xs + ys, filler) == Blocks(template, xs, filler) + Blocks(template, ys, filler)
    decreases |xs|
  {
    if |xs| == 0 {
      assert xs + ys == ys;
    } else {
      assert (xs + ys)[1..] == xs[1..] + ys;
      BlocksAppend(template, xs[1..], ys, filler);
    }
  }

  /** Every chunk but the last holds exactly `size` bytes; the last holds 1 to `size`. */
  lemma {:induction false} ChunkSizes(data: seq<byte>, size: nat)
    requires size > 0
    ensures forall k :: 0 <= k < |Chunks(data, size)| ==> 0 < |Chunks(data, size)[k]| <= size
    ensures forall k :: 0 <= k < |Chunks(data, size)| - 1 ==> |Chunks(data, size)[k]| == size
    decreases |data|
  {
    if |data| >= size {
      ChunkSizes(data[size..], size);
    }
  }

  /** What random.choice(charset) may return: one of the 64 characters of the alphabet. */
  ghost predicate FromAlphabet(filler: nat -> char)
  {
    forall k :: IsDigit64(filler(k))
  }

  /** The k-th character drawn is filler(k). */
  lemma {:induction false} DrawsAt(filler: nat -> char, n: nat, k: nat)
    requires k < n
    ensures Draws(filler, n)[k] == filler(k)
    decreases n
  {
    if k < n - 1 {
      DrawsAt(filler, n - 1, k);
    }
  }

  /** A chunk of at most BytesFor(slots) bytes yields exactly `slots` characters, whatever its length. */
  lemma SlotTextLength(chunk: seq<byte>, filler: nat -> char, slots: nat)
    requires |chunk| <= BytesFor(slots)
    ensures |SlotText(chunk, filler, slots)| == slots
  {
    UnpaddedLength(chunk);
    BytesForFits(slots);
    EncodedLengthMonotone(|chunk|, BytesFor(slots));
  }

  lemma EncodedLengthMonotone(m: nat, n: nat)
    requires m <= n
    ensures (4 * m + 2) / 3 <= (4 * n + 2) / 3
  {
  }

  /**
   * A full chunk: with a multiple of four slots, its unpadded encoding
   * fills every slot and no terminator is written.
   */
  lemma FullChunk(chunk: seq<byte>, filler: nat -> char, slots: nat)
    requires slots % 4 == 0 && |chunk| == BytesFor(slots)
    ensures SlotText(chunk, filler, slots) == Unpadded(chunk)
    ensures |Unpadded(chunk)| == slots && AllDigits(Unpadded(chunk))
    ensures '=' !in SlotText(chunk, filler, slots)
  {
    UnpaddedLength(chunk);
    UnpaddedShape(chunk);
    BytesForFits(slots);
    NoPadInDigits(Unpadded(chunk));
  }

  lemma NoPadInDigits(s: string)
    requires AllDigits(s)
    ensures '=' !in s
  {
  }

  /** With a multiple of four slots, a chunk shorter than BytesFor(slots) leaves room for the terminator. */
  lemma ShortChunk(chunk: seq<byte>, slots: nat)
    requires slots % 4 == 0 && |chunk| < BytesFor(slots)
    ensures |Unpadded(chunk)| < slots
  {
    UnpaddedLength(chunk);
    BytesForFits(slots);
  }

  /**
   * A chunk whose encoding is shorter than the slots: the slots hold its
   * encoding, exactly one '=' right after it, and characters of the
   * alphabet after that.
   */
  lemma Terminated(chunk: seq<byte>, filler: nat -> char, slots: nat)
    requires |Unpadded(chunk)| < slots && FromAlphabet(filler)
    ensures var s, e := SlotText(chunk, filler, slots), Unpadded(chunk);
            |s| == slots && s[..|e|] == e &&
            (forall i :: 0 <= i < |s| ==> (s[i] == '=' <==> i == |e|)) &&
            (forall i :: |e| < i < |s| ==> IsDigit64(s[i]))
  {
    var e := Unpadded(chunk);
    var d := Draws(filler, slots - |e| - 1);
    assert AllDigits(e) by {
      UnpaddedShape(chunk);
    }
    assert AllDigits(d) by {
      forall i | 0 <= i < |d| ensures IsDigit64(d[i]) {
        DrawsAt(filler, |d|, i);
      }
    }
    assert SlotText(chunk, filler, slots) == e + "=" + d;
    TerminatorAt(e, d);
  }

  /** Digits, one '=', more digits: the '=' is found exactly once, right after the first digits. */
  lemma TerminatorAt(e: string, d: string)
    requires AllDigits(e) && AllDigits(d)
    ensures var s := e + "=" + d;
            s[..|e|] == e &&
            (forall i :: 0 <= i < |s| ==> (s[i] == '=' <==> i == |e|)) &&
            (forall i :: |e| < i < |s| ==> IsDigit64(s[i]))
  {
    var s := e + "=" + d;
    forall i | 0 <= i < |s|
      ensures (s[i] == '=' <==> i == |e|) && (i > |e| ==> IsDigit64(s[i]))
    {
      if i < |e| {
        assert s[i] == e[i];
      } else if i > |e| {
        assert s[i] == d[i - |e| - 1];
      }
    }
    assert s[..|e|] == e;
  }

  /**
   * _encode_chunk keeps the shape of the template: same length, every
   * character that is not an 'x' unchanged, and the k-th 'x' replaced by
   * the k-th of exactly CountX(template) slot characters.
   */
  lemma BlockShape(template: string, chunk: seq<byte>, filler: nat -> char)
    requires |chunk| <= BytesFor(CountX(template))
    ensures var block, f := ChunkText(template, chunk, filler), SlotText(chunk, filler, CountX(template));
            |f| == CountX(template) && |block| == |template| &&
            (forall i :: 0 <= i < |template| && template[i] != 'x' ==> block[i] == template[i]) &&
            (forall i :: 0 <= i < |template| && template[i] == 'x' ==>
               CountX(template[..i]) < |f| && block[i] == f[CountX(template[..i])])
  {
    var f := SlotText(chunk, filler, CountX(template));
    SlotTextLength(chunk, filler, CountX(template));
    forall i | 0 <= i < |template| && template[i] != 'x'
      ensures Fill(template, f)[i] == template[i]
    {
      FillKeeps(template, f, i);
    }
    forall i | 0 <= i < |template| && template[i] == 'x'
      ensures CountX(template[..i]) < |f| && Fill(template, f)[i] == f[CountX(template[..i])]
    {
      FillPuts(template, f, i);
    }
  }

  /** One step of re.sub: the next character of the template, then the rest. */
  lemma FillStep(t: string, f: string, i: nat, j: nat)
    requires i < |t| && j <= |f| && j + CountX(t[i..]) <= |f|
    ensures CountX(t[i..]) == (if t[i] == 'x' then 1 else 0) + CountX(t[i + 1..])
    ensures Fill(t[i..], f[j..]) == if t[i] == 'x' then [f[j]] + Fill(t[i + 1..], f[j + 1..])
                                    else [t[i]] + Fill(t[i + 1..], f[j..])
  {
    assert t[i..][1..] == t[i + 1..];
    if t[i] == 'x' {
      assert f[j..][1..] == f[j + 1..];
    }
  }

  /** Filling distributes over concatenated template text. */
  lemma {:induction false} FillAppend(a: string, b: string, f: string)
    requires CountX(a) + CountX(b) <= |f|
    ensures CountXAppendHolds(a, b)
    ensures Fill(a + b, f) == Fill(a, f) + Fill(b, f[CountX(a)..])
    decreases |a|
  {
    CountXAppend(a, b);
    if |a| == 0 {
      assert a + b == b;
    } else {
      assert (a + b)[1..] == a[1..] + b;
      if a[0] == 'x' {
        FillAppend(a[1..], b, f[1..]);
        assert f[1..][CountX(a[1..])..] == f[CountX(a)..];
      } else {
        FillAppend(a[1..], b, f);
      }
    }
  }

  predicate CountXAppendHolds(a: string, b: string)
  {
    CountX(a + b) == CountX(a) + CountX(b)
  }

  /** Filling reads only as many characters as there are slots. */
  lemma {:induction false} FillPrefix(t: string, f: string, g: string)
    requires CountX(t) <= |f| && CountX(t) <= |g|
    requires f[..CountX(t)] == g[..CountX(t)]
    ensures Fill(t, f) == Fill(t, g)
    decreases |t|
  {
    if |t| > 0 {
      if t[0] == 'x' {
        assert f[0] == f[..CountX(t)][0] && g[0] == g[..CountX(t)][0];
        assert f[1..][..CountX(t[1..])] == f[..CountX(t)][1..];
        assert g[1..][..CountX(t[1..])] == g[..CountX(t)][1..];
        FillPrefix(t[1..], f[1..], g[1..]);
      } else {
        FillPrefix(t[1..], f, g);
      }
    }
  }

  /** re.sub keeps every character that is not an 'x' ... */
  lemma {:induction false} FillKeeps(t: string, f: string, i: nat)
    requires CountX(t) <= |f| && i < |t| && t[i] != 'x'
    ensures Fill(t, f)[i] == t[i]
    decreases |t|
  {
    if i > 0 {
      if t[0] == 'x' {
        FillKeeps(t[1..], f[1..], i - 1);
      } else {
        FillKeeps(t[1..], f, i - 1);
      }
    }
  }

  /** ... and puts the k-th character of f where the k-th 'x' was. */
  lemma {:induction false} FillPuts(t: string, f: string, i: nat)
    requires CountX(t) <= |f| && i < |t| && t[i] == 'x'
    ensures CountX(t[..i]) < |f|
    ensures Fill(t, f)[i] == f[CountX(t[..i])]
    decreases |t|
  {
    CountXAppend(t[..i], t[i..]);
    assert t[..i] + t[i..] == t;
    assert t[i..][1..] == t[i + 1..];
    if i > 0 {
      assert t[1..][..i - 1] == t[..i][1..];
      if t[0] == 'x' {
        FillPuts(t[1..], f[1..], i - 1);
      } else {
        FillPuts(t[1..], f, i - 1);
      }
    }
  }
}
