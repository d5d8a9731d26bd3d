// Reading the pictures back: the decoder's line scan recovers, from the text
// the encoder writes, exactly the base64 text of the compressed stream, and
// the decoder's output is that stream. The '*', ' ' and newline of the
// picture are all outside the characters the decoder keeps, every line
// with a slot carries the "**" marker, and the terminator of a short last
// block stops the scan.

module RoundTrip {
  import opened Base64
  import opened Streams
  import opened Picture
  import opened Encoder
  import opened Decoder

  predicate AllPayload(f: string)
  {
    forall i :: 0 <= i < |f| ==> IsPayload(f[i])
  }

  // ---------------------------------------------------------------------
  // Facts about the decoder's filters

  lemma {:induction false} KeptAppend(a: string, b: string)
    ensures Kept(a + b) == Kept(a) + Kept(b)
    decreases |a|
  {
    if |a| == 0 {
      assert a + b == b;
    } else {
      assert (a + b)[1..] == a[1..] + b;
      KeptAppend(a[1..], b);
    }
  }

  /** The text before the first terminator of a concatenation. */
  lemma {:induction false} BeforeTerminatorAppend(a: string, b: string)
    ensures ('=' in a + b) <==> ('=' in a || '=' in b)
    ensures BeforeTerminator(a + b) == if '=' in a then BeforeTerminator(a) else a + BeforeTerminator(b)
    decreases |a|
  {
    if |a| == 0 {
      assert a + b == b;
    } else {
      assert (a + b)[1..] == a[1..] + b;
      assert (a + b)[0] == a[0];
      BeforeTerminatorAppend(a[1..], b);
      if a[0] != '=' {
        assert ('=' in a) <==> ('=' in a[1..]);
      }
    }
  }

  /**
   * What the decoder reads from slot characters s followed by lines from
   * which it reads `after`: the characters up to the first terminator, and
   * `after` only when there is none.
   */
  function Scan(s: string, after: string): string
  {
    if '=' in s then BeforeTerminator(s) else s + after
  }

  lemma BeforeTerminatorNone(s: string)
    requires '=' !in s
    ensures BeforeTerminator(s) == s
  {
  }

  // ---------------------------------------------------------------------
  // One filled line, one filled picture

  /** A line of the drawing filled with payload characters: no newline appears, and the decoder keeps exactly the slot characters. */
  lemma FillLine(s: string, f: string)
    requires forall i :: 0 <= i < |s| ==> s[i] == ' ' || s[i] == '*' || s[i] == 'x'
    requires AllPayload(f) && CountX(s) <= |f|
    ensures forall i :: 0 <= i < |Fill(s, f)| ==> Fill(s, f)[i] != '\n'
    ensures Kept(Fill(s, f)) == f[..CountX(s)]
  {
    var t := Fill(s, f);
    forall i | 0 <= i < |t| ensures t[i] != '\n' {
      if s[i] == 'x' {
        FillPuts(s, f, i);
        assert IsPayload(f[CountX(s[..i])]);
      } else {
        FillKeeps(s, f, i);
      }
    }
    FillKept(s, f);
  }

  lemma {:induction false} FillKept(s: string, f: string)
    requires forall i :: 0 <= i < |s| ==> s[i] == ' ' || s[i] == '*' || s[i] == 'x'
    requires AllPayload(f) && CountX(s) <= |f|
    ensures Kept(Fill(s, f)) == f[..CountX(s)]
    decreases |s|
  {
    if |s| > 0 {
      var t := Fill(s, f);
      if s[0] == 'x' {
        assert Kept(Fill(s[1..], f[1..])) == f[1..][..CountX(s[1..])] by {
          PayloadFrom(f, 1);
          FillKept(s[1..], f[1..]);
        }
        assert t[0] == f[0] && t[1..] == Fill(s[1..], f[1..]);
        assert Kept(t) == [f[0]] + Kept(t[1..]) by {
          assert IsPayload(f[0]);
        }
        assert f[..CountX(s)] == [f[0]] + f[1..][..CountX(s[1..])];
      } else {
        FillKept(s[1..], f);
        assert t[0] == s[0] && t[1..] == Fill(s[1..], f);
        assert Kept(t) == Kept(t[1..]);
      }
    }
  }

  /** What the decoder takes from one filled line of the picture, followed by more lines. */
  lemma FilledLine(l: Line, f: string, rest: seq<string>)
    requires l.Plain? ==> Slots(l.runs) == 0
    requires AllPayload(f) && LineSlots(l) <= |f|
    ensures CountX(LineText(l)) == LineSlots(l)
    ensures forall i :: 0 <= i < |Fill(LineText(l), f)| ==> Fill(LineText(l), f)[i] != '\n'
    ensures var k := LineSlots(l);
            Extracted([Fill(LineText(l), f) + "\n"] + rest) ==
              Scan(f[..k], Extracted(rest))
  {
    var k := LineSlots(l);
    CountXLine(l);
    var x := Fill(LineText(l), f);
    var line := x + "\n";
    FillLine(LineText(l), f);
    KeptAppend(x, "\n");
    assert Kept("\n") == [];
    assert Kept(line) == f[..k];
    var lines := [line] + rest;
    assert lines[0] == line && lines[1..] == rest;
    if l.Marked? {
      var at := |RunsText(l.left)|;
      assert LineText(l)[at] == '*' && LineText(l)[at + 1] == '*';
      FillKeeps(LineText(l), f, at);
      FillKeeps(LineText(l), f, at + 1);
      assert line[at] == '*' && line[at + 1] == '*';
      assert HasMarker(line);
      if '=' !in f[..k] {
        BeforeTerminatorNone(f[..k]);
      }
    } else {
      assert f[..k] == [];
    }
  }

  lemma PayloadFrom(f: string, k: nat)
    requires AllPayload(f) && k <= |f|
    ensures AllPayload(f[k..])
  {
    forall i | 0 <= i < |f[k..]| ensures IsPayload(f[k..][i]) {
      assert f[k..][i] == f[k + i];
    }
  }

  /** The text of a row filled: its first line, then the rows below filled with the slot characters left over. */
  lemma RowText(l: Line, b: Art, f: string)
    requires CountX(Text(b)) == ArtSlots(b) && LineSlots(l) + ArtSlots(b) <= |f|
    ensures CountX(LineText(l)) == LineSlots(l)
    ensures CountX(Text(Row(l, b))) == LineSlots(l) + ArtSlots(b)
    ensures Fill(Text(Row(l, b)), f) == (Fill(LineText(l), f) + "\n") + Fill(Text(b), f[LineSlots(l)..])
  {
    var k := LineSlots(l);
    CountXLine(l);
    var lt := LineText(l) + "\n";
    assert Text(Row(l, b)) == lt + Text(b);
    assert CountX(lt) == k by {
      CountXAppend(LineText(l), "\n");
      assert CountX("\n") == 0;
    }
    assert Fill(lt, f) == Fill(LineText(l), f) + "\n" by {
      FillAppend(LineText(l), "\n", f);
      assert Fill("\n", f[k..]) == "\n";
    }
    FillAppend(lt, Text(b), f);
  }

  /** A line with its newline, then more text: the line is read first, alone. */
  lemma LineFirst(x: string, rest: string)
    requires forall i :: 0 <= i < |x| ==> x[i] != '\n'
    ensures SplitLines((x + "\n") + rest) == [x + "\n"] + SplitLines(rest)
  {
    OneLine(x);
    SplitLinesAppend(x + "\n", rest);
  }

  /** The scan of two pieces of slot text in turn is the scan of both at once. */
  lemma ScanAppend(a: string, b: string, after: string)
    ensures Scan(a, Scan(b, after)) == Scan(a + b, after)
  {
    BeforeTerminatorAppend(a, b);
    if '=' !in a && '=' !in b {
      AppendAssoc(a, b, after);
    }
  }

  /**
   * What the decoder takes from a whole filled picture followed by the text
   * y: the slot characters up to the first terminator, and then, only when
   * the slots hold no terminator, what it takes from y.
   */
  lemma {:induction false} FilledArt(a: Art, f: string, y: string)
    requires SlotsMarked(a) && AllPayload(f) && ArtSlots(a) == |f|
    ensures CountX(Text(a)) == |f|
    ensures Extracted(SplitLines(Fill(Text(a), f) + y)) == Scan(f, Extracted(SplitLines(y)))
  {
    CountXText(a);
    match a
    case Done =>
      assert Fill(Text(a), f) + y == y;
      assert f == [];
    case Row(l, b) =>
      var k := LineSlots(l);
      var after := Extracted(SplitLines(y));
      var whole := Extracted(SplitLines(Fill(Text(a), f) + y));
      assert CountX(Text(b)) == ArtSlots(b) by {
        CountXText(b);
      }
      var below := Extracted(SplitLines(Fill(Text(b), f[k..]) + y));
      assert below == Scan(f[k..], after) by {
        PayloadFrom(f, k);
        FilledArt(b, f[k..], y);
      }
      assert whole == Scan(f[..k], below) by {
        RowRead(l, b, f, y);
      }
      JoinScans(whole, below, f, k, after);
  }

  lemma JoinScans(whole: string, below: string, f: string, k: nat, after: string)
    requires k <= |f|
    requires whole == Scan(f[..k], below)
    requires below == Scan(f[k..], after)
    ensures whole == Scan(f, after)
  {
    ScanAppend(f[..k], f[k..], after);
    assert f[..k] + f[k..] == f;
  }

  /** A filled row followed by y: the decoder scans the first line's slot characters, then reads on into the rest. */
  lemma RowRead(l: Line, b: Art, f: string, y: string)
    requires l.Plain? ==> Slots(l.runs) == 0
    requires AllPayload(f) && LineSlots(l) + ArtSlots(b) <= |f|
    requires CountX(Text(b)) == ArtSlots(b)
    ensures CountX(Text(Row(l, b))) == LineSlots(l) + ArtSlots(b)
    ensures Extracted(SplitLines(Fill(Text(Row(l, b)), f) + y))
              == Scan(f[..LineSlots(l)], Extracted(SplitLines(Fill(Text(b), f[LineSlots(l)..]) + y)))
  {
    var k := LineSlots(l);
    CountXLine(l);
    CountXText(Row(l, b));
    var line := Fill(LineText(l), f) + "\n";
    var tail := Fill(Text(b), f[k..]);
    var text := Fill(Text(Row(l, b)), f);
    assert SplitLines(text + y) == [line] + SplitLines(tail + y) by {
      RowLines(l, b, f, y);
    }
    FilledLine(l, f, SplitLines(tail + y));
  }

  /** The lines of a filled row followed by y: its first line, then the lines of the rest. */
  lemma RowLines(l: Line, b: Art, f: string, y: string)
    requires l.Plain? ==> Slots(l.runs) == 0
    requires AllPayload(f) && LineSlots(l) + ArtSlots(b) <= |f|
    requires CountX(Text(b)) == ArtSlots(b)
    ensures CountX(LineText(l)) == LineSlots(l)
    ensures CountX(Text(Row(l, b))) == LineSlots(l) + ArtSlots(b)
    ensures SplitLines(Fill(Text(Row(l, b)), f) + y)
              == [Fill(LineText(l), f) + "\n"] + SplitLines(Fill(Text(b), f[LineSlots(l)..]) + y)
  {
    RowText(l, b, f);
    var x := Fill(LineText(l), f);
    var tail := Fill(Text(b), f[LineSlots(l)..]);
    AppendAssoc(x + "\n", tail, y);
    FilledLine(l, f, []);
    LineFirst(x, tail + y);
  }

  // ---------------------------------------------------------------------
  // What a block's slots hold

  /** A full chunk: its encoding fills the slots, with no terminator. */
  lemma FullSlots(chunk: seq<byte>, filler: nat -> char, slots: nat)
    requires slots % 4 == 0 && |chunk| == BytesFor(slots)
    ensures var f := SlotText(chunk, filler, slots);
            |f| == slots && AllPayload(f) && '=' !in f && f == Unpadded(chunk)
  {
    FullChunk(chunk, filler, slots);
  }

  /** A shorter chunk: its encoding, then the terminator, all of it payload. */
  lemma ShortSlots(chunk: seq<byte>, filler: nat -> char, slots: nat)
    requires |Unpadded(chunk)| < slots && FromAlphabet(filler)
    ensures var f := SlotText(chunk, filler, slots);
            |f| == slots && AllPayload(f) && '=' in f && BeforeTerminator(f) == Unpadded(chunk)
  {
    var f := SlotText(chunk, filler, slots);
    var e := Unpadded(chunk);
    UnpaddedShape(chunk);
    Terminated(chunk, filler, slots);
    forall i | 0 <= i < |f| ensures IsPayload(f[i]) {
      if i < |e| {
        assert f[i] == f[..|e|][i] == e[i];
      }
    }
    var rest := f[|e|..];
    assert f == e + rest;
    assert rest[0] == '=';
    BeforeTerminatorAppend(e, rest);
  }

  // ---------------------------------------------------------------------
  // Blocks and the whole text

  /** A picture the decoder can read: slots only on marked lines, a multiple of four of them. */
  predicate Readable(a: Art)
  {
    SlotsMarked(a) && ArtSlots(a) % 4 == 0 && ArtSlots(a) >= 4
  }

  /** The text encode writes for a compressed stream: one filled template per chunk. */
  function Encoded(template: string, data: seq<byte>, filler: nat -> char): (text: string)
    requires CountX(template) >= 4
  {
    Concat(Blocks(template, Chunks(data, BytesFor(CountX(template))), filler))
  }

  /**
   * One block read back: a full chunk gives its unpadded encoding and the
   * scan goes on; a shorter one gives its encoding and the scan stops at
   * its terminator, whatever follows.
   */
  lemma FilledBlock(a: Art, chunk: seq<byte>, filler: nat -> char, y: string)
    requires Readable(a) && 0 < |chunk| <= BytesFor(ArtSlots(a)) && FromAlphabet(filler)
    ensures CountX(Text(a)) == ArtSlots(a)
    ensures Extracted(SplitLines(ChunkText(Text(a), chunk, filler) + y)) ==
              if |chunk| == BytesFor(ArtSlots(a)) then Unpadded(chunk) + Extracted(SplitLines(y))
              else Unpadded(chunk)
  {
    var slots := ArtSlots(a);
    CountXText(a);
    var f := SlotText(chunk, filler, slots);
    if |chunk| == BytesFor(slots) {
      FullSlots(chunk, filler, slots);
      BeforeTerminatorNone(f);
    } else {
      ShortChunk(chunk, slots);
      ShortSlots(chunk, filler, slots);
    }
    FilledArt(a, f, y);
  }

  /** The first block of a stream that fills it: its unpadded encoding, then the rest of the text read on. */
  lemma EncodedHead(a: Art, data: seq<byte>, filler: nat -> char, y: string)
    requires Readable(a) && FromAlphabet(filler) && |data| >= BytesFor(ArtSlots(a))
    ensures CountX(Text(a)) == ArtSlots(a)
    ensures Extracted(SplitLines(Encoded(Text(a), data, filler) + y)) ==
              Unpadded(data[..BytesFor(ArtSlots(a))]) +
              Extracted(SplitLines(Encoded(Text(a), data[BytesFor(ArtSlots(a))..], filler) + y))
  {
    CountXText(a);
    var t := Text(a);
    var size := BytesFor(ArtSlots(a));
    var head, rest := data[..size], data[size..];
    var more := Encoded(t, rest, filler);
    assert Encoded(t, data, filler) + y == ChunkText(t, head, filler) + (more + y) by {
      EncodedSplit(t, data, filler);
      AppendAssoc(ChunkText(t, head, filler), more, y);
    }
    FilledBlock(a, head, filler, more + y);
  }

  /** The text written for a stream of at least one chunk: the first block, then the text for the rest. */
  lemma EncodedSplit(t: string, data: seq<byte>, filler: nat -> char)
    requires CountX(t) >= 4 && |data| >= BytesFor(CountX(t))
    ensures Encoded(t, data, filler) ==
              ChunkText(t, data[..BytesFor(CountX(t))], filler) + Encoded(t, data[BytesFor(CountX(t))..], filler)
  {
    var size := BytesFor(CountX(t));
    var cs := Chunks(data, size);
    var bs := Blocks(t, cs, filler);
    assert cs[1..] == Chunks(data[size..], size);
    assert bs[0] == ChunkText(t, data[..size], filler);
    assert bs[1..] == Blocks(t, Chunks(data[size..], size), filler);
  }

  /**
   * The text written for a compressed stream, followed by y, read back: the
   * unpadded encoding of the stream, and what y holds only when the stream
   * filled its last block (then no terminator was written).
   */
  lemma EncodedStream(a: Art, data: seq<byte>, filler: nat -> char, y: string)
    requires Readable(a) && FromAlphabet(filler)
    ensures CountX(Text(a)) == ArtSlots(a)
    ensures Extracted(SplitLines(Encoded(Text(a), data, filler) + y)) ==
              if |data| % BytesFor(ArtSlots(a)) == 0 then Unpadded(data) + Extracted(SplitLines(y))
              else Unpadded(data)
  {
    CountXText(a);
    var t := Text(a);
    var size := BytesFor(ArtSlots(a));
    var read := d => Extracted(SplitLines(Encoded(t, d, filler) + y));
    forall h, r {:trigger read(h + r)} | |h| == size
      ensures read(h + r) == Unpadded(h) + read(r)
    {
      var d := h + r;
      assert d[..size] == h && d[size..] == r;
      EncodedHead(a, d, filler, y);
    }
    forall d {:trigger read(d)} | 0 < |d| < size
      ensures read(d) == Unpadded(d)
    {
      EncodedShort(a, d, filler, y);
    }
    assert read([]) == Extracted(SplitLines(y)) by {
      EncodedShort(a, [], filler, y);
    }
    BytesForWhole(ArtSlots(a));
    ReadStream(read, size, Extracted(SplitLines(y)), data);
    WholeMod(|data|, size);
  }

  /**
   * The induction behind EncodedStream, for any reading of a stream that
   * takes whole blocks one at a time: the reading of the stream is its
   * unpadded encoding, followed by what comes after only when the stream
   * ends on a whole block.
   */
  lemma {:induction false} ReadStream(read: seq<byte> -> string, size: nat, after: string, data: seq<byte>)
    requires size > 0 && size % 3 == 0
    requires forall h, r {:trigger read(h + r)} :: |h| == size ==> read(h + r) == Unpadded(h) + read(r)
    requires forall d {:trigger read(d)} :: 0 < |d| < size ==> read(d) == Unpadded(d)
    requires read([]) == after
    ensures read(data) == if Whole(|data|, size) then Unpadded(data) + after else Unpadded(data)
    decreases |data|
  {
    if |data| >= size {
      var head, rest := data[..size], data[size..];
      SplitAt(data, size);
      assert read(data) == Unpadded(head) + read(rest);
      assert Unpadded(data) == Unpadded(head) + Unpadded(rest) by {
        UnpaddedAppend(head, rest);
      }
      assert |data| - size == |rest|;
      ReadStream(read, size, after, rest);
      JoinStream(read(data), read(rest), Unpadded(head), Unpadded(rest), Unpadded(data),
                 after, Whole(|data|, size), Whole(|rest|, size));
    } else if |data| == 0 {
      assert data == [] && Unpadded(data) == [];
    }
  }

  /** A whole number of chunks is a length the chunk size divides. */
  lemma {:induction false} WholeMod(n: nat, size: nat)
    requires size > 0
    ensures Whole(n, size) <==> n % size == 0
    decreases n
  {
    if n >= size {
      WholeMod(n - size, size);
      ModAfter(n, size);
    } else {
      SmallMod(n, size);
    }
  }

  /** A stream shorter than a block: nothing, or one block with its terminator. */
  lemma EncodedShort(a: Art, data: seq<byte>, filler: nat -> char, y: string)
    requires Readable(a) && FromAlphabet(filler) && |data| < BytesFor(ArtSlots(a))
    ensures CountX(Text(a)) == ArtSlots(a)
    ensures Extracted(SplitLines(Encoded(Text(a), data, filler) + y)) ==
              if |data| == 0 then Extracted(SplitLines(y)) else Unpadded(data)
  {
    CountXText(a);
    var t := Text(a);
    var size := BytesFor(ArtSlots(a));
    if |data| > 0 {
      assert Chunks(data, size) == [data];
      FilledBlock(a, data, filler, y);
    } else {
      assert Encoded(t, data, filler) + y == y;
    }
  }

  lemma SplitAt<T>(s: seq<T>, k: nat)
    requires k <= |s|
    ensures s[..k] + s[k..] == s
  {
  }

  lemma JoinStream(whole: string, tail: string, first: string, rest: string, all: string, after: string,
                   full: bool, restFull: bool)
    requires whole == first + tail && all == first + rest && full == restFull
    requires tail == if restFull then rest + after else rest
    ensures whole == if full then all + after else all
  {
  }

  /** Taking one chunk off a stream leaves its remainder modulo the chunk size unchanged. */
  lemma ModAfter(n: nat, size: nat)
    requires 0 < size <= n
    ensures (n - size) % size == n % size
  {
    var q, r := (n - size) / size, (n - size) % size;
    assert n == (q + 1) * size + r;
    DivModUnique(n, size, q + 1, r);
  }

  lemma SmallMod(n: nat, d: nat)
    requires n < d
    ensures n % d == n
  {
    DivModUnique(n, d, 0, n);
  }

  lemma DivModUnique(n: nat, d: nat, q: nat, r: nat)
    requires r < d && n == q * d + r
    ensures n % d == r
  {
    var q' := n / d;
    if q' > q {
      MulGap(q', q, d);
    } else if q' < q {
      MulGap(q, q', d);
    }
  }

  lemma {:induction false} MulGap(a: nat, b: nat, d: nat)
    requires a > b
    ensures a * d >= b * d + d
    decreases a - b
  {
    if a > b + 1 {
      MulGap(a - 1, b, d);
      assert a * d == (a - 1) * d + d;
    }
  }

  /** decode(encode(x)) == x for any readable picture, the compressor taken as the identity. */
  lemma RoundTripWith(a: Art, data: seq<byte>, filler: nat -> char)
    requires Readable(a) && FromAlphabet(filler)
    ensures CountX(Text(a)) == ArtSlots(a)
    ensures Decoded(SplitLines(Encoded(Text(a), data, filler))) == Some(data)
  {
    EncodedStream(a, data, filler, []);
    assert Encoded(Text(a), data, filler) + [] == Encoded(Text(a), data, filler);
    assert SplitLines([]) == [] && Extracted([]) == [];
    assert Extracted(SplitLines(Encoded(Text(a), data, filler))) == Unpadded(data);
    DecodeUnpadded(data);
  }

  /** The pony is a readable picture. */
  lemma PonyReadable()
    ensures Readable(Pony) && Template == Text(Pony)
    ensures CountX(Template) == TemplateChars && TemplateBytes == BytesFor(ArtSlots(Pony))
  {
    var n := ArtSlots(Pony);
    assert n == 1264 && SlotsMarked(Pony) by {
      PonySlots();
    }
    assert Readable(Pony);
    TemplateCharsCount();
  }

  /**
   * decode(encode(x)) == x: the decoder recovers every compressed byte the
   * encoder was given, whatever the camouflage characters drawn.
   */
  lemma RoundTrip(data: seq<byte>, filler: nat -> char)
    requires FromAlphabet(filler)
    ensures CountX(Template) == TemplateChars
    ensures Decoded(SplitLines(Encoded(Template, data, filler))) == Some(data)
  {
    PonyReadable();
    RoundTripWith(Pony, data, filler);
  }

  /**
   * When the stream does not fill its last block, the terminator ends the
   * scan: any text after the encoder's output is ignored.
   */
  lemma TrailingIgnored(data: seq<byte>, filler: nat -> char, after: string)
    requires FromAlphabet(filler) && |data| % TemplateBytes != 0
    ensures CountX(Template) == TemplateChars
    ensures Decoded(SplitLines(Encoded(Template, data, filler) + after)) == Some(data)
  {
    PonyReadable();
    EncodedStream(Pony, data, filler, after);
    DecodeUnpadded(data);
  }

  /** Lines without the marker put before the encoder's output change nothing. */
  lemma NoisyRoundTrip(noise: seq<string>, data: seq<byte>, filler: nat -> char)
    requires FromAlphabet(filler)
    requires forall k :: 0 <= k < |noise| ==> !HasMarker(noise[k])
    ensures CountX(Template) == TemplateChars
    ensures Decoded(noise + SplitLines(Encoded(Template, data, filler))) == Some(data)
  {
    PonyReadable();
    var lines := SplitLines(Encoded(Template, data, filler));
    NoiseSkipped(noise, lines);
    RoundTrip(data, filler);
  }

  /**
   * The two programs end to end: the blocks encode writes for a compressed
   * stream, read back line by line by decode, give the stream again.
   */
  method EncodeThenDecode(outputs: seq<seq<byte>>, flushed: seq<byte>, filler: nat -> char)
      returns (out: seq<byte>, ok: bool)
    requires FromAlphabet(filler)
    ensures ok && out == Concat(outputs) + flushed
  {
    PonyReadable();
    var blocks := Encoder.Encode(Template, outputs, flushed, filler);
    out, ok := DecodeLines(SplitLines(Concat(blocks)));
    RoundTrip(Concat(outputs) + flushed, filler);
  }
}
