// The decoder: it reads the text line by line, takes the base64 text out of
// every line that carries the "**" marker, stops at the first line holding
// the '=' terminator, and decodes the text four characters at a time as
// soon as whole groups are available. The bytes it recovers are what it
// hands to the decompressor.

module Decoder {
  import opened Base64
  import opened Streams

  /** A character that survives re.sub('[^a-zA-Z0-9+/=]', '', ...): the alphabet and the terminator. */
  predicate IsPayload(c: char)
  {
    IsDigit64(c) || c == '='
  }

  /**
   * '**' in line, searched from the left: the line belongs to a picture
   * exactly when two '*' stand next to each other somewhere in it.
   */
  predicate HasMarker(line: string): (b: bool)
    ensures b <==> exists i :: 0 <= i < |line| - 1 && line[i] == '*' && line[i + 1] == '*'
    decreases |line|
  {
    |line| >= 2 && ((line[0] == '*' && line[1] == '*') || HasMarker(line[1..]))
  }

  /**
   * re.sub('[^a-zA-Z0-9+/=]', '', line): the payload characters of the
   * line, in order. The terminator is kept, so the line holds one exactly
   * when its payload does.
   */
  function Kept(line: string): (r: string)
    ensures forall i :: 0 <= i < |r| ==> IsPayload(r[i])
    ensures |r| <= |line|
    ensures ('=' in r) <==> ('=' in line)
    decreases |line|
  {
    if |line| == 0 then []
    else (if IsPayload(line[0]) then [line[0]] else []) + Kept(line[1..])
  }

  /**
   * s.split('=')[0]: the longest prefix of s without a terminator; it is
   * all of s, or it is followed in s by a '='.
   */
  function BeforeTerminator(s: string): (r: string)
    ensures r <= s
    ensures '=' !in r
    ensures r == s || (|r| < |s| && s[|r|] == '=')
    decreases |s|
  {
    if |s| == 0 || s[0] == '=' then [] else [s[0]] + BeforeTerminator(s[1..])
  }

  /** What one line adds to the decoder's buffer, if the decoder reads it. */
  function Payload(line: string): (r: string)
    ensures AllDigits(r)
    ensures r <= Kept(line)
    ensures r == Kept(line) <==> '=' !in line
  {
    BeforeTerminator(Kept(line))
  }

  /**
   * All the text the decoder's loop appends to its buffer: the payload of
   * every marked line, up to and including the first marked line that
   * holds a terminator. Lines without the marker are skipped, whatever
   * they hold.
   */
  function Extracted(lines: seq<string>): (s: string)
    ensures AllDigits(s)
    decreases |lines|
  {
    if |lines| == 0 then []
    else if !HasMarker(lines[0]) then Extracted(lines[1..])
    else if '=' in lines[0] then Payload(lines[0])
    else Payload(lines[0]) + Extracted(lines[1..])
  }

  /** 3 - ((len - 1) % 4): the '=' that bring a remainder of len characters to a whole group. */
  function PadCount(len: nat): (k: nat)
    ensures k <= 3 && (len + k) % 4 == 0
  {
    3 - ((len - 1) % 4)
  }

  /** The text with as many '=' appended as PadCount asks for. */
  function Padded(s: string): (r: string)
    ensures |r| % 4 == 0 && |r| - |s| <= 3
  {
    s + seq(PadCount(|s|), _ => '=')
  }

  /**
   * The reference the decoder is measured against: b64decode of all the
   * extracted text at once, padded to a whole number of groups.
   */
  function Decoded(lines: seq<string>): (r: Option<seq<byte>>)
    ensures r.Some? <==> |Extracted(lines)| % 4 != 1
    ensures r.Some? ==> r.value == DecodeDigits(Extracted(lines))
  {
    var s := Extracted(lines);
    PaddedDigits(s);
    Decode(Padded(s))
  }

  /**
   * decode: `lines` are the lines of the input, each with its newline.
   * `out` is everything written to the decompressor; `ok` is false when
   * the last b64decode fails (a lone character in the last group), in
   * which case `out` holds the groups decoded before the failure.
   */
  method DecodeLines(lines: seq<string>) returns (out: seq<byte>, ok: bool)
    ensures ok <==> Decoded(lines).Some?
    ensures ok ==> out == Decoded(lines).value
    ensures !ok ==> out == DecodeDigits(Extracted(lines)[..|Extracted(lines)| - 1])
  {
    var buf: string := [];
    out := [];
    ghost var consumed: string := [];
    var i := 0;
    while i < |lines|
      invariant 0 <= i <= |lines|
      invariant consumed + buf + Extracted(lines[i..]) == Extracted(lines)
      invariant AllDigits(consumed) && |consumed| % 4 == 0
      invariant AllDigits(buf) && |buf| < 4
      invariant out == DecodeDigits(consumed)
    {
      var data := lines[i];
      ghost var read := consumed + buf;
      ghost var later := Extracted(lines[i + 1..]);
      ExtractedStep(lines, i);
      if HasMarker(data) {
        out, buf, consumed := TakeLine(out, buf, consumed, data);
        if '=' in data {
          break;
        }
        assert consumed + buf + later == Extracted(lines) by {
          AppendAssoc(read, Payload(data), later);
        }
      }
      i := i + 1;
    }
    if i == |lines| {
      assert lines[i..] == [];
    }
    assert consumed + buf == Extracted(lines);
    out, ok := Drain(out, buf, consumed);
  }

  /**
   * The end of decode: a remainder of one to three characters is padded
   * with '=' to a whole group and decoded. b64decode fails when the
   * remainder is a single character; nothing is written then.
   */
  method Drain(out: seq<byte>, buf: string, ghost consumed: string) returns (out': seq<byte>, ok: bool)
    requires AllDigits(consumed) && |consumed| % 4 == 0 && AllDigits(buf) && |buf| < 4
    requires out == DecodeDigits(consumed)
    ensures AllDigits(consumed + buf)
    ensures ok <==> |buf| != 1
    ensures ok <==> |consumed + buf| % 4 != 1
    ensures ok ==> out' == DecodeDigits(consumed + buf)
    ensures !ok ==> out' == DecodeDigits((consumed + buf)[..|consumed + buf| - 1])
  {
    DigitsAppend(consumed, buf);
    Remainder(|consumed|, |buf|);
    out', ok := out, true;
    if |buf| > 0 {
      var text := buf + seq(PadCount(|buf|), _ => '=');
      PaddedDigits(buf);
      var r := Decode(text);
      if r.None? {
        assert (consumed + buf)[..|consumed + buf| - 1] == consumed;
        ok := false;
        return;
      }
      DecodeDigitsAppend(consumed, buf);
      out' := out' + r.value;
    } else {
      assert consumed + buf == consumed;
    }
  }

  /**
   * The body of decode's loop for a marked line: append the line's payload
   * to the buffer, then decode and drop the whole groups it holds.
   */
  method TakeLine(out: seq<byte>, buf: string, ghost consumed: string, data: string)
      returns (out': seq<byte>, buf': string, ghost consumed': string)
    requires AllDigits(consumed) && |consumed| % 4 == 0 && AllDigits(buf)
    requires out == DecodeDigits(consumed)
    ensures consumed' + buf' == consumed + buf + Payload(data)
    ensures AllDigits(consumed') && |consumed'| % 4 == 0
    ensures AllDigits(buf') && |buf'| < 4
    ensures out' == DecodeDigits(consumed')
  {
    var text := buf + Payload(data);
    assert AllDigits(text) by {
      DigitsAppend(buf, Payload(data));
    }
    assert consumed + text == consumed + buf + Payload(data) by {
      AppendAssoc(consumed, buf, Payload(data));
    }
    out', consumed', buf' := out, consumed, text;
    var eaten := |text| - |text| % 4;
    if eaten > 0 {
      var bytes := DecodeGroups(text[..eaten]);
      GroupsAppend(consumed, text, eaten);
      out' := out + bytes;
      consumed' := consumed + text[..eaten];
      buf' := text[eaten..];
    }
  }

  /** b64decode on whole groups of the alphabet, which never fails. */
  method DecodeGroups(text: string) returns (bytes: seq<byte>)
    requires AllDigits(text) && |text| % 4 == 0
    ensures bytes == DecodeDigits(text)
  {
    StripPadOfDigits(text);
    var r := Decode(text);
    bytes := r.value;
  }

  // ---------------------------------------------------------------------
  // Properties

  /** One line of the loop: a line without the marker adds nothing; a marked line adds its payload and may end the text. */
  lemma ExtractedStep(lines: seq<string>, i: nat)
    requires i < |lines|
    ensures Extracted(lines[i..]) ==
              if !HasMarker(lines[i]) then Extracted(lines[i + 1..])
              else if '=' in lines[i] then Payload(lines[i])
              else Payload(lines[i]) + Extracted(lines[i + 1..])
  {
    assert lines[i..][1..] == lines[i + 1..];
  }

  /** Decoding the first whole groups of the buffer after the groups decoded so far. */
  lemma GroupsAppend(consumed: string, buf: string, eaten: nat)
    requires AllDigits(consumed) && AllDigits(buf) && |consumed| % 4 == 0
    requires eaten <= |buf| && eaten % 4 == 0
    ensures AllDigits(buf[..eaten]) && AllDigits(buf[eaten..])
    ensures DecodeDigits(consumed + buf[..eaten]) == DecodeDigits(consumed) + DecodeDigits(buf[..eaten])
    ensures (consumed + buf[..eaten]) + buf[eaten..] == consumed + buf
    ensures |consumed + buf[..eaten]| % 4 == 0
  {
    DigitsSplit(buf, eaten);
    DecodeDigitsAppend(consumed, buf[..eaten]);
    AddGroups(|consumed|, eaten);
    assert (consumed + buf[..eaten]) + buf[eaten..] == consumed + buf by {
      assert buf[..eaten] + buf[eaten..] == buf;
      assert (consumed + buf[..eaten]) + buf[eaten..] == consumed + (buf[..eaten] + buf[eaten..]);
    }
  }

  lemma AddGroups(a: nat, b: nat)
    requires a % 4 == 0 && b % 4 == 0
    ensures (a + b) % 4 == 0
  {
  }

  lemma Remainder(whole: nat, rest: nat)
    requires whole % 4 == 0 && rest < 4
    ensures (whole + rest) % 4 == rest
  {
  }

  lemma DigitsSplit(s: string, k: nat)
    requires AllDigits(s) && k <= |s|
    ensures AllDigits(s[..k]) && AllDigits(s[k..])
  {
    forall i | 0 <= i < |s[..k]| ensures IsDigit64(s[..k][i]) {
      assert s[..k][i] == s[i];
    }
    forall i | 0 <= i < |s[k..]| ensures IsDigit64(s[k..][i]) {
      assert s[k..][i] == s[k + i];
    }
  }

  /** Padding digits: the padded text is what b64decode is handed, and stripping gives the digits back. */
  lemma PaddedDigits(s: string)
    requires AllDigits(s)
    ensures StripPad(Padded(s)) == s
    ensures PaddedText(Padded(s))
  {
    if |s| == 0 {
      assert Padded(s) == s;
    } else {
      StripPadPast(s, PadCount(|s|));
    }
  }

  /** A pad of PadCount brings a remainder of one to three characters to exactly four. */
  lemma PadRemainder(len: nat)
    requires 1 <= len <= 3
    ensures len + PadCount(len) == 4
  {
  }

  /** Lines without the marker change nothing, wherever they are put. */
  lemma {:induction false} NoiseIgnored(before: seq<string>, noise: seq<string>, after: seq<string>)
    requires forall k :: 0 <= k < |noise| ==> !HasMarker(noise[k])
    ensures Extracted(before + noise + after) == Extracted(before + after)
    decreases |before|
  {
    if |before| == 0 {
      assert before + noise + after == noise + after;
      assert before + after == after;
      NoiseSkipped(noise, after);
    } else {
      assert (before + noise + after)[1..] == before[1..] + noise + after;
      assert (before + after)[1..] == before[1..] + after;
      NoiseIgnored(before[1..], noise, after);
    }
  }

  lemma {:induction false} NoiseSkipped(noise: seq<string>, after: seq<string>)
    requires forall k :: 0 <= k < |noise| ==> !HasMarker(noise[k])
    ensures Extracted(noise + after) == Extracted(after)
    decreases |noise|
  {
    if |noise| == 0 {
      assert noise + after == after;
    } else {
      assert (noise + after)[1..] == noise[1..] + after;
      NoiseSkipped(noise[1..], after);
    }
  }

  /** Nothing after the first marked line with a terminator is read. */
  lemma {:induction false} StopsAtTerminator(lines: seq<string>, i: nat, more: seq<string>)
    requires i < |lines| && HasMarker(lines[i]) && '=' in lines[i]
    ensures Extracted(lines[..i + 1] + more) == Extracted(lines)
    decreases i
  {
    if i == 0 {
      assert (lines[..1] + more)[0] == lines[0];
    } else {
      assert (lines[..i + 1] + more)[1..] == lines[1..][..i] + more;
      assert (lines[..i + 1] + more)[0] == lines[0];
      StopsAtTerminator(lines[1..], i - 1, more);
    }
  }
}
