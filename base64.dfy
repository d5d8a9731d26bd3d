// The base64 codec the camouflage format is built on: the standard
// alphabet of section 4 of RFC 4648, the padded encoder (b64encode), the
// stripping of trailing '=' (rstrip('=')), and the decoder (b64decode) on
// the texts the pony decoder hands it.

module Base64 {

  type byte = x: int | 0 <= x < 256

  datatype Option<T> = None | Some(value: T)

  /** One of the 64 characters of the base64 alphabet. */
  predicate IsDigit64(c: char)
  {
    ('A' <= c <= 'Z') || ('a' <= c <= 'z') || ('0' <= c <= '9') || c == '+' || c == '/'
  }

  predicate AllDigits(s: string)
  {
    forall i :: 0 <= i < |s| ==> IsDigit64(s[i])
  }

  /** The character that stands for the 6-bit value v. */
  function CharOf(v: int): char
    requires 0 <= v < 64
  {
    if v < 26 then ('A' as int + v) as char
    else if v < 52 then ('a' as int + (v - 26)) as char
    else if v < 62 then ('0' as int + (v - 52)) as char
    else if v == 62 then '+'
    else '/'
  }

  /** The 6-bit value a character of the alphabet stands for. */
  function ValueOf(c: char): (v: int)
    requires IsDigit64(c)
    ensures 0 <= v < 64
    ensures CharOf(v) == c
  {
    if 'A' <= c <= 'Z' then c as int - 'A' as int
    else if 'a' <= c <= 'z' then c as int - 'a' as int + 26
    else if '0' <= c <= '9' then c as int - '0' as int + 52
    else if c == '+' then 62
    else 63
  }

  lemma ValueOfCharOf(v: int)
    requires 0 <= v < 64
    ensures ValueOf(CharOf(v)) == v
  {
  }

  /** Every character the encoder emits is in the alphabet, and none is the pad character. */
  lemma CharOfDigit(v: int)
    requires 0 <= v < 64
    ensures IsDigit64(CharOf(v)) && CharOf(v) != '='
  {
  }

  /** The four characters that encode three bytes. */
  function Quantum(b0: byte, b1: byte, b2: byte): string
  {
    [CharOf(b0 / 4), CharOf((b0 % 4) * 16 + b1 / 16), CharOf((b1 % 16) * 4 + b2 / 64), CharOf(b2 % 64)]
  }

  lemma QuantumDigits(b0: byte, b1: byte, b2: byte)
    ensures |Quantum(b0, b1, b2)| == 4 && AllDigits(Quantum(b0, b1, b2))
  {
    CharOfDigit(b0 / 4);
    CharOfDigit((b0 % 4) * 16 + b1 / 16);
    CharOfDigit((b1 % 16) * 4 + b2 / 64);
    CharOfDigit(b2 % 64);
  }

  /** b64encode: the padded encoding, four characters per started group of three bytes. */
  function Encode(b: seq<byte>): (s: string)
    ensures |s| == 4 * ((|b| + 2) / 3)
    decreases |b|
  {
    if |b| == 0 then []
    else if |b| == 1 then [CharOf(b[0] / 4), CharOf((b[0] % 4) * 16), '=', '=']
    else if |b| == 2 then [CharOf(b[0] / 4), CharOf((b[0] % 4) * 16 + b[1] / 16), CharOf((b[1] % 16) * 4), '=']
    else Quantum(b[0], b[1], b[2]) + Encode(b[3..])
  }

  /** rstrip('='): the text without its trailing '=' characters. */
  function StripPad(s: string): (r: string)
    ensures |r| <= |s| && r == s[..|r|]
    ensures |r| == 0 || r[|r| - 1] != '='
    ensures forall i :: |r| <= i < |s| ==> s[i] == '='
  {
    if |s| > 0 && s[|s| - 1] == '=' then StripPad(s[..|s| - 1]) else s
  }

  /** The encoding with its padding removed, as the encoder embeds it. */
  function Unpadded(b: seq<byte>): string
  {
    StripPad(Encode(b))
  }

  /** The bytes of a text of the alphabet whose last group is not a lone character. */
  function DecodeDigits(s: string): (r: seq<byte>)
    requires AllDigits(s) && |s| % 4 != 1
    decreases |s|
  {
    if |s| == 0 then []
    else if |s| == 2 then [ValueOf(s[0]) * 4 + ValueOf(s[1]) / 16]
    else if |s| == 3 then
      [ValueOf(s[0]) * 4 + ValueOf(s[1]) / 16, (ValueOf(s[1]) % 16) * 16 + ValueOf(s[2]) / 4]
    else
      [ValueOf(s[0]) * 4 + ValueOf(s[1]) / 16,
       (ValueOf(s[1]) % 16) * 16 + ValueOf(s[2]) / 4,
       (ValueOf(s[2]) % 4) * 64 + ValueOf(s[3])]
      + DecodeDigits(s[4..])
  }

  /** Text the decoder hands to b64decode: characters of the alphabet, then '=' up to a multiple of four. */
  predicate PaddedText(s: string)
  {
    |s| % 4 == 0 && AllDigits(StripPad(s)) && |s| - |StripPad(s)| <= 3
  }

  /**
   * b64decode on such a text: it fails ("Incorrect padding") exactly when
   * the last group holds a single character, otherwise it yields three
   * bytes per four characters of the stripped text.
   */
  function Decode(s: string): (r: Option<seq<byte>>)
    requires PaddedText(s)
    ensures r.Some? <==> |StripPad(s)| % 4 != 1
  {
    var data := StripPad(s);
    if |data| % 4 == 1 then None else Some(DecodeDigits(data))
  }

  // ---------------------------------------------------------------------
  // Properties

  lemma {:induction false} StripPadOfDigits(s: string)
    requires AllDigits(s)
    ensures StripPad(s) == s
  {
  }

  /** Stripping the padding of an encoding leaves its digits; whole groups of three bytes have no padding. */
  lemma UnpaddedShape(b: seq<byte>)
    ensures AllDigits(Unpadded(b))
    ensures |b| % 3 == 0 ==> Unpadded(b) == Encode(b)
  {
    UnpaddedDigits(b);
    if |b| % 3 == 0 {
      UnpaddedWhole(b);
    }
  }

  lemma {:induction false} UnpaddedDigits(b: seq<byte>)
    ensures AllDigits(Unpadded(b))
    decreases |b|
  {
    if |b| == 0 {
    } else if |b| <= 2 {
      UnpaddedShort(b);
    } else {
      UnpaddedDigits(b[3..]);
      UnpaddedStep(b);
      QuantumDigits(b[0], b[1], b[2]);
      DigitsAppend(Quantum(b[0], b[1], b[2]), Unpadded(b[3..]));
    }
  }

  /** Whole groups of three bytes encode to digits only, so there is nothing to strip. */
  lemma UnpaddedWhole(b: seq<byte>)
    requires |b| % 3 == 0
    ensures Unpadded(b) == Encode(b)
  {
    EncodeWhole(b);
    StripPadOfDigits(Encode(b));
  }

  lemma {:induction false} EncodeWhole(b: seq<byte>)
    requires |b| % 3 == 0
    ensures AllDigits(Encode(b))
    decreases |b|
  {
    if |b| > 0 {
      EncodeWhole(b[3..]);
      QuantumDigits(b[0], b[1], b[2]);
      assert Encode(b) == Quantum(b[0], b[1], b[2]) + Encode(b[3..]);
      DigitsAppend(Quantum(b[0], b[1], b[2]), Encode(b[3..]));
    }
  }

  lemma DigitsAppend(x: string, y: string)
    requires AllDigits(x) && AllDigits(y)
    ensures AllDigits(x + y)
  {
    forall i | 0 <= i < |x + y|
      ensures IsDigit64((x + y)[i])
    {
      if i >= |x| {
        assert (x + y)[i] == y[i - |x|];
      }
    }
  }

  lemma UnpaddedShort(b: seq<byte>)
    requires 1 <= |b| <= 2
    ensures Unpadded(b) == Encode(b)[..|b| + 1]
    ensures AllDigits(Unpadded(b))
  {
    if |b| == 1 {
      UnpaddedOne(b);
    } else {
      UnpaddedTwo(b);
    }
  }

  /** One byte: two digits, then two '='. */
  lemma UnpaddedOne(b: seq<byte>)
    requires |b| == 1
    ensures Unpadded(b) == Encode(b)[..2] && AllDigits(Unpadded(b))
  {
    var c0, c1 := CharOf(b[0] / 4), CharOf((b[0] % 4) * 16);
    CharOfDigit(b[0] / 4);
    CharOfDigit((b[0] % 4) * 16);
    var e := Encode(b);
    assert e == [c0, c1, '=', '='];
    assert e[..3] == [c0, c1, '='] && e[..3][..2] == e[..2] == [c0, c1];
    assert StripPad(e[..3]) == StripPad(e[..2]) == e[..2];
  }

  /** Two bytes: three digits, then one '='. */
  lemma UnpaddedTwo(b: seq<byte>)
    requires |b| == 2
    ensures Unpadded(b) == Encode(b)[..3] && AllDigits(Unpadded(b))
  {
    var c0, c1, c2 := CharOf(b[0] / 4), CharOf((b[0] % 4) * 16 + b[1] / 16), CharOf((b[1] % 16) * 4);
    CharOfDigit(b[0] / 4);
    CharOfDigit((b[0] % 4) * 16 + b[1] / 16);
    CharOfDigit((b[1] % 16) * 4);
    var e := Encode(b);
    assert e == [c0, c1, c2, '='];
    assert e[..3] == [c0, c1, c2];
    assert StripPad(e[..3]) == e[..3];
  }

  lemma UnpaddedStep(b: seq<byte>)
    requires |b| >= 3
    ensures Unpadded(b) == Quantum(b[0], b[1], b[2]) + Unpadded(b[3..])
  {
    var q := Quantum(b[0], b[1], b[2]);
    QuantumDigits(b[0], b[1], b[2]);
    assert Encode(b) == q + Encode(b[3..]);
    StripPadAfter(q, Encode(b[3..]));
  }

  /** The unpadded encoding of n bytes has (4n + 2) / 3 characters, so its last group is never a lone character. */
  lemma {:induction false} UnpaddedLength(b: seq<byte>)
    ensures |Unpadded(b)| == (4 * |b| + 2) / 3
    ensures |Unpadded(b)| % 4 != 1
    decreases |b|
  {
    if |b| == 0 {
    } else if |b| <= 2 {
      UnpaddedShort(b);
    } else {
      var m := |Unpadded(b[3..])|;
      assert m == (4 * (|b| - 3) + 2) / 3 && m % 4 != 1 by {
        UnpaddedLength(b[3..]);
      }
      assert |Unpadded(b)| == m + 4 by {
        UnpaddedStep(b);
      }
      LengthStep(|b|, m);
    }
  }

  lemma LengthStep(n: nat, m: nat)
    requires n >= 3 && m == (4 * (n - 3) + 2) / 3 && m % 4 != 1
    ensures m + 4 == (4 * n + 2) / 3 && (m + 4) % 4 != 1
  {
  }

  /** Stripping k '=' appended to a text that does not end in '='. */
  lemma {:induction false} StripPadPast(s: string, k: nat)
    requires AllDigits(s) && |s| > 0
    ensures StripPad(s + seq(k, _ => '=')) == s
    decreases k
  {
    if k > 0 {
      assert (s + seq(k, _ => '='))[..|s| + k - 1] == s + seq(k - 1, _ => '=');
      StripPadPast(s, k - 1);
    }
  }

  /** Stripping never reaches back into a prefix free of '='. */
  lemma {:induction false} StripPadAfter(p: string, s: string)
    requires forall i :: 0 <= i < |p| ==> p[i] != '='
    ensures StripPad(p + s) == p + StripPad(s)
    decreases |s|
  {
    if |s| == 0 {
      assert p + s == p;
      if |p| > 0 {
        assert p[|p| - 1] != '=';
      }
    } else if s[|s| - 1] == '=' {
      assert (p + s)[..|p + s| - 1] == p + s[..|s| - 1];
      StripPadAfter(p, s[..|s| - 1]);
    } else {
    }
  }

  /** Decoding the digits of four characters at a time distributes over concatenation. */
  lemma {:induction false} DecodeDigitsAppend(x: string, y: string)
    requires AllDigits(x) && AllDigits(y) && |x| % 4 == 0 && |y| % 4 != 1
    ensures AllDigits(x + y)
    ensures DecodeDigits(x + y) == DecodeDigits(x) + DecodeDigits(y)
    decreases |x|
  {
    if |x| > 0 {
      assert (x + y)[4..] == x[4..] + y;
      DecodeDigitsAppend(x[4..], y);
    } else {
      assert x + y == y;
    }
  }

  /** Three bytes survive a trip through their four characters. */
  lemma QuantumRoundTrip(b0: byte, b1: byte, b2: byte)
    ensures var q := Quantum(b0, b1, b2);
            [ValueOf(q[0]) * 4 + ValueOf(q[1]) / 16,
             (ValueOf(q[1]) % 16) * 16 + ValueOf(q[2]) / 4,
             (ValueOf(q[2]) % 4) * 64 + ValueOf(q[3])] == [b0, b1, b2]
  {
    var v0, v1, v2, v3 := b0 / 4, (b0 % 4) * 16 + b1 / 16, (b1 % 16) * 4 + b2 / 64, b2 % 64;
    ValueOfCharOf(v0);
    ValueOfCharOf(v1);
    ValueOfCharOf(v2);
    ValueOfCharOf(v3);
    Sextets(b0, b1, b2);
  }

  /** The arithmetic of regrouping three bytes into four six-bit values and back. */
  lemma Sextets(b0: byte, b1: byte, b2: byte)
    ensures var v0, v1, v2, v3 := b0 / 4, (b0 % 4) * 16 + b1 / 16, (b1 % 16) * 4 + b2 / 64, b2 % 64;
            v0 * 4 + v1 / 16 == b0 && (v1 % 16) * 16 + v2 / 4 == b1 && (v2 % 4) * 64 + v3 == b2
  {
    var v1, v2 := (b0 % 4) * 16 + b1 / 16, (b1 % 16) * 4 + b2 / 64;
    assert v1 / 16 == b0 % 4 && v1 % 16 == b1 / 16;
    assert v2 / 4 == b1 % 16 && v2 % 4 == b2 / 64;
  }

  /** Decoding the unpadded encoding gives the bytes back. */
  lemma {:induction false} DecodeUnpadded(b: seq<byte>)
    ensures AllDigits(Unpadded(b)) && |Unpadded(b)| % 4 != 1
    ensures DecodeDigits(Unpadded(b)) == b
    decreases |b|
  {
    UnpaddedLength(b);
    UnpaddedShape(b);
    if |b| == 0 {
    } else if |b| <= 2 {
      DecodeShort(b);
    } else {
      UnpaddedShape(b[3..]);
      UnpaddedLength(b[3..]);
      DecodeUnpadded(b[3..]);
      UnpaddedStep(b);
      DecodeStep(b);
    }
  }

  lemma DecodeShort(b: seq<byte>)
    requires 1 <= |b| <= 2
    ensures AllDigits(Unpadded(b)) && |Unpadded(b)| % 4 != 1
    ensures DecodeDigits(Unpadded(b)) == b
  {
    UnpaddedShort(b);
    if |b| == 1 {
      ValueOfCharOf(b[0] / 4);
      ValueOfCharOf((b[0] % 4) * 16);
    } else {
      ValueOfCharOf(b[0] / 4);
      ValueOfCharOf((b[0] % 4) * 16 + b[1] / 16);
      ValueOfCharOf((b[1] % 16) * 4);
    }
  }

  lemma DecodeStep(b: seq<byte>)
    requires |b| >= 3
    requires AllDigits(Unpadded(b[3..])) && |Unpadded(b[3..])| % 4 != 1
    requires DecodeDigits(Unpadded(b[3..])) == b[3..]
    requires Unpadded(b) == Quantum(b[0], b[1], b[2]) + Unpadded(b[3..])
    ensures AllDigits(Unpadded(b)) && |Unpadded(b)| % 4 != 1
    ensures DecodeDigits(Unpadded(b)) == b
  {
    DecodeQuantumThen(b[0], b[1], b[2], Unpadded(b[3..]));
    assert b == [b[0], b[1], b[2]] + b[3..];
  }

  /** The first group of four digits decodes to three bytes, ahead of the rest. */
  lemma DecodeFirst(u: string, rest: string)
    requires AllDigits(u) && |u| >= 4 && u[4..] == rest && |rest| % 4 != 1
    ensures |u| % 4 != 1
    ensures DecodeDigits(u) ==
              [ValueOf(u[0]) * 4 + ValueOf(u[1]) / 16,
               (ValueOf(u[1]) % 16) * 16 + ValueOf(u[2]) / 4,
               (ValueOf(u[2]) % 4) * 64 + ValueOf(u[3])] + DecodeDigits(rest)
  {
    assert |u| % 4 != 1 by {
      assert |u| == |rest| + 4;
      ModFour(|rest|);
    }
    assert AllDigits(u[4..]);
  }

  lemma ModFour(n: nat)
    requires n % 4 != 1
    ensures (n + 4) % 4 != 1
  {
  }

  lemma DecodeQuantumThen(b0: byte, b1: byte, b2: byte, rest: string)
    requires AllDigits(rest) && |rest| % 4 != 1
    ensures AllDigits(Quantum(b0, b1, b2) + rest) && |Quantum(b0, b1, b2) + rest| % 4 != 1
    ensures DecodeDigits(Quantum(b0, b1, b2) + rest) == [b0, b1, b2] + DecodeDigits(rest)
  {
    var q := Quantum(b0, b1, b2);
    var u := q + rest;
    assert |q| == 4 && AllDigits(u) by {
      QuantumDigits(b0, b1, b2);
      DigitsAppend(q, rest);
    }
    assert u[0] == q[0] && u[1] == q[1] && u[2] == q[2] && u[3] == q[3] && u[4..] == rest;
    DecodeFirst(u, rest);
    assert [ValueOf(u[0]) * 4 + ValueOf(u[1]) / 16,
            (ValueOf(u[1]) % 16) * 16 + ValueOf(u[2]) / 4,
            (ValueOf(u[2]) % 4) * 64 + ValueOf(u[3])] == [b0, b1, b2] by {
      QuantumRoundTrip(b0, b1, b2);
    }
  }

  /** Four characters for every started group of three bytes. */
  /** b64decode(b64encode(b)) == b. */
  lemma DecodeEncode(b: seq<byte>)
    ensures PaddedText(Encode(b))
    ensures Decode(Encode(b)) == Some(b)
  {
    DecodeUnpadded(b);
    UnpaddedLength(b);
    PadArithmetic(|b|);
  }

  lemma PadArithmetic(n: nat)
    ensures (4 * ((n + 2) / 3)) % 4 == 0
    ensures 4 * ((n + 2) / 3) - (4 * n + 2) / 3 <= 3
  {
    var k := n / 3;
    assert n == 3 * k + n % 3;
  }

  /** The encoding of whole groups of three bytes concatenates. */
  lemma {:induction false} EncodeAppend(a: seq<byte>, b: seq<byte>)
    requires |a| % 3 == 0
    ensures Encode(a + b) == Encode(a) + Encode(b)
    decreases |a|
  {
    if |a| > 0 {
      assert (a + b)[3..] == a[3..] + b;
      EncodeAppend(a[3..], b);
    } else {
      assert a + b == b;
    }
  }

  /** The same for the unpadded encoding. */
  lemma UnpaddedAppend(a: seq<byte>, b: seq<byte>)
    requires |a| % 3 == 0
    ensures Unpadded(a + b) == Unpadded(a) + Unpadded(b)
  {
    EncodeAppend(a, b);
    UnpaddedShape(a);
    StripPadAfter(Encode(a), Encode(b));
  }
}
