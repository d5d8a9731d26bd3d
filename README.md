# pony-readable in Dafny

`pony-readable.py` hides a byte stream in ASCII art. It compresses the input,
takes base64 text of the compressed bytes and paints that text into the cells
marked `x` of a fixed drawing of a pony. Each copy of the drawing holds
`TEMPLATE_BYTES` compressed bytes.

When the last block is short, its text is followed by one `=`, the
terminator, and random characters of the base64 alphabet fill the rest of the
cells.

Decoding goes the other way:
- it reads only the lines that carry the `**` marker;
- it keeps the characters of the base64 alphabet and `=`;
- it cuts the text at the first `=`;
- it decodes whole groups of four characters as they become available;
- it stops after the first line that holds a `=`;
- finally it pads the remaining one to three characters with `=` and decodes
  them.

The project models this codec in six files, one module each:

- `streams.dfy` (`Streams`): concatenation of pieces and the splitting of a
  text into lines, each line keeping its newline (`for data in instream`).
- `base64.dfy` (`Base64`): the alphabet of section 4 of RFC 4648, `b64encode`,
  `rstrip('=')`, and `b64decode` on the texts the decoder hands it.
- `template.dfy` (`Picture`): `TEMPLATE` written as run-length lines of blank,
  `*` and `x` cells. The functions `Line00` to `Line40` draw source lines 12
  to 52 in order, each stating its own slot count. It also holds
  `TEMPLATE_CHARS` (1264) and `TEMPLATE_BYTES` (948). A line that holds slots
  is built as "left part, `**`, right part", so the marker is there by
  construction.
- `encoder.dfy` (`Encoder`): `_encode_chunk` and its padding and substitution
  loops, and the chunking loops of `encode`, all as methods. Each method is
  proved against a specification function: `ChunkText`, `Fill`, `Draws`,
  `Chunks` or `Blocks`.
- `decoder.dfy` (`Decoder`): the line loop of `decode`, with its buffer,
  early `break` and final drain, as methods proved against the reference
  `Decoded`. `Decoded` is a single `b64decode` of all the text extracted from
  the lines.
- `roundtrip.dfy` (`RoundTrip`): the decoder reads back exactly what the
  encoder wrote, for the pony and for any picture whose slots lie on marked
  lines and whose slot count is a positive multiple of four.

The compressor is represented by what it returns. `Encode` takes the outputs
of `compress` for each read, and the output of `flush`. The decoder's result
is the byte stream it hands to the decompressor. The round trip is therefore
stated on compressed bytes: decoding the text written for a compressed stream
gives back that stream.

`random.choice(charset)` becomes a parameter `filler: nat -> char`: the k-th
character drawn after the terminator is `filler(k)`. The proofs that need
the drawn characters to lie in the alphabet require `FromAlphabet(filler)`.

Behaviour of the code worth knowing (the model follows the code):
- When the compressed length is a multiple of `TEMPLATE_BYTES`, including
  zero, `encode` writes no short block. No terminator is written then.
- A compressed stream of length zero gives zero blocks.
- The decoder does not require a terminator. Without one it reads to the end
  of its input, which is exactly the whole-block case above, and nothing fails.
  `EncodedStream` and `RoundTripWith` prove that this still round-trips.
- `b64decode` fails only when the last group holds a single character
  (Python 2 reports "Incorrect padding"). `DecodeLines` returns `ok == false`
  then, keeping the bytes already written. This never happens on the
  encoder's output.

## Model

| member | source | states |
|---|---|---|
| `Picture.PonyOver` | pony-readable.py:11-53 | the drawing of `TEMPLATE` has 1264 slot cells, and every line holding one also holds `**` |
| `Picture.TemplateCharsCount` | pony-readable.py:55 | `TEMPLATE.count('x')` of the drawn template is `TEMPLATE_CHARS`, 1264 |
| `Picture.CountXText` | pony-readable.py:11-55 | the text of any drawing holds exactly one `x` per slot cell |
| `Picture.BytesForFits` | pony-readable.py:56 | `(N // 4) * 3` bytes have an unpadded base64 text of at most N characters, exactly N when N is a multiple of four |
| `Picture.BytesForWhole` | pony-readable.py:56 | the chunk size `(N // 4) * 3` is a whole number of groups of three bytes |
| `Base64.Encode` | pony-readable.py:60 | `b64encode` of n bytes has four characters per started group of three bytes, `4 * ((n + 2) / 3)` |
| `Base64.StripPad` | pony-readable.py:60 | `rstrip('=')` yields a prefix of the text that does not end in `=`, and every character it removes is a `=` |
| `Base64.UnpaddedLength` | pony-readable.py:60 | `b64encode(b).rstrip('=')` has `(4n + 2) / 3` characters, so its last group is never one character |
| `Base64.UnpaddedShape` | pony-readable.py:60 | the stripped encoding is all alphabet characters, and equals the full encoding for whole groups of three bytes |
| `Base64.UnpaddedAppend` | pony-readable.py:60 | the stripped encoding of whole groups of three bytes, then more bytes, is the concatenation of the two encodings |
| `Base64.Decode` | pony-readable.py:97-104 | `b64decode` of a text of the alphabet padded with `=` fails exactly when its stripped text ends in a lone character |
| `Base64.DecodeEncode` | pony-readable.py:97-104 | `b64decode(b64encode(b)) == b` |
| `Base64.DecodeUnpadded` | pony-readable.py:102-104 | the stripped encoding decodes back to the bytes four characters at a time, the last group padded |
| `Base64.DecodeDigitsAppend` | pony-readable.py:95-99 | decoding whole groups and then the rest equals decoding all the text at once |
| `Encoder.Fill` | pony-readable.py:66 | substitution keeps the template's length (what lands where is stated by `BlockShape`) |
| `Encoder.SlotText` | pony-readable.py:60-65 | the characters laid into the slots are at least as many as the slots |
| `Encoder.EncodeChunk` | pony-readable.py:59-66 | `_encode_chunk` returns the template with its slots filled with the chunk's `ChunkText` |
| `Encoder.PadOut` | pony-readable.py:61-65 | the padding loop appends one `=` then the next draws of `random.choice` up to `TEMPLATE_CHARS` characters |
| `Encoder.Substitute` | pony-readable.py:66 | the `re.sub('x', pop(0))` loop builds exactly `Fill(template, echunk)` |
| `Encoder.SlotTextShape` | pony-readable.py:60-65 | the slot text starts with the unpadded encoding, and a `=` follows it exactly when the encoding is shorter than the slots |
| `Encoder.SlotTextLength` | pony-readable.py:60-65 | a chunk of at most `BytesFor(N)` bytes always yields exactly N slot characters |
| `Encoder.FullChunk` | pony-readable.py:60-61 | with N a multiple of four, a full chunk's unpadded encoding fills all N slots and holds no `=` |
| `Encoder.ShortChunk` | pony-readable.py:61 | with N a multiple of four, a shorter chunk's encoding is shorter than N, so a terminator is written |
| `Encoder.Terminated` | pony-readable.py:60-65 | a short chunk's slots hold exactly one `=`, at the index equal to the unpadded length, with alphabet characters after it |
| `Encoder.BlockShape` | pony-readable.py:66 | the filled template has the template's length, keeps every non-`x` character, and puts the k-th slot character in the k-th `x` |
| `Encoder.FillPrefix` | pony-readable.py:66 | filling reads only the first `CountX(template)` characters of the slot text |
| `Encoder.Encode` | pony-readable.py:69-85 | the blocks written are the blocks of the chunks of the concatenated compressor outputs and flush |
| `Encoder.Feed` | pony-readable.py:73-80 | one outer pass keeps sent bytes plus buffer equal to all output so far, leaves fewer than `TEMPLATE_BYTES` bytes buffered, and writes only whole chunks |
| `Encoder.WriteWhole` | pony-readable.py:78-80 | the inner loop writes the blocks of whole chunks taken from the front of the buffer and leaves fewer than a chunk |
| `Encoder.WriteOne` | pony-readable.py:79-80 | one inner pass writes the block of the first `TEMPLATE_BYTES` bytes and drops exactly those |
| `Encoder.Chunks` | pony-readable.py:78-85 | the chunks written, concatenated in order, are the whole compressed stream |
| `Encoder.Blocks` | pony-readable.py:78-85 | one block per chunk, in order: the k-th block is the `_encode_chunk` text of the k-th chunk |
| `Encoder.ChunkSizes` | pony-readable.py:78-85 | every chunk but the last is exactly `TEMPLATE_BYTES` long, and the last is non-empty and at most that long |
| `Encoder.ChunksAppend` | pony-readable.py:78-80 | cutting chunks after whole chunks starts afresh |
| `Decoder.HasMarker` | pony-readable.py:92 | `'**' in data` holds exactly when two `*` stand next to each other somewhere in the line |
| `Decoder.Kept` | pony-readable.py:94 | the filter keeps only alphabet characters and `=`, in order, and keeps a `=` exactly when the line has one |
| `Decoder.BeforeTerminator` | pony-readable.py:94 | `split('=')[0]` is the longest prefix without `=`: the whole text, or the text up to its first `=` |
| `Decoder.Payload` | pony-readable.py:94 | a line adds only alphabet characters, a prefix of its filtered text, and all of that text exactly when the line holds no `=` |
| `Decoder.Extracted` | pony-readable.py:91-101 | the text the loop gathers holds only alphabet characters; which lines it comes from is stated by `NoiseIgnored` and `StopsAtTerminator` |
| `Decoder.PadCount` | pony-readable.py:103 | `3 - ((len - 1) % 4)` is at most 3 and brings the length to a multiple of four |
| `Decoder.PadRemainder` | pony-readable.py:103 | for a remainder of 1 to 3 characters the pad makes exactly four |
| `Decoder.Decoded` | pony-readable.py:88-105 | the reference result: it fails exactly when the extracted text ends in a lone character, otherwise it is the decoding of all of it |
| `Decoder.DecodeLines` | pony-readable.py:88-105 | `decode` writes exactly `Decoded(lines)`, or on failure the decoding of all but the last lone character |
| `Decoder.TakeLine` | pony-readable.py:92-99 | one marked line appends its payload, decodes the whole groups, and leaves fewer than 4 characters and a consumed length that is a multiple of 4 |
| `Decoder.Drain` | pony-readable.py:102-105 | the remainder is padded and decoded; it fails exactly when the remainder is one character |
| `Decoder.DecodeGroups` | pony-readable.py:96-97 | `b64decode` of whole groups of the alphabet never fails and yields their bytes |
| `Decoder.GroupsAppend` | pony-readable.py:95-99 | decoding the groups as they come equals a batch decode of everything consumed |
| `Decoder.NoiseIgnored` | pony-readable.py:92-93 | lines without the marker change nothing, wherever they are inserted |
| `Decoder.StopsAtTerminator` | pony-readable.py:100-101 | no line after the first marked line holding `=` is read |
| `Streams.SplitLines` | pony-readable.py:91 | the first line read is the text up to and including its first newline, or all of it when it has none |
| `Streams.SplitLinesShape` | pony-readable.py:91 | every line read is non-empty, holds a newline only as its last character, and only the last line may lack one |
| `Streams.ConcatSplitLines` | pony-readable.py:91 | the lines the decoder iterates over put back together are its input |
| `Streams.SplitLinesAppend` | pony-readable.py:91 | a text ending in a newline splits apart from what follows it |
| `RoundTrip.FillLine` | pony-readable.py:66 | a filled line has no newline, and the decoder's filter keeps exactly its slot characters |
| `RoundTrip.FilledArt` | pony-readable.py:92-101 | a filled picture followed by more text is read as its slot text up to the first `=`, and reading goes on past it only when there is none |
| `RoundTrip.FilledBlock` | pony-readable.py:59-101 | a full chunk's block reads back as its unpadded encoding and the scan goes on; a short chunk's block reads back as its encoding and the scan stops |
| `RoundTrip.EncodedStream` | pony-readable.py:69-101 | the text written for a stream reads back as its unpadded encoding, and the text after it is read only when the stream filled its last block |
| `RoundTrip.PonyReadable` | pony-readable.py:11-56 | the pony has a multiple of four slots, all on marked lines, and `TEMPLATE_BYTES` is the chunk size it gives |
| `RoundTrip.RoundTripWith` | pony-readable.py:59-105 | for any picture with slots only on marked lines and a multiple of four of them, decoding the encoder's text gives back the stream |
| `RoundTrip.RoundTrip` | pony-readable.py:69-105 | `decode(encode(x)) == x` for the pony template, whatever the camouflage characters drawn |
| `RoundTrip.EncodeThenDecode` | pony-readable.py:69-105 | running `encode`'s loops and then `decode`'s loop on the lines written succeeds and returns exactly the compressed stream |
| `RoundTrip.TrailingIgnored` | pony-readable.py:100-101 | when the stream ends in a short block, any text after the encoder's output is ignored |
| `RoundTrip.NoisyRoundTrip` | pony-readable.py:92-93 | lines without the marker put before the encoder's output leave the round trip intact |

## Left out

- `main`, `show_usage` and the getopt handling (pony-readable.py:108-183):
  command-line plumbing and exit codes.
- The `--python` preamble and postamble: text printed around the codec's
  output.
- bz2: the compressor is represented by the outputs it returns, taken as
  inputs of `Encode`. The decompressor is not modelled. The decoder's result
  is the byte stream it feeds to the decompressor, so `decode(encode(x)) == x`
  is proved on compressed bytes. The compressor's `flush` output is likewise
  an input, so an empty compressed stream, which real bz2 never produces,
  gives zero blocks.
- `random.choice`: the drawn characters are the parameter `filler`, not
  random values.
- The 1024-byte reads and the writes to the output stream: input arrives as
  the sequence of compressor outputs, and output leaves as the sequence of
  blocks (`Encode`) or of decoded bytes (`DecodeLines`).
- `b64decode` is modelled only on the texts `decode` passes to it (alphabet
  characters, then `=` to a multiple of four); other inputs never reach it.
- `Encoder.Encode`, `Encoder.Feed` and the other methods work on sequence
  values, not on Python's mutable string buffer. The assignments `buf = ...`
  are reassignments of those values.
