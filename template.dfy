// The picture the encoder paints its data into. The template is a fixed
// drawing of a pony: spaces, '*' for the outline and 'x' for every cell that
// carries one character of base64 text. Each of its lines ends in a newline,
// and every line that holds a slot also holds the "**" marker by which the
// decoder recognises the lines it has to read.

module Picture {

  /** What a cell of the picture holds: background, outline or a data slot. */
  datatype Ink = Blank | Star | Slot

  /** A stretch of a line: runs of equal cells. */
  datatype Runs = End | Run(ink: Ink, len: nat, rest: Runs)

  /**
   * A line of the picture. A marked line is drawn as its left part, the
   * marker "**" and its right part; only marked lines may hold slots.
   */
  datatype Line = Plain(runs: Runs) | Marked(left: Runs, right: Runs)

  /** The lines of the picture from the top down. */
  datatype Art = Done | Row(line: Line, below: Art)

  function InkChar(k: Ink): char
  {
    match k
    case Blank => ' '
    case Star => '*'
    case Slot => 'x'
  }

  /** The characters a template is drawn with. */
  predicate IsDrawing(c: char)
  {
    c == ' ' || c == '*' || c == 'x' || c == '\n'
  }

  // ---------------------------------------------------------------------
  // Drawing the picture as text

  function RunsText(r: Runs): (s: string)
    ensures forall i :: 0 <= i < |s| ==> IsDrawing(s[i]) && s[i] != '\n'
  {
    match r
    case End => []
    case Run(k, n, rest) => seq(n, _ => InkChar(k)) + RunsText(rest)
  }

  function LineText(l: Line): (s: string)
    ensures forall i :: 0 <= i < |s| ==> IsDrawing(s[i]) && s[i] != '\n'
  {
    match l
    case Plain(r) => RunsText(r)
    case Marked(a, b) => RunsText(a) + "**" + RunsText(b)
  }

  /** The picture as text: every line followed by a newline. */
  function Text(a: Art): (s: string)
    ensures forall i :: 0 <= i < |s| ==> IsDrawing(s[i])
    ensures |s| == 0 || s[|s| - 1] == '\n'
  {
    match a
    case Done => []
    case Row(l, b) => LineText(l) + "\n" + Text(b)
  }

  // ---------------------------------------------------------------------
  // Counting slots

  /** str.count('x'). */
  function CountX(s: string): (n: nat)
    ensures n <= |s|
  {
    if |s| == 0 then 0 else (if s[0] == 'x' then 1 else 0) + CountX(s[1..])
  }

  function Slots(r: Runs): nat
  {
    match r
    case End => 0
    case Run(k, n, rest) => (if k == Slot then n else 0) + Slots(rest)
  }

  function LineSlots(l: Line): nat
  {
    match l
    case Plain(r) => Slots(r)
    case Marked(a, b) => Slots(a) + Slots(b)
  }

  function ArtSlots(a: Art): nat
  {
    match a
    case Done => 0
    case Row(l, b) => LineSlots(l) + ArtSlots(b)
  }

  /** Every line that holds a slot carries the marker. */
  predicate SlotsMarked(a: Art)
  {
    match a
    case Done => true
    case Row(l, b) => (l.Plain? ==> Slots(l.runs) == 0) && SlotsMarked(b)
  }

  // ---------------------------------------------------------------------
  // The pony, one line at a time; each line states its own slot count.

  function Line00(below: Art): (a: Art)
    ensures ArtSlots(a) == ArtSlots(below) && (SlotsMarked(below) ==> SlotsMarked(a))
  {
    Row(Marked(Run(Blank, 10, End),
         Run(Star, 16, End)),
        below)
  }

  function Line01(below: Art): (a: Art)
    ensures ArtSlots(a) == ArtSlots(below) && (SlotsMarked(below) ==> SlotsMarked(a))
  {
    Row(Marked(Run(Blank, 8, End),
         Run(Star, 23, End)),
        below)
  }

  function Line02(below: Art): (a: Art)
    ensures ArtSlots(a) == 2 + ArtSlots(below) && (SlotsMarked(below) ==> SlotsMarked(a))
  {
    Row(Marked(Run(Blank, 5, Run(Star, 7, End)),
         Run(Slot, 2, Run(Star, 19, End))),
        below)
  }

  function Line03(below: Art): (a: Art)
    ensures ArtSlots(a) == 11 + ArtSlots(below) && (SlotsMarked(below) ==> SlotsMarked(a))
  {
    Row(Marked(Run(Blank, 4, Run(Star, 10, Run(Slot, 5, End))),
         Run(Star, 1, Run(Slot, 6, Run(Star, 8, End)))),
        below)
  }

  function Line04(below: Art): (a: Art)
    ensures ArtSlots(a) == 14 + ArtSlots(below) && (SlotsMarked(below) ==> SlotsMarked(a))
  {
    Row(Marked(Run(Blank, 4, Run(Star, 9, Run(Slot, 6, End))),
         Run(Star, 1, Run(Slot, 8, Run(Star, 8, End)))),
        below)
  }

  function Line05(below: Art): (a: Art)
    ensures ArtSlots(a) == 15 + ArtSlots(below) && (SlotsMarked(below) ==> SlotsMarked(a))
  {
    Row(Marked(Run(Blank, 3, Run(Star, 11, Run(Slot, 5, End))),
         Run(Star, 1, Run(Slot, 10, Run(Star, 8, End)))),
        below)
  }

  function Line06(below: Art): (a: Art)
    ensures ArtSlots(a) == 23 + ArtSlots(below) && (SlotsMarked(below) ==> SlotsMarked(a))
  {
    Row(Marked(Run(Blank, 2, Run(Star, 1, Run(Slot, 10, Run(Star, 2, End)))),
         Run(Slot, 2, Run(Star, 3, Run(Slot, 11, Run(Star, 8, End))))),
        below)
  }

  function Line07(below: Art): (a: Art)
    ensures ArtSlots(a) == 27 + ArtSlots(below) && (SlotsMarked(below) ==> SlotsMarked(a))
  {
    Row(Marked(Run(Blank, 2, Run(Star, 1, Run(Slot, 14, End))),
         Run(Star, 2, Run(Slot, 13, Run(Star, 7, End)))),
        below)
  }

  function Line08(below: Art): (a: Art)
    ensures ArtSlots(a) == 27 + ArtSlots(below) && (SlotsMarked(below) ==> SlotsMarked(a))
  {
    Row(Marked(Run(Blank, 1, Run(Star, 1, Run(Slot, 7, End))),
         Run(Slot, 6, Run(Star, 4, Run(Slot, 14, Run(Star, 7, End))))),
        below)
  }

  function Line09(below: Art): (a: Art)
    ensures ArtSlots(a) == 25 + ArtSlots(below) && (SlotsMarked(below) ==> SlotsMarked(a))
  {
    Row(Marked(Run(Blank, 1, Run(Star, 1, Run(Slot, 6, Run(Star, 2, End)))),
         Run(Slot, 5, Run(Star, 5, Run(Slot, 14, Run(Star, 6, End))))),
        below)
  }

  function Line10(below: Art): (a: Art)
    ensures ArtSlots(a) == 28 + ArtSlots(below) && (SlotsMarked(below) ==> SlotsMarked(a))
  {
    Row(Marked(Run(Blank, 1, Run(Star, 1, Run(Slot, 7, Run(Star, 2, Run(Slot, 5, End))))),
         Run(Slot, 2, Run(Star, 2, Run(Slot, 14, Run(Star, 7, End))))),
        below)
  }

  function Line11(below: Art): (a: Art)
    ensures ArtSlots(a) == 30 + ArtSlots(below) && (SlotsMarked(below) ==> SlotsMarked(a))
  {
    Row(Marked(Run(Blank, 1, Run(Star, 1, Run(Slot, 12, End))),
         Run(Slot, 4, Run(Star, 2, Run(Slot, 14, Run(Star, 7, End))))),
        below)
  }

  function Line12(below: Art): (a: Art)
    ensures ArtSlots(a) == 30 + ArtSlots(below) && (SlotsMarked(below) ==> SlotsMarked(a))
  {
    Row(Marked(Run(Star, 4, Run(Slot, 9, End)),
         Run(Slot, 5, Run(Star, 1, Run(Slot, 16, Run(Star, 6, End))))),
        below)
  }

  function Line13(below: Art): (a: Art)
    ensures ArtSlots(a) == 29 + ArtSlots(below) && (SlotsMarked(below) ==> SlotsMarked(a))
  {
    Row(Marked(Run(Star, 1, Run(Slot, 3, Run(Star, 5, Run(Slot, 3, End)))),
         Run(Slot, 23, Run(Star, 7, Run(Blank, 9, Run(Star, 5, End))))),
        below)
  }

  function Line14(below: Art): (a: Art)
    ensures ArtSlots(a) == 32 + ArtSlots(below) && (SlotsMarked(below) ==> SlotsMarked(a))
  {
    Row(Marked(Run(Star, 1, Run(Slot, 7, Run(Star, 4, Run(Slot, 20, End)))),
         Run(Star, 19, Run(Slot, 5, Run(Star, 2, Run(Blank, 1, Run(Star, 6, End)))))),
        below)
  }

  function Line15(below: Art): (a: Art)
    ensures ArtSlots(a) == 45 + ArtSlots(below) && (SlotsMarked(below) ==> SlotsMarked(a))
  {
    Row(Marked(Run(Star, 1, Run(Slot, 11, Run(Star, 5, Run(Slot, 9, Run(Star, 5, End))))),
         Run(Slot, 7, Run(Star, 2, Run(Slot, 9, Run(Star, 2, Run(Slot, 9, Run(Star, 7, End))))))),
        below)
  }

  function Line16(below: Art): (a: Art)
    ensures ArtSlots(a) == 41 + ArtSlots(below) && (SlotsMarked(below) ==> SlotsMarked(a))
  {
    Row(Marked(Run(Blank, 1, Run(Star, 1, Run(Slot, 7, Run(Star, 3, Run(Blank, 2, Run(Star, 1, Run(Slot, 2, End))))))),
         Run(Star, 8, Run(Slot, 14, Run(Star, 2, Run(Slot, 10, Run(Star, 2, Run(Slot, 8, Run(Star, 7, End)))))))),
        below)
  }

  function Line17(below: Art): (a: Art)
    ensures ArtSlots(a) == 45 + ArtSlots(below) && (SlotsMarked(below) ==> SlotsMarked(a))
  {
    Row(Marked(Run(Blank, 4, Run(Star, 5, Run(Blank, 6, Run(Star, 1, Run(Slot, 26, End))))),
         Run(Slot, 10, Run(Star, 2, Run(Slot, 9, Run(Star, 6, End))))),
        below)
  }

  function Line18(below: Art): (a: Art)
    ensures ArtSlots(a) == 45 + ArtSlots(below) && (SlotsMarked(below) ==> SlotsMarked(a))
  {
    Row(Marked(Run(Blank, 13, Run(Star, 2, Run(Slot, 28, End))),
         Run(Slot, 8, Run(Star, 2, Run(Slot, 9, Run(Star, 7, End))))),
        below)
  }

  function Line19(below: Art): (a: Art)
    ensures ArtSlots(a) == 43 + ArtSlots(below) && (SlotsMarked(below) ==> SlotsMarked(a))
  {
    Row(Marked(Run(Blank, 13, Run(Star, 1, Run(Slot, 31, End))),
         Run(Star, 7, Run(Slot, 12, Run(Star, 5, End)))),
        below)
  }

  function Line20(below: Art): (a: Art)
    ensures ArtSlots(a) == 47 + ArtSlots(below) && (SlotsMarked(below) ==> SlotsMarked(a))
  {
    Row(Marked(Run(Blank, 13, Run(Star, 1, Run(Slot, 33, End))),
         Run(Star, 3, Run(Slot, 14, Run(Star, 5, End)))),
        below)
  }

  function Line21(below: Art): (a: Art)
    ensures ArtSlots(a) == 50 + ArtSlots(below) && (SlotsMarked(below) ==> SlotsMarked(a))
  {
    Row(Marked(Run(Blank, 13, Run(Star, 1, Run(Slot, 34, End))),
         Run(Slot, 16, Run(Star, 5, End))),
        below)
  }

  function Line22(below: Art): (a: Art)
    ensures ArtSlots(a) == 49 + ArtSlots(below) && (SlotsMarked(below) ==> SlotsMarked(a))
  {
    Row(Marked(Run(Blank, 13, Run(Star, 1, Run(Slot, 33, End))),
         Run(Slot, 16, Run(Star, 6, End))),
        below)
  }

  function Line23(below: Art): (a: Art)
    ensures ArtSlots(a) == 49 + ArtSlots(below) && (SlotsMarked(below) ==> SlotsMarked(a))
  {
    Row(Marked(Run(Blank, 13, Run(Star, 1, Run(Slot, 32, End))),
         Run(Slot, 17, Run(Star, 2, Run(Blank, 2, Run(Star, 1, End))))),
        below)
  }

  function Line24(below: Art): (a: Art)
    ensures ArtSlots(a) == 48 + ArtSlots(below) && (SlotsMarked(below) ==> SlotsMarked(a))
  {
    Row(Marked(Run(Blank, 13, Run(Star, 1, Run(Slot, 31, End))),
         Run(Slot, 17, Run(Star, 3, End))),
        below)
  }

  function Line25(below: Art): (a: Art)
    ensures ArtSlots(a) == 48 + ArtSlots(below) && (SlotsMarked(below) ==> SlotsMarked(a))
  {
    Row(Marked(Run(Blank, 13, Run(Star, 1, Run(Slot, 30, End))),
         Run(Slot, 18, Run(Star, 3, End))),
        below)
  }

  function Line26(below: Art): (a: Art)
    ensures ArtSlots(a) == 48 + ArtSlots(below) && (SlotsMarked(below) ==> SlotsMarked(a))
  {
    Row(Marked(Run(Blank, 12, Run(Star, 1, Run(Slot, 28, End))),
         Run(Star, 2, Run(Slot, 20, Run(Star, 3, End)))),
        below)
  }

  function Line27(below: Art): (a: Art)
    ensures ArtSlots(a) == 50 + ArtSlots(below) && (SlotsMarked(below) ==> SlotsMarked(a))
  {
    Row(Marked(Run(Blank, 12, Run(Star, 1, Run(Slot, 27, Run(Star, 1, Run(Slot, 7, End))))),
         Run(Slot, 16, Run(Star, 3, End))),
        below)
  }

  function Line28(below: Art): (a: Art)
    ensures ArtSlots(a) == 49 + ArtSlots(below) && (SlotsMarked(below) ==> SlotsMarked(a))
  {
    Row(Marked(Run(Blank, 11, Run(Star, 1, Run(Slot, 28, Run(Star, 1, Run(Slot, 6, End))))),
         Run(Blank, 1, Run(Star, 2, Run(Slot, 15, Run(Star, 3, End))))),
        below)
  }

  function Line29(below: Art): (a: Art)
    ensures ArtSlots(a) == 48 + ArtSlots(below) && (SlotsMarked(below) ==> SlotsMarked(a))
  {
    Row(Marked(Run(Blank, 11, Run(Star, 1, Run(Slot, 28, Run(Star, 1, Run(Slot, 6, Run(Star, 1, Run(Blank, 4, Run(Star, 1, Run(Slot, 14, End))))))))),
         Run(Star, 2, End)),
        below)
  }

  function Line30(below: Art): (a: Art)
    ensures ArtSlots(a) == 47 + ArtSlots(below) && (SlotsMarked(below) ==> SlotsMarked(a))
  {
    Row(Marked(Run(Blank, 10, Run(Star, 1, Run(Slot, 28, Run(Star, 1, Run(Slot, 6, Run(Star, 1, Run(Blank, 6, Run(Star, 1, Run(Slot, 13, End))))))))),
         Run(Star, 2, End)),
        below)
  }

  function Line31(below: Art): (a: Art)
    ensures ArtSlots(a) == 45 + ArtSlots(below) && (SlotsMarked(below) ==> SlotsMarked(a))
  {
    Row(Marked(Run(Blank, 9, Run(Star, 1, Run(Slot, 14, Run(Star, 1, Run(Slot, 14, Run(Star, 1, Run(Slot, 5, Run(Star, 1, Run(Blank, 8, Run(Star, 1, Run(Slot, 12, End))))))))))),
         Run(Star, 1, End)),
        below)
  }

  function Line32(below: Art): (a: Art)
    ensures ArtSlots(a) == 42 + ArtSlots(below) && (SlotsMarked(below) ==> SlotsMarked(a))
  {
    Row(Marked(Run(Blank, 9, Run(Star, 1, Run(Slot, 13, Run(Star, 1, Run(Blank, 1, Run(Star, 1, Run(Slot, 12, Run(Star, 1, Run(Slot, 5, Run(Star, 1, Run(Blank, 9, Run(Star, 1, Run(Slot, 12, End))))))))))))),
         Run(Star, 1, End)),
        below)
  }

  function Line33(below: Art): (a: Art)
    ensures ArtSlots(a) == 41 + ArtSlots(below) && (SlotsMarked(below) ==> SlotsMarked(a))
  {
    Row(Marked(Run(Blank, 8, Run(Star, 1, Run(Slot, 12, End))),
         Run(Blank, 2, Run(Star, 1, Run(Slot, 12, Run(Star, 1, Run(Slot, 5, Run(Star, 1, Run(Blank, 9, Run(Star, 1, Run(Slot, 12, Run(Star, 3, End))))))))))),
        below)
  }

  function Line34(below: Art): (a: Art)
    ensures ArtSlots(a) == 37 + ArtSlots(below) && (SlotsMarked(below) ==> SlotsMarked(a))
  {
    Row(Marked(Run(Blank, 7, Run(Star, 1, Run(Slot, 11, Run(Star, 2, Run(Blank, 4, Run(Star, 1, Run(Slot, 11, Run(Star, 1, Run(Slot, 4, End))))))))),
         Run(Blank, 10, Run(Star, 1, Run(Slot, 11, Run(Star, 3, End))))),
        below)
  }

  function Line35(below: Art): (a: Art)
    ensures ArtSlots(a) == 22 + ArtSlots(below) && (SlotsMarked(below) ==> SlotsMarked(a))
  {
    Row(Marked(Run(Blank, 7, Run(Star, 12, Run(Blank, 5, Run(Star, 1, Run(Slot, 11, End))))),
         Run(Star, 4, Run(Blank, 12, Run(Star, 1, Run(Slot, 11, Run(Star, 3, End)))))),
        below)
  }

  function Line36(below: Art): (a: Art)
    ensures ArtSlots(a) == 23 + ArtSlots(below) && (SlotsMarked(below) ==> SlotsMarked(a))
  {
    Row(Marked(Run(Blank, 9, Run(Star, 5, End)),
         Run(Blank, 7, Run(Star, 1, Run(Slot, 12, Run(Star, 1, Run(Blank, 17, Run(Star, 1, Run(Slot, 11, Run(Star, 2, End))))))))),
        below)
  }

  function Line37(below: Art): (a: Art)
    ensures ArtSlots(a) == 9 + ArtSlots(below) && (SlotsMarked(below) ==> SlotsMarked(a))
  {
    Row(Marked(Run(Blank, 23, Run(Star, 3, Run(Slot, 9, End))),
         Run(Blank, 17, Run(Star, 12, End))),
        below)
  }

  function Line38(below: Art): (a: Art)
    ensures ArtSlots(a) == ArtSlots(below) && (SlotsMarked(below) ==> SlotsMarked(a))
  {
    Row(Marked(Run(Blank, 24, Run(Star, 10, End)),
         Run(Blank, 23, Run(Star, 3, End))),
        below)
  }

  function Line39(below: Art): (a: Art)
    ensures ArtSlots(a) == ArtSlots(below) && (SlotsMarked(below) ==> SlotsMarked(a))
  {
    Row(Marked(Run(Blank, 26, End),
         Run(Star, 3, End)),
        below)
  }

  function Line40(below: Art): (a: Art)
    ensures ArtSlots(a) == ArtSlots(below) && (SlotsMarked(below) ==> SlotsMarked(a))
  {
    Row(Plain(End),
        below)
  }

  /** The whole picture drawn above the lines `below`. */
  function PonyOver(below: Art): (a: Art)
    ensures ArtSlots(a) == 1264 + ArtSlots(below)
    ensures SlotsMarked(below) ==> SlotsMarked(a)
  {
    Line00(Line01(Line02(Line03(Line04(Line05(Line06(Line07(
    Line08(Line09(Line10(Line11(Line12(Line13(Line14(Line15(
    Line16(Line17(Line18(Line19(Line20(Line21(Line22(Line23(
    Line24(Line25(Line26(Line27(Line28(Line29(Line30(Line31(
    Line32(Line33(Line34(Line35(Line36(Line37(Line38(Line39(Line40(below)))))))))))))))))))))))))))))))))))))))))
  }

  const Pony: Art := PonyOver(Done)

  /** TEMPLATE. */
  const Template: string := Text(Pony)

  /** TEMPLATE_CHARS, the number of slots: TEMPLATE.count('x') (lemma TemplateCharsCount). */
  const TemplateChars: nat := 1264

  /** TEMPLATE_BYTES. */
  const TemplateBytes: nat := BytesFor(TemplateChars)

  /** The bytes whose encoding fills `chars` slots: whole groups of four slots, three bytes each. */
  function BytesFor(chars: nat): nat
  {
    (chars / 4) * 3
  }

  /** The encoding of n bytes has at most `chars` characters, and exactly that many when `chars` is a multiple of four. */
  predicate Unpadded4(n: nat, chars: nat)
  {
    (4 * n + 2) / 3 <= chars && (chars % 4 == 0 ==> (4 * n + 2) / 3 == chars)
  }

  // ---------------------------------------------------------------------
  // Properties

  lemma {:induction false} CountXAppend(a: string, b: string)
    ensures CountX(a + b) == CountX(a) + CountX(b)
    decreases |a|
  {
    if |a| == 0 {
      assert a + b == b;
    } else {
      assert (a + b)[1..] == a[1..] + b;
      CountXAppend(a[1..], b);
    }
  }

  lemma {:induction false} CountXRepeat(c: char, n: nat)
    ensures CountX(seq(n, _ => c)) == if c == 'x' then n else 0
  {
    if n > 0 {
      assert seq(n, _ => c)[1..] == seq(n - 1, _ => c);
      CountXRepeat(c, n - 1);
    }
  }

  lemma {:induction false} CountXRuns(r: Runs)
    ensures CountX(RunsText(r)) == Slots(r)
  {
    match r
    case End =>
    case Run(k, n, rest) =>
      CountXRepeat(InkChar(k), n);
      CountXAppend(seq(n, _ => InkChar(k)), RunsText(rest));
      CountXRuns(rest);
  }

  lemma CountXLine(l: Line)
    ensures CountX(LineText(l)) == LineSlots(l)
  {
    match l
    case Plain(r) =>
      CountXRuns(r);
    case Marked(a, b) =>
      CountXRuns(a);
      CountXRuns(b);
      CountXAppend(RunsText(a), "**");
      CountXAppend(RunsText(a) + "**", RunsText(b));
      assert CountX("**") == 0;
  }

  /** The drawing of a picture holds one 'x' per slot. */
  lemma {:induction false} CountXText(a: Art)
    ensures CountX(Text(a)) == ArtSlots(a)
  {
    match a
    case Done =>
    case Row(l, b) =>
      CountXLine(l);
      CountXText(b);
      CountXAppend(LineText(l), "\n");
      CountXAppend(LineText(l) + "\n", Text(b));
      assert CountX("\n") == 0;
  }

  /** The pony has 1264 slots, all of them on marked lines. */
  lemma PonySlots()
    ensures ArtSlots(Pony) == 1264 && SlotsMarked(Pony)
  {
  }

  /** A chunk of BytesFor(chars) bytes encodes to at most `chars` characters, exactly `chars` when that is a multiple of four. */
  lemma BytesForFits(chars: nat)
    ensures Unpadded4(BytesFor(chars), chars)
    ensures chars >= 4 ==> BytesFor(chars) > 0
  {
    var q := chars / 4;
    assert chars == 4 * q + chars % 4;
    assert 4 * BytesFor(chars) + 2 == 3 * (4 * q) + 2;
  }

  /** A whole chunk is whole groups of three bytes. */
  lemma BytesForWhole(chars: nat)
    ensures BytesFor(chars) % 3 == 0
  {
  }

  /** TEMPLATE.count('x') is TEMPLATE_CHARS. */
  lemma TemplateCharsCount()
    ensures CountX(Template) == TemplateChars
  {
    PonySlots();
    CountXText(Pony);
  }
}
