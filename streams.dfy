// What the encoder and the decoder see of their streams: the encoder's
// output is the concatenation of the blocks it writes, and the decoder
// reads its input one line at a time, as iterating over a file does.

module Streams {

  /** The concatenation of the pieces, in order. */
  function Concat<T>(xs: seq<seq<T>>): (r: seq<T>)
    ensures |xs| == 1 ==> r == xs[0]
    decreases |xs|
  {
    if |xs| == 0 then [] else xs[0] + Concat(xs[1..])
  }

  lemma {:induction false} ConcatAppend<T>(xs: seq<seq<T>>, ys: seq<seq<T>>)
    ensures Concat(xs + ys) == Concat(xs) + Concat(ys)
    decreases |xs|
  {
    if |xs| == 0 {
      assert xs + ys == ys;
    } else {
      assert (xs + ys)[1..] == xs[1..] + ys;
      ConcatAppend(xs[1..], ys);
    }
  }

  /** Concatenation regroups freely. */
  lemma AppendAssoc<T>(a: seq<T>, b: seq<T>, c: seq<T>)
    ensures (a + b) + c == a + (b + c)
    ensures |a + b| == |a| + |b|
  {
  }

  /** The length of the first line of s, its newline included when it has one. */
  function LineEnd(s: string): (n: nat)
    requires |s| > 0
    ensures 0 < n <= |s|
    decreases |s|
  {
    if s[0] == '\n' || |s| == 1 then 1 else 1 + LineEnd(s[1..])
  }

  /** `for line in stream`: each line keeps its newline; only the last one may lack it. */
  function SplitLines(s: string): (ls: seq<string>)
    ensures |s| > 0 ==> |ls| > 0 && ls[0] == s[..LineEnd(s)]
    decreases |s|
  {
    if |s| == 0 then [] else [s[..LineEnd(s)]] + SplitLines(s[LineEnd(s)..])
  }

  /** The lines put back together give the text. */
  lemma {:induction false} ConcatSplitLines(s: string)
    ensures Concat(SplitLines(s)) == s
    decreases |s|
  {
    if |s| > 0 {
      var n := LineEnd(s);
      var ls := SplitLines(s);
      assert ls[1..] == SplitLines(s[n..]);
      ConcatSplitLines(s[n..]);
      assert s[..n] + s[n..] == s;
    }
  }

  /** A line as iteration yields it: not empty, a newline only at its end,
      and a newline there unless it is the last line of the stream. */
  predicate IsLine(l: string, last: bool)
  {
    |l| > 0 && (forall j :: 0 <= j < |l| - 1 ==> l[j] != '\n') && (!last ==> l[|l| - 1] == '\n')
  }

  /** Every piece SplitLines yields is a line, and only the last may lack its newline. */
  lemma {:induction false} SplitLinesShape(s: string)
    ensures forall k :: 0 <= k < |SplitLines(s)| ==> IsLine(SplitLines(s)[k], k == |SplitLines(s)| - 1)
    decreases |s|
  {
    if |s| > 0 {
      var n := LineEnd(s);
      var ls := SplitLines(s);
      var rest := SplitLines(s[n..]);
      assert ls == [s[..n]] + rest;
      LineEndShape(s);
      SplitLinesShape(s[n..]);
      assert IsLine(ls[0], 0 == |ls| - 1) by {
        if n < |s| {
          assert |rest| > 0;
        }
      }
      forall k | 1 <= k < |ls|
        ensures IsLine(ls[k], k == |ls| - 1)
      {
        assert ls[k] == rest[k - 1];
      }
    }
  }

  /** The first line holds no newline before its end, and it ends in one unless it is all of s. */
  lemma {:induction false} LineEndShape(s: string)
    requires |s| > 0
    ensures forall j :: 0 <= j < LineEnd(s) - 1 ==> s[j] != '\n'
    ensures LineEnd(s) < |s| ==> s[LineEnd(s) - 1] == '\n'
    decreases |s|
  {
    if s[0] != '\n' && |s| > 1 {
      LineEndShape(s[1..]);
      forall j | 0 <= j < LineEnd(s) - 1
        ensures s[j] != '\n'
      {
        if j > 0 {
          assert s[j] == s[1..][j - 1];
        }
      }
    }
  }

  /** A text that ends in a newline splits apart from what follows it. */
  lemma {:induction false} SplitLinesAppend(x: string, y: string)
    requires |x| == 0 || x[|x| - 1] == '\n'
    ensures SplitLines(x + y) == SplitLines(x) + SplitLines(y)
    decreases |x|
  {
    if |x| == 0 {
      assert x + y == y;
    } else {
      var n := LineEnd(x);
      var rest := x[n..];
      assert SplitLines(x + y) == [x[..n]] + SplitLines(rest + y) by {
        LineEndAppend(x, y);
        assert (x + y)[..n] == x[..n];
        assert (x + y)[n..] == rest + y;
      }
      assert |rest| == 0 || rest[|rest| - 1] == '\n' by {
        if |rest| > 0 {
          assert rest[|rest| - 1] == x[|x| - 1];
        }
      }
      SplitLinesAppend(rest, y);
    }
  }

  lemma {:induction false} LineEndAppend(x: string, y: string)
    requires |x| > 0 && x[|x| - 1] == '\n'
    ensures LineEnd(x + y) == LineEnd(x)
    decreases |x|
  {
    if x[0] != '\n' && |x| > 1 {
      assert (x + y)[1..] == x[1..] + y;
      LineEndAppend(x[1..], y);
    }
  }

  /** A line without a newline, followed by one, is read as one line. */
  lemma OneLine(x: string)
    requires forall i :: 0 <= i < |x| ==> x[i] != '\n'
    ensures SplitLines(x + "\n") == [x + "\n"]
  {
    var s := x + "\n";
    LineEndOfLine(x);
    assert s[..LineEnd(s)] == s;
    assert s[LineEnd(s)..] == [];
    assert SplitLines(s) == [s] + SplitLines([]);
  }

  lemma {:induction false} LineEndOfLine(x: string)
    requires forall i :: 0 <= i < |x| ==> x[i] != '\n'
    ensures LineEnd(x + "\n") == |x| + 1
    decreases |x|
  {
    if |x| > 0 {
      assert (x + "\n")[1..] == x[1..] + "\n";
      LineEndOfLine(x[1..]);
    }
  }
}
