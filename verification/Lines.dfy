/** Splitting text into lines that keep their newline, and gluing lines back together. */
module Lines {
  import opened Bytes

  type Line = seq<byte>

  const NEWLINE: byte := 0x0A

  /** One past the first newline of `text`, or the end of the text when it has none. */
  function LineEnd(text: seq<byte>): (n: nat)
    requires text != []
    ensures 0 < n <= |text|
    ensures NEWLINE !in text[..n - 1]
    ensures text[n - 1] == NEWLINE || n == |text|
  {
    if text[0] == NEWLINE || |text| == 1 then 1
    else
      var rest := LineEnd(text[1..]);
      assert text[..rest] == [text[0]] + text[1..][..rest - 1];
      1 + rest
  }

  /** `lines`: every line keeps its newline; empty text has no lines. */
  function SplitLines(text: seq<byte>): seq<Line> {
    if text == [] then []
    else [text[..LineEnd(text)]] + SplitLines(text[LineEnd(text)..])
  }

  /** `concat`: the lines glued together. */
  function Concat(lines: seq<Line>): seq<byte> {
    if lines == [] then [] else lines[0] + Concat(lines[1..])
  }

  predicate Terminated(line: Line) {
    line != [] && line[|line| - 1] == NEWLINE && NEWLINE !in line[..|line| - 1]
  }

  predicate Unterminated(line: Line) {
    line != [] && NEWLINE !in line
  }

  /** What `lines` can produce: one newline per line, at its end, optional only on the last line. */
  predicate WellFormed(lines: seq<Line>) {
    && (forall i :: 0 <= i < |lines| ==> Terminated(lines[i]) || Unterminated(lines[i]))
    && (forall i :: 0 <= i < |lines| - 1 ==> Terminated(lines[i]))
  }

  /** The end of the first line is the only position with these two properties. */
  lemma {:induction false} LineEndUnique(text: seq<byte>, n: nat)
    requires 0 < n <= |text|
    requires NEWLINE !in text[..n - 1]
    requires text[n - 1] == NEWLINE || n == |text|
    ensures LineEnd(text) == n
  {
    if n > 1 {
      assert text[0] == text[..n - 1][0];
      assert text[1..][..n - 2] == text[..n - 1][1..];
      LineEndUnique(text[1..], n - 1);
    }
  }

  lemma {:induction false} FirstLineShape(text: seq<byte>)
    requires text != []
    ensures var n := LineEnd(text);
      if text[n - 1] == NEWLINE then Terminated(text[..n]) else n == |text| && Unterminated(text)
  {
    var n := LineEnd(text);
    if text[n - 1] == NEWLINE {
      assert text[..n][..n - 1] == text[..n - 1];
    } else {
      assert forall i :: 0 <= i < n - 1 ==> text[..n - 1][i] == text[i];
    }
  }

  lemma {:induction false} SplitLinesWellFormed(text: seq<byte>)
    ensures WellFormed(SplitLines(text))
  {
    if text != [] {
      var n := LineEnd(text);
      FirstLineShape(text);
      SplitLinesWellFormed(text[n..]);
      assert text[..|text|] == text;
    }
  }

  /** Gluing the lines of a text gives the text back. */
  lemma {:induction false} SplitLinesExact(text: seq<byte>)
    ensures Concat(SplitLines(text)) == text
  {
    if text != [] {
      var n := LineEnd(text);
      SplitLinesExact(text[n..]);
      assert text == text[..n] + text[n..];
    }
  }

  /** Well-formed lines survive a round trip through their concatenation. */
  lemma {:induction false} ConcatResplits(lines: seq<Line>)
    requires WellFormed(lines)
    ensures SplitLines(Concat(lines)) == lines
  {
    if lines != [] {
      var first, rest := lines[0], Concat(lines[1..]);
      var n := |first|;
      var text := first + rest;
      assert text[..n - 1] == first[..n - 1];
      if |lines| == 1 {
        assert text == first;
      }
      LineEndUnique(text, n);
      assert text[..n] == first && text[n..] == rest;
      ConcatResplits(lines[1..]);
    }
  }

  /** Every line of valid text is valid text. */
  lemma {:induction false} SplitLinesUtf8(text: seq<byte>)
    requires Utf8(text)
    ensures forall line :: line in SplitLines(text) ==> Utf8(line)
  {
    if text != [] {
      var n := LineEnd(text);
      assert text == text[..n] + text[n..];
      if text[n - 1] == NEWLINE {
        Utf8CutAfterAscii(text[..n], text[n..]);
      } else {
        assert text[..n] == text && text[n..] == [];
      }
      SplitLinesUtf8(text[n..]);
    }
  }

  lemma {:induction false} ConcatUtf8(lines: seq<Line>)
    requires forall line :: line in lines ==> Utf8(line)
    ensures Utf8(Concat(lines))
  {
    if lines != [] {
      ConcatUtf8(lines[1..]);
      Utf8Concat(lines[0], Concat(lines[1..]));
    }
  }
}
