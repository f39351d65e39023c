/**
 * The layout engine (`center`): a frame is padded with spaces and blank
 * lines to sit in the middle of the terminal, or reported as not fitting.
 */
module Layout {
  import opened Wrappers
  import opened Text

  /** Lines kept free under the frame for the status and instructions. */
  const ReservedLines: nat := 3

  /** `max(map(len, lines))`. */
  function MaxLength(lines: seq<string>): (m: nat)
    requires |lines| > 0
    ensures forall i :: 0 <= i < |lines| ==> |lines[i]| <= m
    ensures exists i :: 0 <= i < |lines| && |lines[i]| == m
  {
    if |lines| == 1 then |lines[0]|
    else
      var rest := MaxLength(lines[1..]);
      assert forall i :: 1 <= i < |lines| ==> lines[i] == lines[1..][i - 1];
      if |lines[0]| >= rest then |lines[0]| else rest
  }

  /** `c * n`. */
  function Repeat(c: char, n: nat): (s: string)
    ensures |s| == n && forall i :: 0 <= i < n ==> s[i] == c
  {
    if n == 0 then "" else [c] + Repeat(c, n - 1)
  }

  /** Frame width: its longest line. */
  function FrameWidth(frame: string): nat
  {
    MaxLength(Split(frame, "\n"))
  }

  /** Frame height: its number of lines. */
  function FrameHeight(frame: string): nat
  {
    |Split(frame, "\n")|
  }

  /** Each line with `pad` on both sides. */
  function PadLines(lines: seq<string>, pad: string): (padded: seq<string>)
    ensures |padded| == |lines|
    ensures forall i :: 0 <= i < |lines| ==> padded[i] == pad + lines[i] + pad
  {
    if |lines| == 0 then [] else [pad + lines[0] + pad] + PadLines(lines[1..], pad)
  }

  /**
   * `center(frame, [termHeight, termWidth])`, with the `centered` setting
   * as a parameter. `None` is the "does not fit" answer. The paddings are
   * `int((termWidth - frameWidth) / 2)` and `int((termHeight - frameHeight) / 2)`,
   * taken only when both differences are non-negative, so floor division.
   */
  function Center(frame: string, termHeight: int, termWidth: int, centered: bool): (r: Option<string>)
    ensures !centered ==> r == Some(frame)
    ensures centered ==>
              (r.None? <==> termWidth < FrameWidth(frame) || termHeight < FrameHeight(frame) + ReservedLines)
  {
    if !centered then Some(frame)
    else
      var lines := Split(frame, "\n");
      var frameWidth := MaxLength(lines);
      var frameHeight := |lines|;
      if termWidth < frameWidth || termHeight < frameHeight + ReservedLines then None
      else
        Some(Padded(lines, (termWidth - frameWidth) / 2, (termHeight - frameHeight) / 2))
  }

  /** The lines, `pad` spaces on both sides of each, joined, with `vpad` newlines before and after. */
  function Padded(lines: seq<string>, pad: nat, vpad: nat): string
  {
    var spaces := Repeat(' ', pad);
    var newlines := Repeat('\n', vpad);
    newlines + Join("\n", PadLines(lines, spaces)) + newlines
  }

  /** `n` empty lines. */
  function Blank(n: nat): (lines: seq<string>)
    ensures |lines| == n && forall i :: 0 <= i < n ==> lines[i] == ""
  {
    seq(n, _ => "")
  }

  /** Blank lines joined in front put that many newlines in front. */
  lemma {:induction false} JoinBlankBefore(n: nat, lines: seq<string>)
    requires |lines| >= 1
    ensures Join("\n", Blank(n) + lines) == Repeat('\n', n) + Join("\n", lines)
  {
    if n > 0 {
      JoinBlankBefore(n - 1, lines);
      assert Blank(n) + lines == [""] + (Blank(n - 1) + lines);
      assert (Blank(n) + lines)[1..] == Blank(n - 1) + lines;
      assert Repeat('\n', n) == "\n" + Repeat('\n', n - 1);
    } else {
      assert Blank(0) + lines == lines;
    }
  }

  /** Blank lines joined behind put that many newlines behind. */
  lemma {:induction false} JoinBlankAfter(lines: seq<string>, n: nat)
    requires |lines| >= 1
    ensures Join("\n", lines + Blank(n)) == Join("\n", lines) + Repeat('\n', n)
  {
    if n > 0 {
      JoinBlankAfter(lines, n - 1);
      assert lines + Blank(n) == (lines + Blank(n - 1)) + [""];
      JoinSnoc("\n", lines + Blank(n - 1), "");
      assert Repeat('\n', n) == Repeat('\n', n - 1) + "\n";
    } else {
      assert lines + Blank(0) == lines;
    }
  }

  /** The lines of `Padded(lines, pad, vpad)`. */
  function Block(lines: seq<string>, pad: nat, vpad: nat): (out: seq<string>)
    ensures |out| == 2 * vpad + |lines|
  {
    Blank(vpad) + PadLines(lines, Repeat(' ', pad)) + Blank(vpad)
  }

  /** The lines of a padded block: blank lines, the padded lines, blank lines. */
  lemma {:induction false} PaddedLines(lines: seq<string>, pad: nat, vpad: nat)
    requires |lines| >= 1 && forall i :: 0 <= i < |lines| ==> '\n' !in lines[i]
    ensures Split(Padded(lines, pad, vpad), "\n") == Block(lines, pad, vpad)
  {
    var spaces := Repeat(' ', pad);
    var newlines := Repeat('\n', vpad);
    var padded := PadLines(lines, spaces);
    var all := Block(lines, pad, vpad);
    JoinBlankAfter(padded, vpad);
    JoinBlankBefore(vpad, padded + Blank(vpad));
    assert Blank(vpad) + (padded + Blank(vpad)) == all;
    assert Join("\n", all) == newlines + Join("\n", padded) + newlines;
    PaddedAvoidsNewline(lines, pad, vpad);
    SplitJoin(all, "\n");
  }

  /** No line of a padded block holds a newline. */
  lemma PaddedAvoidsNewline(lines: seq<string>, pad: nat, vpad: nat)
    requires forall i :: 0 <= i < |lines| ==> '\n' !in lines[i]
    ensures var all := Block(lines, pad, vpad);
            forall i :: 0 <= i < |all| ==> SepFree(all[i], "\n")
  {
    var spaces := Repeat(' ', pad);
    var all := Block(lines, pad, vpad);
    forall i | 0 <= i < |all|
      ensures SepFree(all[i], "\n")
    {
      if vpad <= i < vpad + |lines| {
        assert all[i] == spaces + lines[i - vpad] + spaces;
      }
      SepFreeChar(all[i], '\n');
    }
  }

  /** The lines of a padded block, one by one. */
  lemma BlockLines(lines: seq<string>, pad: nat, vpad: nat)
    ensures var out := Block(lines, pad, vpad);
            (forall i :: 0 <= i < vpad ==> out[i] == "") &&
            (forall i :: 0 <= i < |lines| ==> out[vpad + i] == Repeat(' ', pad) + lines[i] + Repeat(' ', pad)) &&
            (forall i :: vpad + |lines| <= i < |out| ==> out[i] == "")
  {
    var padded := PadLines(lines, Repeat(' ', pad));
    var out := Block(lines, pad, vpad);
    assert out == (Blank(vpad) + padded) + Blank(vpad);
    forall i | 0 <= i < |lines|
      ensures out[vpad + i] == padded[i]
    {
      assert (Blank(vpad) + padded)[vpad + i] == padded[i];
    }
    forall i | vpad + |lines| <= i < |out|
      ensures out[i] == ""
    {
      assert out[i] == Blank(vpad)[i - vpad - |lines|];
    }
  }

  /** No line of a padded block is wider than `m` plus both pads, when no given line is wider than `m`. */
  lemma BlockBound(lines: seq<string>, pad: nat, vpad: nat, m: nat)
    requires forall i :: 0 <= i < |lines| ==> |lines[i]| <= m
    ensures forall i :: 0 <= i < |Block(lines, pad, vpad)| ==> |Block(lines, pad, vpad)[i]| <= 2 * pad + m
  {
    var out := Block(lines, pad, vpad);
    BlockLines(lines, pad, vpad);
    forall i | 0 <= i < |out|
      ensures |out[i]| <= 2 * pad + m
    {
      if vpad <= i < vpad + |lines| {
        assert out[i] == Repeat(' ', pad) + lines[i - vpad] + Repeat(' ', pad);
      }
    }
  }

  /**
   * A padded block, line by line: `vpad` blank lines, every line with `pad`
   * spaces on each side, `vpad` blank lines; no line is wider than the
   * widest given line plus both pads, and one is exactly that wide.
   */
  lemma BlockShape(lines: seq<string>, pad: nat, vpad: nat)
    requires |lines| >= 1
    ensures var out := Block(lines, pad, vpad);
            (forall i :: 0 <= i < vpad ==> out[i] == "") &&
            (forall i :: 0 <= i < |lines| ==> out[vpad + i] == Repeat(' ', pad) + lines[i] + Repeat(' ', pad)) &&
            (forall i :: vpad + |lines| <= i < |out| ==> out[i] == "") &&
            (forall i :: 0 <= i < |out| ==> |out[i]| <= 2 * pad + MaxLength(lines)) &&
            exists i :: 0 <= i < |out| && |out[i]| == 2 * pad + MaxLength(lines)
  {
    var m := MaxLength(lines);
    BlockLines(lines, pad, vpad);
    BlockBound(lines, pad, vpad, m);
    var k :| 0 <= k < |lines| && |lines[k]| == m;
    assert |Block(lines, pad, vpad)[vpad + k]| == 2 * pad + m;
  }

  /**
   * A centered frame, split into lines, is the padded block of the frame's
   * lines, with `pad` and `vpad` half the spare width and half the spare
   * height rounded down; both pads together fit in the terminal's width,
   * and the block has no more lines than the terminal has rows.
   */
  lemma CenterLayout(frame: string, termHeight: int, termWidth: int)
    requires Center(frame, termHeight, termWidth, true).Some?
    ensures termWidth >= FrameWidth(frame) && termHeight >= FrameHeight(frame) + ReservedLines
    ensures Split(Center(frame, termHeight, termWidth, true).value, "\n") ==
            Block(Split(frame, "\n"), (termWidth - FrameWidth(frame)) / 2, (termHeight - FrameHeight(frame)) / 2)
    ensures 2 * ((termWidth - FrameWidth(frame)) / 2) + FrameWidth(frame) <= termWidth
    ensures 2 * ((termHeight - FrameHeight(frame)) / 2) + FrameHeight(frame) <= termHeight
  {
    var lines := Split(frame, "\n");
    var spareWidth := termWidth - MaxLength(lines);
    var spareHeight := termHeight - |lines|;
    assert spareWidth >= 0 && spareHeight >= 0;
    var pad, vpad := spareWidth / 2, spareHeight / 2;
    assert 2 * pad <= spareWidth && 2 * vpad <= spareHeight;
    assert Center(frame, termHeight, termWidth, true) == Some(Padded(lines, pad, vpad));
    SplitPiecesAvoid(frame, '\n');
    PaddedLines(lines, pad, vpad);
  }

  /**
   * A centered frame fits the terminal: no line is wider than the terminal,
   * and there are no more lines than the terminal has rows.
   */
  lemma CenterFits(frame: string, termHeight: int, termWidth: int)
    requires Center(frame, termHeight, termWidth, true).Some?
    ensures var out := Split(Center(frame, termHeight, termWidth, true).value, "\n");
            |out| <= termHeight &&
            forall i :: 0 <= i < |out| ==> |out[i]| <= termWidth
  {
    var lines := Split(frame, "\n");
    CenterLayout(frame, termHeight, termWidth);
    BlockShape(lines, (termWidth - FrameWidth(frame)) / 2, (termHeight - FrameHeight(frame)) / 2);
  }
}
