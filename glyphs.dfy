/**
 * The glyph renderer (`asciiFormat`) and the font it draws with: a string of
 * digits and colons becomes a block-art frame, glyph row by glyph row.
 */
module Glyphs {
  import opened Wrappers
  import opened Text

  /** One symbol of the font: its rows, top to bottom. */
  type Glyph = seq<string>

  /** Glyphs for `0` to `9` at indices 0 to 9, the colon at index 10. */
  type Font = seq<Glyph>

  const ColonIndex: nat := 10

  /** Line that separates two glyphs in a font file. */
  const GlyphSeparator: string := "\n<---->\n"

  /**
   * The two ways `asciiFormat` fails: `int()` refusing a character
   * (a `ValueError`), and an `IndexError` from the font lookups or from
   * `string[-1]` on an empty string.
   */
  datatype RenderError = InvalidCharacter(c: char) | IndexOutOfRange

  /** The font index a character selects: its digit value, or 10 for `:`. */
  function GlyphIndex(c: char): (g: Option<nat>)
    ensures g.Some? <==> ('0' <= c <= '9' || c == ':')
    ensures g.Some? ==> g.value <= ColonIndex
    ensures '0' <= c <= '9' ==> g == Some(c as int - '0' as int)
    ensures c == ':' ==> g == Some(ColonIndex)
  {
    if '0' <= c <= '9' then Some(c as int - '0' as int)
    else if c == ':' then Some(ColonIndex)
    else None
  }

  /**
   * The first statement of `asciiFormat`: every character mapped to its font
   * index, failing on the first one `int()` refuses.
   */
  function Codes(s: string): (r: Result<seq<nat>, RenderError>)
    ensures r.Ok? <==> forall i :: 0 <= i < |s| ==> GlyphIndex(s[i]).Some?
    ensures r.Ok? ==> |r.value| == |s|
    ensures r.Ok? ==> forall i :: 0 <= i < |s| ==> GlyphIndex(s[i]) == Some(r.value[i])
    ensures r.Err? ==>
              exists i :: 0 <= i < |s| && GlyphIndex(s[i]).None? && r.error == InvalidCharacter(s[i]) &&
                          (forall j :: 0 <= j < i ==> GlyphIndex(s[j]).Some?)
  {
    if |s| == 0 then Ok([])
    else match GlyphIndex(s[0])
      case None => Err(InvalidCharacter(s[0]))
      case Some(g) =>
        match Codes(s[1..])
        case Err(e) =>
          assert forall i :: 0 < i < |s| ==> s[i] == s[1..][i - 1];
          Err(e)
        case Ok(rest) =>
          assert forall i :: 0 < i < |s| ==> s[i] == s[1..][i - 1];
          Ok([g] + rest)
  }

  /** Number of rows of the frame: `len(font[0])`. */
  function Height(font: Font): nat
    requires |font| > 0
  {
    |font[0]|
  }

  /**
   * Every lookup `asciiFormat` makes succeeds: the font has a glyph 0, and
   * when it has rows the string is non-empty and every glyph it uses exists
   * and has at least that many rows.
   */
  predicate GlyphsPresent(font: Font, codes: seq<nat>)
  {
    |font| > 0 &&
    (Height(font) > 0 ==>
       |codes| > 0 &&
       forall j :: 0 <= j < |codes| ==> codes[j] < |font| && |font[codes[j]]| >= Height(font))
  }

  /** Row `i` of each glyph of the string, in order. */
  function RowParts(font: Font, codes: seq<nat>, i: nat): (parts: seq<string>)
    requires GlyphsPresent(font, codes) && i < Height(font)
  {
    seq(|codes|, j requires 0 <= j < |codes| => font[codes[j]][i])
  }

  /** Line `i` of the frame: row `i` of every glyph, one space between glyphs. */
  function Row(font: Font, codes: seq<nat>, i: nat): string
    requires GlyphsPresent(font, codes) && i < Height(font)
  {
    Join(" ", RowParts(font, codes, i))
  }

  /** All lines of the frame, top to bottom. */
  function Rows(font: Font, codes: seq<nat>): (rows: seq<string>)
    requires GlyphsPresent(font, codes)
    ensures |rows| == Height(font)
  {
    seq(Height(font), i requires 0 <= i < Height(font) => Row(font, codes, i))
  }

  /** The frame: its lines separated by newlines, no newline at the end. */
  function Frame(font: Font, codes: seq<nat>): string
    requires GlyphsPresent(font, codes)
  {
    Join("\n", Rows(font, codes))
  }

  /**
   * `asciiFormat(string, font)`: the string's characters become font
   * indices (failing as `int()` does), then the frame is drawn.
   */
  method AsciiFormat(s: string, font: Font) returns (r: Result<string, RenderError>)
    ensures Codes(s).Err? ==> r == Err(Codes(s).error)
    ensures Codes(s).Ok? && !GlyphsPresent(font, Codes(s).value) ==> r == Err(IndexOutOfRange)
    ensures Codes(s).Ok? && GlyphsPresent(font, Codes(s).value) ==> r == Ok(Frame(font, Codes(s).value))
  {
    var indices := Codes(s);
    if indices.Err? {
      return Err(indices.error);
    }
    if !GlyphsPresent(font, indices.value) {
      return Err(IndexOutOfRange);
    }
    var frame := DrawFrame(font, indices.value);
    r := Ok(frame);
  }

  /**
   * The outer loop of `asciiFormat`: for each row index, append that line
   * of the frame and a newline; then cut off the final newline.
   */
  method DrawFrame(font: Font, codes: seq<nat>) returns (frame: string)
    requires GlyphsPresent(font, codes)
    ensures frame == Frame(font, codes)
  {
    var height := |font[0]|;
    ghost var rows := Rows(font, codes);
    frame := "";
    for i := 0 to height
      invariant i == 0 ==> frame == ""
      invariant i > 0 ==> frame == Join("\n", rows[..i]) + "\n"
    {
      ghost var lineStart := frame;
      frame := DrawRow(frame, font, codes, i);
      if i > 0 {
        JoinSnoc("\n", rows[..i], rows[i]);
      }
      assert rows[..i + 1] == rows[..i] + [rows[i]];
      frame := frame + "\n";
    }
    if height > 0 {
      assert rows[..height] == rows;
      frame := frame[..|frame| - 1];
    }
  }

  /**
   * The inner loop of `asciiFormat`: append row `i` of every glyph but the
   * last followed by a space, then row `i` of the last glyph.
   */
  method DrawRow(frame: string, font: Font, codes: seq<nat>, i: nat) returns (extended: string)
    requires GlyphsPresent(font, codes) && i < Height(font)
    ensures extended == frame + Row(font, codes, i)
  {
    ghost var parts := RowParts(font, codes, i);
    extended := frame;
    var last := |codes| - 1;
    for k := 0 to last
      invariant k == 0 ==> extended == frame
      invariant k > 0 ==> extended == frame + Join(" ", parts[..k]) + " "
    {
      if k > 0 {
        JoinSnoc(" ", parts[..k], parts[k]);
      }
      assert parts[..k + 1] == parts[..k] + [parts[k]];
      var piece := font[codes[k]][i];
      assert piece == parts[k];
      extended := extended + piece + " ";
    }
    if last > 0 {
      JoinSnoc(" ", parts[..last], parts[last]);
    }
    assert parts[..last + 1] == parts[..last] + [parts[last]];
    assert parts[..last + 1] == parts;
    var piece := font[codes[last]][i];
    assert piece == parts[last];
    extended := extended + piece;
  }

  /**
   * Shape of a frame: as many lines as the font's height, line `i` being
   * row `i` of each glyph joined by single spaces, its length the sum of
   * those rows' lengths plus one space fewer than there are glyphs.
   */
  lemma FrameShape(font: Font, codes: seq<nat>)
    requires GlyphsPresent(font, codes) && Height(font) > 0
    requires forall j :: 0 <= j < |codes| ==>
      forall i :: 0 <= i < Height(font) ==> '\n' !in font[codes[j]][i]
    ensures |Split(Frame(font, codes), "\n")| == Height(font)
    ensures forall i :: 0 <= i < Height(font) ==>
      Split(Frame(font, codes), "\n")[i] == Join(" ", RowParts(font, codes, i)) &&
      |Split(Frame(font, codes), "\n")[i]| == TotalLength(RowParts(font, codes, i)) + |codes| - 1
  {
    var rows := Rows(font, codes);
    forall i | 0 <= i < |rows|
      ensures SepFree(rows[i], "\n")
    {
      var parts := RowParts(font, codes, i);
      JoinAvoids(" ", parts, '\n');
      SepFreeChar(rows[i], '\n');
    }
    SplitJoin(rows, "\n");
    forall i | 0 <= i < Height(font)
      ensures |rows[i]| == TotalLength(RowParts(font, codes, i)) + |codes| - 1
    {
      JoinLength(" ", RowParts(font, codes, i));
    }
  }

  /** A font as a font file holds it: glyph rows on lines, glyphs separated by `<---->` lines. */
  function FontText(font: Font): string
  {
    Join(GlyphSeparator, seq(|font|, g requires 0 <= g < |font| => Join("\n", font[g])))
  }

  /** The font load: the file text split on separator lines, each block into its lines. */
  function LoadFont(text: string): (font: Font)
  {
    var blocks := Split(text, GlyphSeparator);
    seq(|blocks|, g requires 0 <= g < |blocks| => Split(blocks[g], "\n"))
  }

  /** Whatever the text, the loaded font has a glyph, every glyph a row, and no row a newline. */
  lemma LoadFontShape(text: string)
    ensures |LoadFont(text)| >= 1
    ensures forall g :: 0 <= g < |LoadFont(text)| ==> |LoadFont(text)[g]| >= 1
    ensures forall g, i :: 0 <= g < |LoadFont(text)| && 0 <= i < |LoadFont(text)[g]| ==> '\n' !in LoadFont(text)[g][i]
  {
    var blocks := Split(text, GlyphSeparator);
    forall g | 0 <= g < |blocks|
      ensures forall i :: 0 <= i < |Split(blocks[g], "\n")| ==> '\n' !in Split(blocks[g], "\n")[i]
    {
      SplitPiecesAvoid(blocks[g], '\n');
    }
  }

  /**
   * Loading the text of a font gives that font back, when it has a glyph,
   * every glyph has a row, and no row holds a newline or a `<`.
   */
  lemma LoadFontText(font: Font)
    requires |font| >= 1
    requires forall g :: 0 <= g < |font| ==> |font[g]| >= 1
    requires forall g, i :: 0 <= g < |font| && 0 <= i < |font[g]| ==> '\n' !in font[g][i] && '<' !in font[g][i]
    ensures LoadFont(FontText(font)) == font
  {
    var blocks := seq(|font|, g requires 0 <= g < |font| => Join("\n", font[g]));
    forall g | 0 <= g < |font|
      ensures SepFree(blocks[g], GlyphSeparator) && Split(blocks[g], "\n") == font[g]
    {
      forall i | 0 <= i < |font[g]|
        ensures SepFree(font[g][i], "\n")
      {
        SepFreeChar(font[g][i], '\n');
      }
      SplitJoin(font[g], "\n");
      JoinAvoids("\n", font[g], '<');
      SepFreeByMarker(blocks[g], GlyphSeparator);
    }
    SplitJoin(blocks, GlyphSeparator);
  }

  /**
   * A font laid out as the font file describes it, eleven or more glyphs,
   * none with fewer rows than glyph 0, renders every non-empty string that
   * `int()` accepts.
   */
  lemma UniformFontRenders(font: Font, s: string)
    requires |font| >= 11 && forall g :: 0 <= g < |font| ==> |font[g]| >= |font[0]|
    requires |s| > 0 && Codes(s).Ok?
    ensures GlyphsPresent(font, Codes(s).value)
  {
  }
}
