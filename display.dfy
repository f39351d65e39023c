/**
 * `printTime` without the terminal: the remaining seconds are formatted,
 * rendered with the font and centered, and the text that would be printed
 * after clearing the screen is returned.
 */
module Display {
  import opened Wrappers
  import opened Glyphs
  import opened Clock
  import opened Layout
  import TimerModel

  /**
   * What `printTime` prints after clearing: the bare time when the frame
   * does not fit, otherwise the frame, then the status line and the
   * instructions line.
   */
  function Screen(t: string, frame: Option<string>, status: string, instructions: string): string
  {
    match frame
    case None => t + "\n"
    case Some(f) => f + status + "\n" + instructions + "\n"
  }

  /**
   * `printTime(seconds, status, instructions)` with the font, the terminal
   * size and the centering setting as parameters.
   */
  method PrintTime(seconds: int, status: string, instructions: string, font: Font,
                   termHeight: int, termWidth: int, centered: bool)
    returns (r: Result<string, RenderError>)
    ensures Codes(FormatTime(seconds)).Ok?
    ensures !GlyphsPresent(font, Codes(FormatTime(seconds)).value) ==> r == Err(IndexOutOfRange)
    ensures GlyphsPresent(font, Codes(FormatTime(seconds)).value) ==>
              r == Ok(Screen(FormatTime(seconds),
                             Center(Frame(font, Codes(FormatTime(seconds)).value), termHeight, termWidth, centered),
                             status, instructions))
  {
    var t := FormatTime(seconds);
    TimeRenders(seconds);
    var frame := AsciiFormat(t, font);
    if frame.Err? {
      return Err(frame.error);
    }
    r := Ok(Screen(t, Center(frame.value, termHeight, termWidth, centered), status, instructions));
  }

  /** Every shown time is made of digits and colons only, so the renderer takes it. */
  lemma TimeRenders(seconds: int)
    ensures Codes(FormatTime(seconds)).Ok?
    ensures |Codes(FormatTime(seconds)).value| == |FormatTime(seconds)|
  {
    var t := FormatTime(seconds);
    assert forall i :: 0 <= i < |t| ==> GlyphIndex(t[i]).Some?;
  }

  /**
   * With a complete font, no glyph shorter than glyph 0, every shown time
   * renders, so `printTime` never fails.
   */
  lemma TimeRendersWithFont(seconds: int, font: Font)
    requires |font| >= 11 && forall g :: 0 <= g < |font| ==> |font[g]| >= |font[0]|
    ensures Codes(FormatTime(seconds)).Ok? && GlyphsPresent(font, Codes(FormatTime(seconds)).value)
  {
    TimeRenders(seconds);
    UniformFontRenders(font, FormatTime(seconds));
  }

  /** Each time reads back, and no time reads back later than an earlier one. */
  predicate TimesNonIncreasing(seconds: seq<int>)
  {
    (forall k :: 0 <= k < |seconds| ==> ParseTime(FormatTime(seconds[k])).Some?) &&
    (forall j, k :: 0 <= j <= k < |seconds| ==>
       ParseTime(FormatTime(seconds[k])).value <= ParseTime(FormatTime(seconds[j])).value)
  }

  /** Seconds that never go up show times that never go up. */
  lemma ShownTimesNonIncreasing(seconds: seq<int>)
    requires forall j, k :: 0 <= j <= k < |seconds| ==> seconds[k] <= seconds[j]
    ensures TimesNonIncreasing(seconds)
  {
    forall k | 0 <= k < |seconds|
      ensures ParseTime(FormatTime(seconds[k])).Some?
    {
      FormatTimeReadsBack(seconds[k]);
    }
    forall j, k | 0 <= j <= k < |seconds|
      ensures ParseTime(FormatTime(seconds[k])).value <= ParseTime(FormatTime(seconds[j])).value
    {
      FormatTimeMonotone(seconds[j], seconds[k]);
    }
  }

  /** The seconds of each redraw. */
  function SecondsShown(shown: seq<TimerModel.Shown>): (seconds: seq<int>)
    ensures |seconds| == |shown|
    ensures forall k :: 0 <= k < |shown| ==> seconds[k] == shown[k].seconds
  {
    seq(|shown|, k requires 0 <= k < |shown| => shown[k].seconds)
  }

  /** The seconds an uninterrupted countdown shows: `n` down to 0, then -1. */
  lemma CountdownSeconds(s: TimerModel.TimerState)
    requires TimerModel.Ticking(s)
    ensures var seconds := SecondsShown(TimerModel.Countdown(s).1);
            |seconds| == s.remainingSeconds + 2 &&
            (forall k :: 0 <= k < |seconds| ==>
               seconds[k] == if k <= s.remainingSeconds then s.remainingSeconds - k else -1)
  {
    var shown := TimerModel.Countdown(s).1;
    TimerModel.CountdownRuns(s);
    var seconds := SecondsShown(shown);
    forall k | 0 <= k < |seconds|
      ensures seconds[k] == if k <= s.remainingSeconds then s.remainingSeconds - k else -1
    {
      assert seconds[k] == shown[k].seconds;
    }
  }

  /**
   * An uninterrupted countdown shows `n`, `n - 1`, ..., `0` and once more
   * `00:00`: the shown time never goes up, and the last two redraws show
   * "00:00", the last although one second more was taken off.
   */
  lemma CountdownShows(s: TimerModel.TimerState)
    requires TimerModel.Ticking(s)
    ensures var seconds := SecondsShown(TimerModel.Countdown(s).1);
            |seconds| == s.remainingSeconds + 2 &&
            TimesNonIncreasing(seconds) &&
            FormatTime(seconds[|seconds| - 2]) == "00:00" &&
            FormatTime(seconds[|seconds| - 1]) == "00:00"
  {
    var seconds := SecondsShown(TimerModel.Countdown(s).1);
    CountdownSeconds(s);
    assert forall j, k :: 0 <= j <= k < |seconds| ==> seconds[k] <= seconds[j];
    ShownTimesNonIncreasing(seconds);
  }

  /**
   * With a complete font, no redraw of a countdown fails, so the run is
   * never cut short by `printTime` raising before the decrement.
   */
  lemma CountdownRedrawsRender(s: TimerModel.TimerState, font: Font)
    requires |font| >= 11 && forall g :: 0 <= g < |font| ==> |font[g]| >= |font[0]|
    ensures var shown := TimerModel.Countdown(s).1;
            forall k :: 0 <= k < |shown| ==>
              Codes(FormatTime(shown[k].seconds)).Ok? &&
              GlyphsPresent(font, Codes(FormatTime(shown[k].seconds)).value)
  {
    var shown := TimerModel.Countdown(s).1;
    forall k | 0 <= k < |shown|
      ensures Codes(FormatTime(shown[k].seconds)).Ok? &&
              GlyphsPresent(font, Codes(FormatTime(shown[k].seconds)).value)
    {
      TimeRendersWithFont(shown[k].seconds, font);
    }
  }
}
