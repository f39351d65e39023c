# tty-countdown, modelled in Dafny

`tty-countdown.py` is a terminal countdown timer. It draws the remaining time as block-art digits, centers them in the terminal and reacts to single keys: space pauses or resumes, `r` resets and `q` quits. This project models the logic under the terminal and threading glue and proves properties of it:

- **Glyph renderer** (`glyphs.dfy`, module `Glyphs`). `asciiFormat` maps each character to a font index. A digit gives its value, `:` gives 10, and any other character fails as `int()` does. The frame is then built row by row with nested loops. `DrawFrame` keeps the outer loop, and its helper `DrawRow` keeps the inner one. The font loader splits the file text on `\n<---->\n` and then on newlines.
- **Layout engine** (`layout.dfy`, module `Layout`). `center` either reports "does not fit" (`None`) or pads the frame with spaces and blank lines. The global `centered` setting becomes a parameter.
- **Time format** (`clock.dfy`, module `Clock`). This is `"%02d:%02d" % divmod(max(seconds, 0), 60)`.
- **Redraw** (`display.dfy`, module `Display`). `printTime` is modelled as the text it prints after clearing the screen. The terminal size is a parameter.
- **Timer** (`timer_model.dfy` and `timer.dfy`). `CountdownTimer` is a class whose methods update its fields in place. Each method is proved against a pure transition function over a `TimerState` value. The module `Timer` also holds the main program's key loop and the session that wraps it.
- **Helpers** (`text.dfy`, module `Text`). Python's `str.split` and `str.join`, with their round-trip lemmas. `wrappers.dfy` holds `Option` and `Result`.

The model follows the code, including where its behaviour may not be what a user expects:

- **reset.** `reset` sets `running` to true, restores the time and then calls `start_pause`, so a reset timer is always **paused**. It does not restart the countdown.
- **Natural finish.** When the countdown runs out, the code sets "Finished!" but never clears `running`. The timer stays at -1 seconds with `running` still set.
- **Final redraws.** The last pass of the loop shows 0, and the `else` branch then shows -1, which the clamp displays as `00:00`. So `00:00` is drawn twice.
- **Padding.** Every line gets the same pad, `(termWidth - frameWidth) // 2`, on both sides. The left and right pads are always equal, and an odd spare column is simply not used.
- **No extra redraws.** `start_pause` and `reset` do not redraw by themselves, and turning centering off adds no blank lines.
- **Threads.** Each resume starts a new countdown thread. Nothing makes that start idempotent.
- **Integer seconds.** The remaining time is an integer that drops by exactly 1 per pass.

## Model

| member | source | states |
|---|---|---|
| `Text.Split` | tty-countdown.py:69 | `s.split(sep)` for a non-empty separator: cut at each leftmost occurrence of `sep`; always at least one piece (the round trips are `Text.SplitJoin` and `Text.JoinSplit`) |
| `Text.Join` | tty-countdown.py:79 | `sep.join(parts)`: the parts in order with `sep` between neighbours, and the empty string for no parts (its length is given by `Text.JoinLength`) |
| `Text.JoinLength` | tty-countdown.py:79 | a join of at least one part is as long as all the parts plus one separator between each pair of neighbours |
| `Text.SplitJoin` | tty-countdown.py:69-79 | splitting a `sep.join(parts)` on `sep` gives the parts back when no separator can start inside a part |
| `Text.JoinSplit` | tty-countdown.py:69-79 | joining the pieces of `s.split(sep)` with `sep` gives `s` back, for every `s` |
| `Text.SplitPiecesAvoid` | tty-countdown.py:69 | no piece of a split on a character contains that character |
| `Glyphs.GlyphIndex` | tty-countdown.py:49 | a character has a font index exactly when it is a digit or `:`; a digit selects its value and `:` selects 10 |
| `Glyphs.Codes` | tty-countdown.py:49 | succeeds exactly when every character has an index, and then gives one index per character in order; otherwise fails with the first refused character |
| `Glyphs.AsciiFormat` | tty-countdown.py:47-61 | a refused character gives `InvalidCharacter`; an empty font gives `IndexOutOfRange`; when glyph 0 has at least one row, an empty string, a missing glyph or a glyph shorter than glyph 0 also gives `IndexOutOfRange`; otherwise the result is the frame (so when glyph 0 has no rows every accepted string, the empty one included, gives the empty frame) |
| `Glyphs.DrawFrame` | tty-countdown.py:50-61 | the outer loop, which appends each line of the frame and a newline and then cuts the last newline, produces exactly the frame: its lines joined by newlines, with no newline at the end |
| `Glyphs.DrawRow` | tty-countdown.py:55-58 | the inner loop, which appends each glyph's row and a space and then the last glyph's row alone, appends exactly line `i` of the frame: row `i` of each glyph, joined by single spaces |
| `Glyphs.Frame` | tty-countdown.py:50-61 | the frame `asciiFormat` returns: line `i` is row `i` of every glyph joined by single spaces, the lines joined by newlines with none at the end (the loops are proved equal to it by `Glyphs.DrawFrame`) |
| `Glyphs.FrameShape` | tty-countdown.py:50-61 | a frame has as many lines as the font's height, whatever the string's length; line `i` is row `i` of each glyph joined by single spaces, with length equal to the sum of those rows plus one less than the number of glyphs |
| `Glyphs.LoadFont` | tty-countdown.py:164-165 | the font load: the file text split on `\n<---->\n`, each block split on newlines (its shape is `Glyphs.LoadFontShape`, its inverse `Glyphs.FontText` by `Glyphs.LoadFontText`) |
| `Glyphs.LoadFontShape` | tty-countdown.py:163-165 | whatever the file text, the loaded font has at least one glyph, every glyph has at least one row, and no row contains a newline |
| `Glyphs.LoadFontText` | tty-countdown.py:164-165 | loading the text of a font gives the font back, when it has a glyph, every glyph has a row, and no row has a newline or `<` |
| `Glyphs.UniformFontRenders` | tty-countdown.py:49-58 | with at least 11 glyphs, none with fewer rows than glyph 0, every non-empty string of digits and colons renders without an index error |
| `Layout.MaxLength` | tty-countdown.py:70 | no line is longer than the result, and some line is exactly that long |
| `Layout.Center` | tty-countdown.py:65-84 | with centering off, the frame comes back unchanged; with centering on, the result is `None` exactly when the terminal is narrower than the widest line or has fewer rows than the line count plus 3 |
| `Layout.Padded` | tty-countdown.py:77-83 | every line with `pad` spaces on both sides, joined by newlines, with `vpad` newlines in front and behind (split into lines it is `Layout.Block`, by `Layout.PaddedLines`) |
| `Layout.PaddedLines` | tty-countdown.py:77-83 | the padded text splits into `vpad` blank lines, each frame line with `pad` spaces on both sides, and `vpad` blank lines |
| `Layout.BlockBound` | tty-countdown.py:78-79 | when no frame line is wider than `m`, no line of the padded block is wider than `m + 2 * pad` |
| `Layout.BlockShape` | tty-countdown.py:77-83 | in the padded block the first and last `vpad` lines are empty, line `vpad + i` is `pad + line[i] + pad`, no line is wider than the widest frame line plus `2 * pad`, and one line is exactly that wide |
| `Layout.CenterLayout` | tty-countdown.py:66-84 | a centered frame splits into the padded block with `pad = (termWidth - frameWidth) / 2` and `vpad = (termHeight - frameHeight) / 2` rounded down; its widest line fits the width and its `2 * vpad + frameHeight` lines fit the height |
| `Layout.CenterFits` | tty-countdown.py:66-84 | a centered frame fits the terminal: no line is wider than the terminal and there are no more lines than it has rows |
| `Clock.Decimal` | tty-countdown.py:103 | `%d` gives at least one digit and only digits, one digit exactly for values below 10, and a leading `0` only for 0 itself |
| `Clock.DecimalValue` | tty-countdown.py:103 | the digits of `n` read back as `n` |
| `Clock.ZeroPad2Shape` | tty-countdown.py:103 | `%02d` gives at least two digits, exactly two below 100, no leading `0` from 10 up, and they read back as the number |
| `Clock.ZeroPad2` | tty-countdown.py:103 | `%02d`: the digits of the number, with a `0` in front when there is only one (shape and value in `Clock.ZeroPad2Shape`) |
| `Clock.FormatTime` | tty-countdown.py:103 | the shown time is at least five characters, has `:` third from the end and digits everywhere else, and any non-positive count shows `00:00` |
| `Clock.FormatTimeReadsBack` | tty-countdown.py:103 | the minutes field has at least two digits, the seconds field exactly two with a value below 60, and `60 * MM + SS = max(seconds, 0)`; below 6000 seconds the time is exactly five characters, and a longer one does not start with `0` |
| `Clock.FormatTimeMonotone` | tty-countdown.py:103 | fewer seconds never show a later time |
| `Display.PrintTime` | tty-countdown.py:101-110 | the time string always renders as characters; a font missing a glyph gives `IndexOutOfRange`; otherwise the printed text is the frame, then status and instructions, or the bare time when the frame does not fit |
| `Display.Screen` | tty-countdown.py:105-110 | what `printTime` prints after clearing: the bare time and a newline when the frame does not fit, otherwise the frame as it is, with no newline added, then the status line and the instructions line |
| `Display.TimeRenders` | tty-countdown.py:103-104 | every shown time passes the character check of `asciiFormat`, one index per character |
| `Display.TimeRendersWithFont` | tty-countdown.py:103-104 | with at least 11 glyphs, none with fewer rows than glyph 0, every shown time renders, so `printTime` never fails |
| `Display.ShownTimesNonIncreasing` | tty-countdown.py:103 | seconds that never go up show times that never go up |
| `Display.CountdownSeconds` | tty-countdown.py:142-158 | an uninterrupted countdown from `n` redraws the seconds `n, n - 1, ..., 0` and then -1 |
| `Display.CountdownShows` | tty-countdown.py:142-158 | an uninterrupted countdown from `n` redraws `n + 2` times; the shown times never go up, and the last two redraws both show `00:00` |
| `Display.CountdownRedrawsRender` | tty-countdown.py:142-158 | with at least 11 glyphs, none with fewer rows than glyph 0, every redraw of a countdown renders, so `printTime` never raises inside the loop or its `else` branch |
| `TimerModel.Init` | tty-countdown.py:113-119 | a new timer has the full time left and is not running |
| `TimerModel.StartPause` | tty-countdown.py:121-130 | `running` flips; time left and configured time are unchanged; status and instructions say "Working..." when running and "Paused..." when not |
| `TimerModel.Reset` | tty-countdown.py:132-135 | from any state, the time left is the configured time, the timer is not running, and status and instructions are the paused ones |
| `TimerModel.End` | tty-countdown.py:137-140 | the timer is not running, shows "Aborted!" and "Bye!", and the time left is unchanged |
| `TimerModel.Tick` | tty-countdown.py:143-151 | one pass shows the current seconds and takes exactly one second off; at zero it switches to "Finished!" before showing; otherwise it keeps status and instructions |
| `TimerModel.AfterLoop` | tty-countdown.py:152-155 | the `else` branch of the loop: "Finished!" with its instructions when no time is left, otherwise the state unchanged (its effect is stated by `TimerModel.CountdownIdle` and `TimerModel.CountdownRuns`) |
| `TimerModel.Countdown` | tty-countdown.py:142-158 | a whole run of `countdown` that nothing interrupts: one `Tick` per pass while the loop condition holds, then `AfterLoop` and its redraw; its result is stated by `TimerModel.CountdownRuns` and `TimerModel.CountdownIdle` |
| `TimerModel.CountdownRuns` | tty-countdown.py:142-158 | running from `n >= 0` takes `n + 1` passes that show `n, n - 1, ..., 0`, with 0 already "Finished!", then one more redraw of -1; it ends at -1, "Finished!", with `running` still set |
| `TimerModel.CountdownIdle` | tty-countdown.py:152-158 | a countdown that does not enter the loop redraws once; it changes neither time nor `running`, and says "Finished!" only when no time is left |
| `TimerModel.Key` | tty-countdown.py:175-180 | one key: space is `start_pause`, `r` is `reset`, `q` is `end`, any other key does nothing |
| `TimerModel.Keys` | tty-countdown.py:172-181 | the key loop over the keys typed: each key in turn, stopping after the first `q` (stated by `TimerModel.KeysAppend`, `TimerModel.KeysQuit`, `TimerModel.OtherKeysIgnored` and `TimerModel.KeysKeepTime`) |
| `TimerModel.KeysRead` | tty-countdown.py:172-181 | the key loop reads keys up to and including the first `q`, and all keys when there is no `q` |
| `TimerModel.PauseResume` | tty-countdown.py:121-130 | two `start_pause` calls give `running` back and change neither the time left nor the configured time |
| `TimerModel.OtherKeysIgnored` | tty-countdown.py:172-181 | keys other than space, `r` and `q` change nothing |
| `TimerModel.KeysAppend` | tty-countdown.py:172-181 | the keys before any `q` take effect one after another |
| `TimerModel.KeysQuit` | tty-countdown.py:179-181 | a `q` ends the timer after the keys before it, and nothing after it is read |
| `TimerModel.KeysKeepTime` | tty-countdown.py:172-181 | keys never change the configured time; the time left is either unchanged or, after an `r`, the configured time; without `r` it is unchanged |
| `TimerModel.KeysEndedByQuit` | tty-countdown.py:179-184 | after a `q`, the `end` in the `finally` block changes nothing |
| `Timer.CountdownTimer.constructor` | tty-countdown.py:113-119 | the fields start as `Init(initial)` |
| `Timer.CountdownTimer.StartPause` | tty-countdown.py:121-130 | the new fields are `StartPause` of the old ones |
| `Timer.CountdownTimer.Reset` | tty-countdown.py:132-135 | the new fields are `Reset` of the old ones: full time, paused |
| `Timer.CountdownTimer.End` | tty-countdown.py:137-140 | the new fields are `End` of the old ones |
| `Timer.CountdownTimer.Tick` | tty-countdown.py:143-151 | the new fields and the redraw are `Tick` of the old fields |
| `Timer.CountdownTimer.Countdown` | tty-countdown.py:142-158 | the loop and its `else` branch leave the fields and the list of redraws that `Countdown` gives for the old fields |
| `Timer.InputLoop` | tty-countdown.py:172-181 | the timer ends in `Keys` of its old state over the keys typed, and the loop reads `KeysRead` of them |
| `Timer.Session` | tty-countdown.py:161-185 | create, `start_pause`, the key loop and the `end` in `finally` leave the timer not running, "Aborted!", "Bye!", with its configured time; after a `q` the final `end` changes nothing |

## Left out

- Command-line parsing and the minutes-to-seconds setup (tty-countdown.py:19-42) are library glue. Here the initial seconds, the font and the centering setting are parameters.
- `getTermDimensions` (tty-countdown.py:94-99) runs the external `stty` command. The terminal height and width are parameters of `Center` and `PrintTime`.
- `clear()` and the `print` calls are terminal output. `PrintTime` returns the text printed after the screen is cleared, and `Tick` and `Countdown` return the arguments of each `printTime` call instead of printing.
- Opening and reading the font file is file I/O. `LoadFont` takes the text that was read.
- Raw terminal mode (`termios`, `tty.setcbreak`), polling with `select`, and the restore in `finally` are terminal control. The key loop takes the typed keys as a finite sequence. The real loop polls until `q`, so a sequence without `q` stands for a session stopped some other way, such as an interrupt, which also runs `finally`.
- The `thread` field, `threading.Thread` and `time.sleep` are concurrency. Ticks are explicit sequential calls, and `Countdown` is a run that nothing interrupts. A pause or reset that interleaves with a running countdown thread is not modelled. Neither is the extra thread that each resume starts.
- `TimerModel.Countdown`: assumes every redraw succeeds. In the source, a font that `asciiFormat` cannot use (ten glyphs and no colon glyph, for example) makes `printTime` raise and ends the thread. Inside the loop the raise comes at line 147, before the decrement at line 150, so the time left stays unchanged. "Finished!" is already set if that pass was at 0 seconds (lines 144-146). When the loop is not entered, the raise comes at line 156, after lines 153-155 have set "Finished!", so the final state is the one the model gives. `Display.CountdownRedrawsRender` proves that no redraw fails for a font of at least 11 glyphs, none shorter than glyph 0.
- `Timer.CountdownTimer.Countdown`: runs `TimerModel.Countdown`, so it makes the same assumption that every redraw succeeds and never stops early. When it enters the loop it runs to -1; when it does not, the time left stays as it was.
- `Glyphs.GlyphIndex`: accepts only ASCII digits. Python's `int()` also accepts other Unicode decimal digits (Arabic-Indic digits, for example) and would pick glyphs 0 to 9 for them.
- `Glyphs.AsciiFormat`: returns one error per kind of Python exception (`ValueError` or `IndexError`). It does not model the exception messages.
- `Layout.Center`: halves the spare width and height exactly. Python divides in floating point and then truncates, which differs only for sizes beyond 2^53.
