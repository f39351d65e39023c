/**
 * The countdown timer's state and its transitions as values: what
 * `start_pause`, `reset`, `end`, one pass of the `countdown` loop and one
 * key of the input loop do to the timer's fields.
 */
module TimerModel {

  /** The fields of a `CountdownTimer` (its thread handle aside). */
  datatype TimerState = TimerState(
    initialSeconds: int,
    remainingSeconds: int,
    running: bool,
    status: string,
    instructions: string)

  /** The arguments of one `printTime` call: what one redraw shows. */
  datatype Shown = Shown(seconds: int, status: string, instructions: string)

  const InitialStatus := "Initialize..."
  const InitialInstructions := "space: start, q: quit, r: reset"
  const WorkingStatus := "Working..."
  const WorkingInstructions := "space: pause, q: quit, r: reset"
  const PausedStatus := "Paused..."
  const PausedInstructions := "space: resume, q: quit, r: reset"
  const AbortedStatus := "Aborted!"
  const AbortedInstructions := "Bye!"
  const FinishedStatus := "Finished!"
  const FinishedInstructions := "q: quit, r: reset"

  /** A new timer: full time left, not running. */
  function Init(initialSeconds: int): (s: TimerState)
    ensures s.remainingSeconds == s.initialSeconds == initialSeconds && !s.running
  {
    TimerState(initialSeconds, initialSeconds, false, InitialStatus, InitialInstructions)
  }

  /** `start_pause`: flip `running`, and show whether the timer now works or waits. */
  function StartPause(s: TimerState): (r: TimerState)
    ensures r.running != s.running
    ensures r.initialSeconds == s.initialSeconds && r.remainingSeconds == s.remainingSeconds
    ensures r.running ==> r.status == WorkingStatus && r.instructions == WorkingInstructions
    ensures !r.running ==> r.status == PausedStatus && r.instructions == PausedInstructions
  {
    var running := !s.running;
    if running then s.(running := running, status := WorkingStatus, instructions := WorkingInstructions)
    else s.(running := running, status := PausedStatus, instructions := PausedInstructions)
  }

  /**
   * `reset`: mark the timer running, restore the full time, then
   * `start_pause`, which therefore always leaves it paused.
   */
  function Reset(s: TimerState): (r: TimerState)
    ensures r.initialSeconds == s.initialSeconds && r.remainingSeconds == s.initialSeconds
    ensures !r.running && r.status == PausedStatus && r.instructions == PausedInstructions
  {
    StartPause(s.(running := true, remainingSeconds := s.initialSeconds))
  }

  /** `end`: stop, and say so. */
  function End(s: TimerState): (r: TimerState)
    ensures r.initialSeconds == s.initialSeconds && r.remainingSeconds == s.remainingSeconds
    ensures !r.running && r.status == AbortedStatus && r.instructions == AbortedInstructions
  {
    s.(running := false, status := AbortedStatus, instructions := AbortedInstructions)
  }

  /** The loop condition of `countdown`. */
  predicate Ticking(s: TimerState)
  {
    s.remainingSeconds >= 0 && s.running
  }

  /**
   * One pass of the `countdown` loop: at zero, switch to "Finished!"; show
   * the time; take one second off (the sleep is not modelled).
   */
  function Tick(s: TimerState): (r: (TimerState, Shown))
    requires Ticking(s)
    ensures r.0.remainingSeconds == s.remainingSeconds - 1
    ensures r.0.initialSeconds == s.initialSeconds && r.0.running
    ensures r.1.seconds == s.remainingSeconds
    ensures r.1.status == r.0.status && r.1.instructions == r.0.instructions
    ensures s.remainingSeconds == 0 ==> r.0.status == FinishedStatus && r.0.instructions == FinishedInstructions
    ensures s.remainingSeconds != 0 ==> r.0.status == s.status && r.0.instructions == s.instructions
  {
    var t := if s.remainingSeconds == 0
             then s.(status := FinishedStatus, instructions := FinishedInstructions)
             else s;
    (t.(remainingSeconds := t.remainingSeconds - 1), Shown(t.remainingSeconds, t.status, t.instructions))
  }

  /** The `else` branch of the `countdown` loop: "Finished!" when no time is left. */
  function AfterLoop(s: TimerState): TimerState
  {
    if s.remainingSeconds <= 0 then s.(status := FinishedStatus, instructions := FinishedInstructions)
    else s
  }

  function Show(s: TimerState): Shown
  {
    Shown(s.remainingSeconds, s.status, s.instructions)
  }

  /** Measure of the `countdown` loop: the passes it has left. */
  function TicksLeft(s: TimerState): nat
  {
    if s.remainingSeconds >= 0 then s.remainingSeconds + 1 else 0
  }

  /**
   * A whole run of `countdown` with nothing else touching the timer: the
   * final state and every redraw, in order, the last from the `else` branch.
   */
  function Countdown(s: TimerState): (r: (TimerState, seq<Shown>))
    decreases TicksLeft(s)
  {
    if Ticking(s) then
      var step := Tick(s);
      var rest := Countdown(step.0);
      (rest.0, [step.1] + rest.1)
    else
      var done := AfterLoop(s);
      (done, [Show(done)])
  }

  /**
   * An uninterrupted countdown from `n >= 0` while running: `n + 1` passes
   * showing `n, n - 1, ..., 0`, the last of them already "Finished!", then
   * one more redraw of -1 from the `else` branch. The timer ends at -1,
   * "Finished!", with `running` still set and the full time kept.
   */
  lemma {:induction false} CountdownRuns(s: TimerState)
    requires Ticking(s)
    ensures var (f, shown) := Countdown(s);
            f.remainingSeconds == -1 && f.running && f.initialSeconds == s.initialSeconds &&
            f.status == FinishedStatus && f.instructions == FinishedInstructions &&
            |shown| == s.remainingSeconds + 2 &&
            (forall k :: 0 <= k <= s.remainingSeconds ==> shown[k].seconds == s.remainingSeconds - k) &&
            (forall k :: 0 <= k < s.remainingSeconds ==>
               shown[k].status == s.status && shown[k].instructions == s.instructions) &&
            shown[s.remainingSeconds] == Shown(0, FinishedStatus, FinishedInstructions) &&
            shown[s.remainingSeconds + 1] == Shown(-1, FinishedStatus, FinishedInstructions)
    decreases TicksLeft(s)
  {
    var step := Tick(s);
    if s.remainingSeconds > 0 {
      CountdownRuns(step.0);
      var rest := Countdown(step.0);
      assert Countdown(s).1 == [step.1] + rest.1;
      forall k | 1 <= k <= s.remainingSeconds
        ensures Countdown(s).1[k] == rest.1[k - 1]
      {
      }
    }
  }

  /** A countdown that does not start (paused, or time already past) only redraws once. */
  lemma CountdownIdle(s: TimerState)
    requires !Ticking(s)
    ensures Countdown(s).0.remainingSeconds == s.remainingSeconds
    ensures Countdown(s).0.running == s.running
    ensures Countdown(s).1 == [Show(Countdown(s).0)]
    ensures s.remainingSeconds <= 0 ==> Countdown(s).0.status == FinishedStatus
    ensures s.remainingSeconds > 0 ==> Countdown(s).0 == s
  {
  }

  /**
   * One key of the input loop: space toggles, `r` resets, `q` ends, and
   * every other key changes nothing.
   */
  function Key(s: TimerState, key: char): TimerState
  {
    if key == ' ' then StartPause(s)
    else if key == 'r' then Reset(s)
    else if key == 'q' then End(s)
    else s
  }

  /** The input loop over a sequence of keys: each key in turn, stopping after the first `q`. */
  function Keys(s: TimerState, keys: seq<char>): TimerState
    decreases |keys|
  {
    if |keys| == 0 then s
    else
      var t := Key(s, keys[0]);
      if keys[0] == 'q' then t else Keys(t, keys[1..])
  }

  /** How many keys the input loop reads: up to and including the first `q`. */
  function KeysRead(keys: seq<char>): (n: nat)
    ensures n <= |keys|
    ensures forall i :: 0 <= i < n - 1 ==> keys[i] != 'q'
    ensures n < |keys| ==> n > 0 && keys[n - 1] == 'q'
    ensures n == |keys| && n > 0 && keys[n - 1] != 'q' ==> 'q' !in keys
    decreases |keys|
  {
    if |keys| == 0 then 0
    else if keys[0] == 'q' then 1
    else
      var n := KeysRead(keys[1..]);
      assert forall i :: 1 <= i < |keys| ==> keys[i] == keys[1..][i - 1];
      1 + n
  }

  /** Pausing and resuming (or resuming and pausing) gives `running` back and loses no time. */
  lemma PauseResume(s: TimerState)
    ensures StartPause(StartPause(s)).running == s.running
    ensures StartPause(StartPause(s)).remainingSeconds == s.remainingSeconds
    ensures StartPause(StartPause(s)).initialSeconds == s.initialSeconds
  {
  }

  /** Keys that are none of space, `r` and `q` change nothing. */
  lemma {:induction false} OtherKeysIgnored(s: TimerState, keys: seq<char>)
    requires forall i :: 0 <= i < |keys| ==> keys[i] != ' ' && keys[i] != 'r' && keys[i] != 'q'
    ensures Keys(s, keys) == s
    decreases |keys|
  {
    if |keys| > 0 {
      OtherKeysIgnored(s, keys[1..]);
    }
  }

  /** Keys before any `q` run one after another. */
  lemma {:induction false} KeysAppend(s: TimerState, first: seq<char>, next: seq<char>)
    requires 'q' !in first
    ensures Keys(s, first + next) == Keys(Keys(s, first), next)
    decreases |first|
  {
    if |first| > 0 {
      assert (first + next)[1..] == first[1..] + next;
      KeysAppend(Key(s, first[0]), first[1..], next);
    } else {
      assert first + next == next;
    }
  }

  /** `q` ends the timer and nothing after it is read. */
  lemma KeysQuit(s: TimerState, before: seq<char>, after: seq<char>)
    requires 'q' !in before
    ensures Keys(s, before + ['q'] + after) == End(Keys(s, before))
    ensures KeysRead(before + ['q'] + after) == |before| + 1
  {
    assert before + ['q'] + after == before + (['q'] + after);
    KeysAppend(s, before, ['q'] + after);
    KeysReadQuit(before, after);
  }

  lemma {:induction false} KeysReadQuit(before: seq<char>, after: seq<char>)
    requires 'q' !in before
    ensures KeysRead(before + ['q'] + after) == |before| + 1
    decreases |before|
  {
    if |before| > 0 {
      assert (before + ['q'] + after)[1..] == before[1..] + ['q'] + after;
      KeysReadQuit(before[1..], after);
    } else {
      assert before + ['q'] + after == ['q'] + after;
    }
  }

  /**
   * Keys never change the configured time, and leave the time left either
   * as it was or, after an `r`, back at the configured time.
   */
  lemma {:induction false} KeysKeepTime(s: TimerState, keys: seq<char>)
    ensures Keys(s, keys).initialSeconds == s.initialSeconds
    ensures Keys(s, keys).remainingSeconds == s.remainingSeconds ||
            Keys(s, keys).remainingSeconds == s.initialSeconds
    ensures 'r' !in keys ==> Keys(s, keys).remainingSeconds == s.remainingSeconds
    decreases |keys|
  {
    if |keys| > 0 && keys[0] != 'q' {
      KeysKeepTime(Key(s, keys[0]), keys[1..]);
      assert keys == [keys[0]] + keys[1..];
    }
  }

  /** After a `q` the timer is ended, so ending it again changes nothing. */
  lemma {:induction false} KeysEndedByQuit(s: TimerState, keys: seq<char>)
    requires 'q' in keys
    ensures End(Keys(s, keys)) == Keys(s, keys)
    decreases |keys|
  {
    if keys[0] != 'q' {
      assert keys == [keys[0]] + keys[1..];
      KeysEndedByQuit(Key(s, keys[0]), keys[1..]);
    }
  }
}
