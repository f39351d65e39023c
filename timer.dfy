/**
 * The `CountdownTimer` object, whose methods update its fields in place,
 * and the main program's key loop around it.
 */
module Timer {
  import opened TimerModel

  class CountdownTimer {
    var initialSeconds: int
    var remainingSeconds: int
    var running: bool
    var status: string
    var instructions: string

    /** The fields as a value. */
    function State(): TimerState
      reads this
    {
      TimerState(initialSeconds, remainingSeconds, running, status, instructions)
    }

    constructor (initial: int)
      ensures State() == Init(initial)
    {
      initialSeconds := initial;
      remainingSeconds := initial;
      running := false;
      status := InitialStatus;
      instructions := InitialInstructions;
    }

    /** `start_pause` (starting the ticking thread is not modelled). */
    method StartPause()
      modifies this
      ensures State() == TimerModel.StartPause(old(State()))
      ensures running == !old(running) && remainingSeconds == old(remainingSeconds)
    {
      running := !running;
      if running {
        status := WorkingStatus;
        instructions := WorkingInstructions;
      } else {
        status := PausedStatus;
        instructions := PausedInstructions;
      }
    }

    /** `reset`: full time again, and paused. */
    method Reset()
      modifies this
      ensures State() == TimerModel.Reset(old(State()))
      ensures remainingSeconds == initialSeconds == old(initialSeconds)
      ensures !running && status == PausedStatus
    {
      running := true;
      remainingSeconds := initialSeconds;
      StartPause();
    }

    /** `end`: stopped, "Aborted!", "Bye!", time left untouched. */
    method End()
      modifies this
      ensures State() == TimerModel.End(old(State()))
      ensures !running && status == AbortedStatus && remainingSeconds == old(remainingSeconds)
    {
      running := false;
      status := AbortedStatus;
      instructions := AbortedInstructions;
    }

    /** One pass of the `countdown` loop; returns what it shows instead of printing it. */
    method Tick() returns (shown: Shown)
      requires remainingSeconds >= 0 && running
      modifies this
      ensures (State(), shown) == TimerModel.Tick(old(State()))
      ensures remainingSeconds == old(remainingSeconds) - 1
    {
      if remainingSeconds == 0 {
        status := FinishedStatus;
        instructions := FinishedInstructions;
      }
      shown := Shown(remainingSeconds, status, instructions);
      remainingSeconds := remainingSeconds - 1;
    }

    /**
     * `countdown` run to its end with nothing else touching the timer:
     * returns every redraw in order.
     */
    method Countdown() returns (trace: seq<Shown>)
      modifies this
      ensures (State(), trace) == TimerModel.Countdown(old(State()))
    {
      trace := [];
      while remainingSeconds >= 0 && running
        invariant TimerModel.Countdown(old(State())).0 == TimerModel.Countdown(State()).0
        invariant TimerModel.Countdown(old(State())).1 == trace + TimerModel.Countdown(State()).1
        decreases TicksLeft(State())
      {
        var shown := Tick();
        trace := trace + [shown];
      }
      if remainingSeconds <= 0 {
        status := FinishedStatus;
        instructions := FinishedInstructions;
      }
      trace := trace + [Shown(remainingSeconds, status, instructions)];
    }
  }

  /**
   * The key loop of the main program over the keys typed, in order: space,
   * `r` and `q` go to the timer, `q` also ends the loop. Returns how many
   * keys it read.
   */
  method InputLoop(timer: CountdownTimer, keys: seq<char>) returns (read: nat)
    modifies timer
    ensures timer.State() == Keys(old(timer.State()), keys)
    ensures read == KeysRead(keys)
  {
    read := 0;
    while read < |keys|
      invariant read <= |keys|
      invariant Keys(old(timer.State()), keys) == Keys(timer.State(), keys[read..])
      invariant KeysRead(keys) == read + KeysRead(keys[read..])
    {
      var key := keys[read];
      assert keys[read..][1..] == keys[read + 1..];
      read := read + 1;
      if key == ' ' {
        timer.StartPause();
      } else if key == 'r' {
        timer.Reset();
      } else if key == 'q' {
        timer.End();
        break;
      }
    }
  }

  /**
   * The main program from the timer's side: create it, start it, run the
   * key loop, and end it in the `finally` block, which also runs after `q`.
   */
  method Session(initial: int, keys: seq<char>) returns (final: TimerState)
    ensures final == End(Keys(TimerModel.StartPause(Init(initial)), keys))
    ensures final.initialSeconds == initial && !final.running
    ensures final.status == AbortedStatus && final.instructions == AbortedInstructions
    ensures 'q' in keys ==> final == Keys(TimerModel.StartPause(Init(initial)), keys)
  {
    var timer := new CountdownTimer(initial);
    timer.StartPause();
    var _ := InputLoop(timer, keys);
    timer.End();
    KeysKeepTime(TimerModel.StartPause(Init(initial)), keys);
    if 'q' in keys {
      KeysEndedByQuit(TimerModel.StartPause(Init(initial)), keys);
    }
    final := timer.State();
  }
}
