/** The timer page's state as the script keeps it: three mutable variables,
    changed in place by the button handlers and the interval callback. Each
    method is proved to move the state exactly as the matching function of
    TimerSpec does, so the lemmas there apply to every run of the page. */
module FocusTimer {
  import opened TimeFormat
  import TimerSpec

  class Timer {
    var timeLeft: int
    var isWorkPhase: bool
    /** Stands for `timerInterval != null`. */
    var running: bool

    function State(): TimerSpec.TimerState
      reads this
    {
      TimerSpec.TimerState(timeLeft, isWorkPhase, running)
    }

    predicate Valid()
      reads this
    {
      TimerSpec.Valid(State())
    }

    /** The module-level initialisers: a full work phase, no interval. */
    constructor ()
      ensures State() == TimerSpec.Initial && Valid()
    {
      timeLeft := TimerSpec.WorkDuration;
      isWorkPhase := true;
      running := false;
    }

    /** `switchPhase`. */
    method SwitchPhase()
      modifies this
      ensures State() == TimerSpec.SwitchPhase(old(State()))
      ensures Valid()
    {
      isWorkPhase := !isWorkPhase;
      timeLeft := if isWorkPhase then TimerSpec.WorkDuration else TimerSpec.BreakDuration;
    }

    /** `startTimer`: returns early when an interval is already set. The
        second `ensures` spells out, for readers, what the first implies. */
    method Start()
      modifies this
      ensures State() == TimerSpec.Start(old(State()))
      ensures running && timeLeft == old(timeLeft) && isWorkPhase == old(isWorkPhase)
    {
      if running {
        return;
      }
      running := true;
    }

    /** The callback the interval runs once a second. */
    method Tick()
      requires running
      modifies this
      ensures State() == TimerSpec.Tick(old(State()))
      ensures old(Valid()) ==> Valid()
    {
      timeLeft := timeLeft - 1;
      if timeLeft <= 0 {
        SwitchPhase();
      }
    }

    /** `pauseTimer`. The second `ensures` spells out, for readers, what the
        first implies. */
    method Pause()
      modifies this
      ensures State() == TimerSpec.Pause(old(State()))
      ensures !running && timeLeft == old(timeLeft) && isWorkPhase == old(isWorkPhase)
    {
      running := false;
    }

    /** `resetTimer`: pause, then reload the current phase. The second
        `ensures` spells out, for readers, what the first implies. */
    method Reset()
      modifies this
      ensures State() == TimerSpec.Reset(old(State()))
      ensures Valid() && !running && isWorkPhase == old(isWorkPhase)
    {
      Pause();
      timeLeft := if isWorkPhase then TimerSpec.WorkDuration else TimerSpec.BreakDuration;
    }

    /** The fraction `drawCircle` computes, as numerator and denominator. */
    method DrawCircle() returns (elapsed: int, total: int)
      ensures TimerSpec.Progress(elapsed, total) == TimerSpec.ProgressOf(State())
      ensures total > 0 && elapsed == total - timeLeft
      ensures Valid() ==> 0 <= elapsed < total
    {
      total := if isWorkPhase then TimerSpec.WorkDuration else TimerSpec.BreakDuration;
      elapsed := total - timeLeft;
    }

    /** The text `updateDisplay` puts in the timer display. */
    method DisplayText() returns (text: string)
      requires Valid()
      ensures text == FormatTime(timeLeft)
      ensures |text| == 5 && text[2] == ':' && text != "00:00"
    {
      text := FormatTime(timeLeft);
      TimerSpec.NeverShowsZero(State());
    }
  }
}
