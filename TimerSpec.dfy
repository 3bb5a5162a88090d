/** The work/break countdown as a state machine on values: the three pieces
    of module-level state of the timer page and what each command and each
    one-second tick does to them. The class in FocusTimer.dfy is proved to
    follow these functions step for step. */
module TimerSpec {
  import opened TimeFormat
  import opened TimeReading

  /** Phase lengths in seconds: 90 minutes of work, 20 minutes of break. */
  const WorkDuration: nat := 90 * 60
  const BreakDuration: nat := 20 * 60

  /** `timeLeft`, `isWorkPhase`, and `running` for "an interval is set". */
  datatype TimerState = TimerState(timeLeft: int, isWorkPhase: bool, running: bool)

  /** The state the page loads with. */
  const Initial := TimerState(WorkDuration, true, false)

  /** The full length of a phase (the `isWorkPhase ? workDuration : breakDuration`
      that both the reload and the progress ring use). */
  function Duration(isWorkPhase: bool): (d: nat)
    ensures isWorkPhase ==> d == 5400
    ensures !isWorkPhase ==> d == 1200
  {
    if isWorkPhase then WorkDuration else BreakDuration
  }

  /** The invariant: between one second and a full phase is left. */
  predicate Valid(s: TimerState) {
    1 <= s.timeLeft <= Duration(s.isWorkPhase)
  }

  /** `switchPhase`: go to the other phase, with its full duration left. */
  function SwitchPhase(s: TimerState): (r: TimerState)
    ensures Valid(r)
    ensures r.isWorkPhase == !s.isWorkPhase && r.running == s.running
    ensures r.timeLeft == (if r.isWorkPhase then 5400 else 1200)
  {
    TimerState(Duration(!s.isWorkPhase), !s.isWorkPhase, s.running)
  }

  /** `startTimer`: a no-op while running, else it sets the interval. */
  function Start(s: TimerState): (r: TimerState)
    ensures r.running
    ensures r.timeLeft == s.timeLeft && r.isWorkPhase == s.isWorkPhase
    ensures Valid(r) <==> Valid(s)
  {
    if s.running then s else s.(running := true)
  }

  /** `pauseTimer`: clear the interval, keep the countdown where it is. */
  function Pause(s: TimerState): (r: TimerState)
    ensures !r.running
    ensures r.timeLeft == s.timeLeft && r.isWorkPhase == s.isWorkPhase
    ensures Valid(r) <==> Valid(s)
  {
    s.(running := false)
  }

  /** `resetTimer`: pause, then reload the current phase's full duration. */
  function Reset(s: TimerState): (r: TimerState)
    ensures Valid(r) && !r.running
    ensures r.isWorkPhase == s.isWorkPhase
    ensures r.timeLeft == Duration(s.isWorkPhase)
  {
    Pause(s).(timeLeft := Duration(s.isWorkPhase))
  }

  /** The interval callback: count down one second, and when that reaches
      zero or below switch phase instead. */
  function Tick(s: TimerState): (r: TimerState)
    ensures r.running == s.running
    ensures s.timeLeft > 1 ==> r == s.(timeLeft := s.timeLeft - 1)
    ensures s.timeLeft <= 1 ==> r.isWorkPhase != s.isWorkPhase && r.timeLeft == Duration(r.isWorkPhase)
    ensures Valid(s) ==> Valid(r)
  {
    var counted := s.(timeLeft := s.timeLeft - 1);
    if counted.timeLeft <= 0 then SwitchPhase(counted) else counted
  }

  /** Numerator and denominator of the progress ring's fraction. */
  datatype Progress = Progress(elapsed: int, total: int)

  /** `drawCircle`'s `(totalTime - timeLeft) / totalTime`, kept as the pair. */
  function ProgressOf(s: TimerState): (p: Progress)
    ensures p.total == Duration(s.isWorkPhase) > 0
    ensures p.elapsed + s.timeLeft == p.total
    ensures Valid(s) ==> 0 <= p.elapsed < p.total
  {
    var totalTime := Duration(s.isWorkPhase);
    Progress(totalTime - s.timeLeft, totalTime)
  }

  /** The events the page reacts to: the three buttons and the interval. */
  datatype Event = StartClicked | PauseClicked | ResetClicked | IntervalFired

  /** One event. The interval fires only while it is set. */
  function Step(s: TimerState, e: Event): TimerState {
    match e
    case StartClicked => Start(s)
    case PauseClicked => Pause(s)
    case ResetClicked => Reset(s)
    case IntervalFired => if s.running then Tick(s) else s
  }

  /** A sequence of events, in order. */
  function Run(s: TimerState, events: seq<Event>): TimerState
    decreases |events|
  {
    if events == [] then s else Run(Step(s, events[0]), events[1..])
  }

  /** `k` consecutive ticks. */
  function Ticks(s: TimerState, k: nat): TimerState
    decreases k
  {
    if k == 0 then s else Ticks(Tick(s), k - 1)
  }

  /** Every event keeps the invariant. */
  lemma StepValid(s: TimerState, e: Event)
    requires Valid(s)
    ensures Valid(Step(s, e))
  {
  }

  /** Whatever happens from a valid state, the state stays valid. */
  lemma {:induction false} RunValid(s: TimerState, events: seq<Event>)
    requires Valid(s)
    ensures Valid(Run(s, events))
    decreases |events|
  {
    if events != [] {
      StepValid(s, events[0]);
      RunValid(Step(s, events[0]), events[1..]);
    }
  }

  /** A valid state never shows 00:00. */
  lemma NeverShowsZero(s: TimerState)
    requires Valid(s)
    ensures FormatTime(s.timeLeft) != "00:00"
  {
    ZeroDisplay(s.timeLeft);
  }

  /** Every state the page can get into satisfies the invariant and shows
      a five-character time other than 00:00. */
  lemma Reachable(events: seq<Event>)
    ensures Valid(Run(Initial, events))
    ensures var text := FormatTime(Run(Initial, events).timeLeft);
      |text| == 5 && text[2] == ':' && text != "00:00"
  {
    RunValid(Initial, events);
    NeverShowsZero(Run(Initial, events));
  }

  /** Starting twice is starting once. */
  lemma StartIdempotent(s: TimerState)
    ensures Start(Start(s)) == Start(s)
  {
  }

  /** Resetting twice is resetting once. */
  lemma ResetIdempotent(s: TimerState)
    ensures Reset(Reset(s)) == Reset(s)
  {
  }

  /** The ring is empty right after a reset or a phase switch. */
  lemma ProgressRestarts(s: TimerState)
    ensures ProgressOf(Reset(s)).elapsed == 0
    ensures ProgressOf(SwitchPhase(s)).elapsed == 0
  {
  }

  /** Within a phase each tick advances the ring by one second. */
  lemma TickAdvancesProgress(s: TimerState)
    requires s.timeLeft > 1
    ensures ProgressOf(Tick(s)) == ProgressOf(s).(elapsed := ProgressOf(s).elapsed + 1)
  {
  }

  /** Ticks compose. */
  lemma {:induction false} TicksAdd(s: TimerState, a: nat, b: nat)
    ensures Ticks(s, a + b) == Ticks(Ticks(s, a), b)
    decreases a
  {
    if a > 0 {
      TicksAdd(Tick(s), a - 1, b);
    }
  }

  /** Fewer ticks than the time left only count down, and exactly as many
      ticks as the time left end in a fresh other phase. */
  lemma {:induction false} TicksWithinPhase(s: TimerState, k: nat)
    requires Valid(s) && k <= s.timeLeft
    ensures k < s.timeLeft ==> Ticks(s, k) == s.(timeLeft := s.timeLeft - k)
    ensures k == s.timeLeft ==> Ticks(s, k) == SwitchPhase(s)
    decreases k
  {
    if k > 0 {
      if s.timeLeft == 1 {
        assert Ticks(Tick(s), 0) == Tick(s);
      } else {
        TicksWithinPhase(Tick(s), k - 1);
      }
    }
  }

  /** `k` firings of the interval, one after another. */
  function Firings(k: nat): (events: seq<Event>)
    ensures |events| == k && forall i :: 0 <= i < k ==> events[i] == IntervalFired
  {
    seq(k, _ => IntervalFired)
  }

  /** While the interval is set, `k` firings of it are `k` ticks, so the
      lemmas about `Ticks` are lemmas about runs of the page. */
  lemma {:induction false} TicksAreFirings(s: TimerState, k: nat)
    requires s.running
    ensures Run(s, Firings(k)) == Ticks(s, k)
    decreases k
  {
    if k > 0 {
      assert Firings(k)[1..] == Firings(k - 1);
      TicksAreFirings(Tick(s), k - 1);
    }
  }

  /** A timer left ticking returns to where it was after one full work phase and
      one full break phase, 6600 ticks. */
  lemma FullCycle(s: TimerState)
    requires Valid(s) && s.timeLeft == Duration(s.isWorkPhase)
    ensures Ticks(s, WorkDuration + BreakDuration) == s
  {
    var other := SwitchPhase(s);
    TicksWithinPhase(s, s.timeLeft);
    TicksWithinPhase(other, other.timeLeft);
    TicksAdd(s, s.timeLeft, other.timeLeft);
    assert SwitchPhase(other) == s;
    assert s.timeLeft + other.timeLeft == WorkDuration + BreakDuration;
  }
}
