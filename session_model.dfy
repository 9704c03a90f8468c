/** The session state of the breathing timer as a value, and each of the
    controller's entry points as a function from the state before to the
    state after. The class in module BoxSession updates its fields exactly
    as these functions say. */
module SessionModel {
  import opened Digits

  const MinPhaseTime := 3
  const MaxPhaseTime := 6
  const DefaultPhaseTime := 4
  const SecondsPerMinute := 60

  /** The shared state record. Audio, canvas size, motion preference and
      the `performance.now()` pulse timestamp are not part of the model. */
  datatype SessionState = SessionState(
    isPlaying: bool,
    count: int,            // current phase: 0 Inhale, 1 Hold, 2 Exhale, 3 Wait
    countdown: int,        // seconds left in the current phase
    totalTime: int,        // seconds since the session started
    soundEnabled: bool,
    timeLimit: string,     // minutes as decimal digits; empty means no limit
    sessionComplete: bool,
    timeLimitReached: bool,
    phaseTime: int,        // seconds per phase, set with the slider
    hasStarted: bool)

  /** The state the page starts in: idle at the start of a cycle, with
      four-second phases, no limit and the sound off. */
  function Initial(): (s: SessionState)
    ensures Valid(s) && Idle(s) && AtCycleStart(s)
    ensures s.phaseTime == DefaultPhaseTime && s.timeLimit == [] && !s.soundEnabled
  {
    SessionState(false, 0, DefaultPhaseTime, 0, false, "", false, false, DefaultPhaseTime, false)
  }

  /** The limit in seconds: the minutes `parseInt` reads, times 60. */
  function LimitSeconds(limit: string): nat
    requires AllDigits(limit)
  {
    Value(limit) * SecondsPerMinute
  }

  /** A limit of zero minutes ("0", "00", ...) is zero seconds, so the
      first tick already reaches it; any other limit is at least a minute. */
  lemma LimitSecondsZero(limit: string)
    requires AllDigits(limit)
    ensures LimitSeconds(limit) == 0 <==> forall i :: 0 <= i < |limit| ==> limit[i] == '0'
    ensures LimitSeconds(limit) != 0 ==> LimitSeconds(limit) >= SecondsPerMinute
  {
    ValueZero(limit);
  }

  /** Neither playing nor showing the completion screen: the settings,
      the slider and the preset buttons are on screen. */
  predicate Idle(s: SessionState) {
    !s.isPlaying && !s.sessionComplete
  }

  /** Freshly (re)started or stopped: the clock and the cycle are at their
      beginning and no limit has been reached. */
  predicate AtCycleStart(s: SessionState) {
    s.totalTime == 0 && s.count == 0 && s.countdown == s.phaseTime &&
    !s.sessionComplete && !s.timeLimitReached
  }

  /** The invariant every entry point keeps. The countdown is bounded by the
      phase time only while playing: the slider changes the phase time of an
      idle session without touching the countdown. */
  predicate Valid(s: SessionState)
    ensures Valid(s) && s.timeLimitReached && !s.isPlaying ==> s.sessionComplete
  {
    0 <= s.count < 4 &&
    MinPhaseTime <= s.phaseTime <= MaxPhaseTime &&
    1 <= s.countdown <= MaxPhaseTime &&
    (s.isPlaying ==> s.countdown <= s.phaseTime) &&
    s.totalTime >= 0 &&
    !(s.isPlaying && s.sessionComplete) &&
    s.hasStarted == s.isPlaying &&
    AllDigits(s.timeLimit) &&
    (s.timeLimitReached ==> s.timeLimit != [] && s.totalTime >= LimitSeconds(s.timeLimit)) &&
    (s.sessionComplete ==> s.timeLimitReached && s.count == 3 && s.countdown == s.phaseTime) &&
    (Idle(s) ==> s.totalTime == 0 && s.count == 0 && !s.timeLimitReached)
  }

  /** The one-second tick of a playing session. */
  function Tick(s: SessionState): (r: SessionState)
    requires Valid(s) && s.isPlaying
    ensures Valid(r)
    ensures r.totalTime == s.totalTime + 1
    ensures s.countdown == 1 ==> r.count == (s.count + 1) % 4 && r.countdown == s.phaseTime
    ensures s.countdown != 1 ==> r.count == s.count && r.countdown == s.countdown - 1
    ensures r.timeLimitReached <==>
      s.timeLimitReached || (s.timeLimit != [] && r.totalTime >= LimitSeconds(s.timeLimit))
    ensures r.sessionComplete <==> s.countdown == 1 && r.count == 3 && r.timeLimitReached
    ensures r.isPlaying <==> !r.sessionComplete
    ensures r.timeLimit == s.timeLimit && r.phaseTime == s.phaseTime && r.soundEnabled == s.soundEnabled
  {
    var total := s.totalTime + 1;
    var reached := s.timeLimitReached || (s.timeLimit != [] && total >= LimitSeconds(s.timeLimit));
    var t := s.(totalTime := total, timeLimitReached := reached);
    if s.countdown == 1 then
      var next := t.(count := (s.count + 1) % 4, countdown := s.phaseTime);
      if next.count == 3 && reached then
        next.(sessionComplete := true, isPlaying := false, hasStarted := false)
      else
        next
    else
      t.(countdown := s.countdown - 1)
  }

  /** What starting a session does to the clock, the cycle and the flags. */
  function Begin(s: SessionState): (r: SessionState)
  {
    s.(isPlaying := true, hasStarted := true, totalTime := 0, countdown := s.phaseTime,
       count := 0, sessionComplete := false, timeLimitReached := false)
  }

  /** What stopping a session does; `resetToStart` also clears the limit. */
  function Halt(s: SessionState): (r: SessionState)
  {
    s.(isPlaying := false, totalTime := 0, countdown := s.phaseTime, count := 0,
       sessionComplete := false, timeLimitReached := false, hasStarted := false)
  }

  /** The play/pause button. Both directions put the clock and the cycle
      back at their beginning; the time limit, the phase time and the sound
      setting are kept. */
  function TogglePlay(s: SessionState): (r: SessionState)
    requires Valid(s)
    ensures Valid(r) && AtCycleStart(r)
    ensures r.isPlaying == !s.isPlaying && r.hasStarted == r.isPlaying
    ensures r.timeLimit == s.timeLimit && r.phaseTime == s.phaseTime && r.soundEnabled == s.soundEnabled
  {
    if s.isPlaying then Halt(s) else Begin(s)
  }

  /** A preset button: start at once with a limit of the given minutes,
      written as decimal digits. */
  function StartWithPreset(s: SessionState, minutes: nat): (r: SessionState)
    requires Valid(s)
    ensures Valid(r) && AtCycleStart(r) && r.isPlaying
    ensures r.timeLimit == ToDecimal(minutes) && Value(r.timeLimit) == minutes
    ensures r.phaseTime == s.phaseTime && r.soundEnabled == s.soundEnabled
  {
    ValueOfDecimal(minutes);
    Begin(s.(timeLimit := ToDecimal(minutes)))
  }

  /** The "Back to Start" button: stop, and forget the time limit. */
  function ResetToStart(s: SessionState): (r: SessionState)
    requires Valid(s)
    ensures Valid(r) && AtCycleStart(r) && Idle(r) && r.timeLimit == []
    ensures r.phaseTime == s.phaseTime && r.soundEnabled == s.soundEnabled
  {
    Halt(s).(timeLimit := [])
  }

  /** The phase-time slider, on screen only while idle; its range is 3 to 6. */
  function SetPhaseTime(s: SessionState, seconds: int): (r: SessionState)
    requires Valid(s) && Idle(s)
    requires MinPhaseTime <= seconds <= MaxPhaseTime
    ensures Valid(r) && Idle(r) && r.phaseTime == seconds
    ensures r.(phaseTime := s.phaseTime) == s
  {
    s.(phaseTime := seconds)
  }

  /** The time-limit input, on screen only while idle: what was typed,
      without its non-digits. */
  function SetTimeLimit(s: SessionState, typed: string): (r: SessionState)
    requires Valid(s) && Idle(s)
    ensures Valid(r) && Idle(r)
    ensures r.timeLimit == Sanitize(typed)
    ensures AllDigits(r.timeLimit) && (AllDigits(typed) ==> r.timeLimit == typed)
    ensures r.(timeLimit := s.timeLimit) == s
  {
    SanitizeFixed(typed);
    s.(timeLimit := Sanitize(typed))
  }

  /** The sound switch. Only the setting changes; the cycle is not restarted. */
  function ToggleSound(s: SessionState): (r: SessionState)
    requires Valid(s)
    ensures Valid(r) && r.soundEnabled != s.soundEnabled
    ensures r.(soundEnabled := s.soundEnabled) == s
  {
    s.(soundEnabled := !s.soundEnabled)
  }

  /** Pressing start and then pause leaves an idle session as it was, except
      that the countdown again shows the full phase time. */
  lemma StartThenPause(s: SessionState)
    requires Valid(s) && Idle(s)
    ensures TogglePlay(TogglePlay(s)) == s.(countdown := s.phaseTime)
  {
  }

  /** Without a time limit no tick ever completes the session. */
  lemma NoLimitTickNeverCompletes(s: SessionState)
    requires Valid(s) && s.isPlaying && s.timeLimit == []
    ensures !Tick(s).sessionComplete && Tick(s).isPlaying
  {
  }
}
