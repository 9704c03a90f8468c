/** The controller's shared state record, updated in place by the tick and
    the event handlers. Every method keeps the invariant and leaves the
    record in the state the matching SessionModel function gives. */
module BoxSession {
  import opened Digits
  import SessionModel

  class Session {
    var isPlaying: bool
    var count: int
    var countdown: int
    var totalTime: int
    var soundEnabled: bool
    var timeLimit: string
    var sessionComplete: bool
    var timeLimitReached: bool
    var phaseTime: int
    var hasStarted: bool

    /** The record as a value. */
    function State(): SessionModel.SessionState
      reads this
    {
      SessionModel.SessionState(isPlaying, count, countdown, totalTime, soundEnabled,
        timeLimit, sessionComplete, timeLimitReached, phaseTime, hasStarted)
    }

    predicate Valid()
      reads this
    {
      SessionModel.Valid(State())
    }

    predicate Idle()
      reads this
    {
      SessionModel.Idle(State())
    }

    /** The record as the page creates it. */
    constructor ()
      ensures Valid() && State() == SessionModel.Initial()
    {
      isPlaying, count, countdown, totalTime := false, 0, SessionModel.DefaultPhaseTime, 0;
      soundEnabled, timeLimit, sessionComplete, timeLimitReached := false, "", false, false;
      phaseTime, hasStarted := SessionModel.DefaultPhaseTime, false;
    }

    /** The body of the one-second interval; it runs only while playing,
        since every way of stopping clears the interval. */
    method Tick()
      requires Valid() && isPlaying
      modifies this
      ensures Valid() && State() == SessionModel.Tick(old(State()))
    {
      totalTime := totalTime + 1;
      if timeLimit != [] && !timeLimitReached {
        var limitSeconds := Value(timeLimit) * SessionModel.SecondsPerMinute;
        if totalTime >= limitSeconds {
          timeLimitReached := true;
        }
      }
      if countdown == 1 {
        count := (count + 1) % 4;
        countdown := phaseTime;
        if count == 3 && timeLimitReached {
          sessionComplete := true;
          isPlaying := false;
          hasStarted := false;
        }
      } else {
        countdown := countdown - 1;
      }
    }

    method TogglePlay()
      requires Valid()
      modifies this
      ensures Valid() && State() == SessionModel.TogglePlay(old(State()))
    {
      isPlaying := !isPlaying;
      if isPlaying {
        hasStarted := true;
        totalTime := 0;
        countdown := phaseTime;
        count := 0;
        sessionComplete := false;
        timeLimitReached := false;
      } else {
        totalTime := 0;
        countdown := phaseTime;
        count := 0;
        sessionComplete := false;
        timeLimitReached := false;
        hasStarted := false;
      }
    }

    method StartWithPreset(minutes: nat)
      requires Valid()
      modifies this
      ensures Valid() && State() == SessionModel.StartWithPreset(old(State()), minutes)
    {
      timeLimit := ToDecimal(minutes);
      isPlaying := true;
      totalTime := 0;
      countdown := phaseTime;
      count := 0;
      sessionComplete := false;
      timeLimitReached := false;
      hasStarted := true;
    }

    method ResetToStart()
      requires Valid()
      modifies this
      ensures Valid() && State() == SessionModel.ResetToStart(old(State()))
    {
      isPlaying := false;
      totalTime := 0;
      countdown := phaseTime;
      count := 0;
      sessionComplete := false;
      timeLimit := [];
      timeLimitReached := false;
      hasStarted := false;
    }

    method ToggleSound()
      requires Valid()
      modifies this
      ensures Valid() && State() == SessionModel.ToggleSound(old(State()))
    {
      soundEnabled := !soundEnabled;
    }

    /** The time-limit input handler. */
    method SetTimeLimit(typed: string)
      requires Valid() && Idle()
      modifies this
      ensures Valid() && State() == SessionModel.SetTimeLimit(old(State()), typed)
    {
      timeLimit := Sanitize(typed);
    }

    /** The phase-time slider handler. */
    method SetPhaseTime(seconds: int)
      requires Valid() && Idle()
      requires SessionModel.MinPhaseTime <= seconds <= SessionModel.MaxPhaseTime
      modifies this
      ensures Valid() && State() == SessionModel.SetPhaseTime(old(State()), seconds)
    {
      phaseTime := seconds;
    }
  }
}
