/** What `render` puts on screen, as the ids of the elements it shows in
    page order (which depend only on three flags of the session), and the
    contents of the panel shown while playing. */
module View {
  import opened Clock
  import opened Colors
  import opened Phases
  import opened SessionModel

  datatype ElementId =
    | Title
    | Timer                          // "Total: " and the elapsed time
    | InstructionLine
    | Countdown
    | PhaseTracker
    | LimitWarning(finishing: bool)  // "Finishing current cycle" or "Time limit reached"
    | SoundToggle
    | TimeLimitInput
    | Prompt                         // "Press start to begin"
    | CompleteBanner
    | TogglePlay(pause: bool)        // labelled Pause while playing, Start otherwise
    | PhaseTimeSlider
    | Reset                          // "Back to Start"
    | Preset(minutes: nat)

  const PresetMinutes: seq<nat> := [2, 5, 10]

  /** The elements `render` writes, in order. The settings card, the slider
      and the presets, and so their event handlers, are there only while
      the session is idle. */
  function Visible(isPlaying: bool, sessionComplete: bool, timeLimitReached: bool): (page: seq<ElementId>)
    ensures Reset in page <==> sessionComplete
    ensures TogglePlay(isPlaying) in page <==> !sessionComplete
    ensures TogglePlay(!isPlaying) !in page
    ensures CompleteBanner in page <==> sessionComplete
  {
    // render's nine conditional blocks, grouped by the three screens
    var warning := if timeLimitReached && !sessionComplete then [LimitWarning(isPlaying)] else [];
    if sessionComplete then
      [Title] + (if isPlaying then [Timer, InstructionLine, Countdown, PhaseTracker] else [])
      + [CompleteBanner, Reset]
    else if isPlaying then
      [Title, Timer, InstructionLine, Countdown, PhaseTracker] + warning + [TogglePlay(true)]
    else
      [Title] + warning
      + [SoundToggle, TimeLimitInput, Prompt, TogglePlay(false), PhaseTimeSlider]
      + [Preset(PresetMinutes[0]), Preset(PresetMinutes[1]), Preset(PresetMinutes[2])]
  }

  /** The settings card and the slider, and so their event handlers, are
      on screen exactly while the session is idle. */
  lemma VisibleIdleControls(isPlaying: bool, sessionComplete: bool, timeLimitReached: bool)
    ensures var page := Visible(isPlaying, sessionComplete, timeLimitReached);
      (TimeLimitInput in page <==> !isPlaying && !sessionComplete) &&
      (PhaseTimeSlider in page <==> !isPlaying && !sessionComplete) &&
      (SoundToggle in page <==> !isPlaying && !sessionComplete)
  {
    if !isPlaying && !sessionComplete {
      IdlePage(isPlaying, sessionComplete, timeLimitReached);
    }
  }

  /** The 2, 5 and 10 minute presets are on screen exactly while idle. */
  lemma VisiblePresets(isPlaying: bool, sessionComplete: bool, timeLimitReached: bool, m: nat)
    ensures Preset(m) in Visible(isPlaying, sessionComplete, timeLimitReached) <==>
      !isPlaying && !sessionComplete && m in PresetMinutes
  {
    if !isPlaying && !sessionComplete {
      IdlePage(isPlaying, sessionComplete, timeLimitReached);
    }
  }

  /** The idle screen, written out. */
  lemma IdlePage(isPlaying: bool, sessionComplete: bool, timeLimitReached: bool)
    requires !isPlaying && !sessionComplete
    ensures Visible(isPlaying, sessionComplete, timeLimitReached) ==
      [Title] + (if timeLimitReached then [LimitWarning(false)] else [])
      + [SoundToggle, TimeLimitInput, Prompt, TogglePlay(false), PhaseTimeSlider]
      + [Preset(2), Preset(5), Preset(10)]
  {
  }

  /** The clock and the phase tracker belong to a playing session. */
  lemma VisiblePanel(isPlaying: bool, sessionComplete: bool, timeLimitReached: bool)
    ensures var page := Visible(isPlaying, sessionComplete, timeLimitReached);
      (Timer in page <==> isPlaying) && (PhaseTracker in page <==> isPlaying)
  {
    if sessionComplete {
      CompletePage(isPlaying, timeLimitReached);
    } else if isPlaying {
      PlayingPage(timeLimitReached);
    } else {
      IdlePage(isPlaying, sessionComplete, timeLimitReached);
    }
  }

  /** The limit message is shown while the limit is reached and the
      session not complete; it says "Finishing current cycle" exactly
      while playing. */
  lemma VisibleLimitWarning(isPlaying: bool, sessionComplete: bool, timeLimitReached: bool, finishing: bool)
    ensures LimitWarning(finishing) in Visible(isPlaying, sessionComplete, timeLimitReached) <==>
      timeLimitReached && !sessionComplete && finishing == isPlaying
  {
    if sessionComplete {
      CompletePage(isPlaying, timeLimitReached);
    } else if isPlaying {
      PlayingPage(timeLimitReached);
    } else {
      IdlePage(isPlaying, sessionComplete, timeLimitReached);
    }
  }

  /** The playing screen, written out. */
  lemma PlayingPage(timeLimitReached: bool)
    ensures Visible(true, false, timeLimitReached) ==
      [Title, Timer, InstructionLine, Countdown, PhaseTracker]
      + (if timeLimitReached then [LimitWarning(true)] else []) + [TogglePlay(true)]
  {
  }

  /** The completion screen, written out. */
  lemma CompletePage(isPlaying: bool, timeLimitReached: bool)
    ensures Visible(isPlaying, true, timeLimitReached) ==
      [Title] + (if isPlaying then [Timer, InstructionLine, Countdown, PhaseTracker] else [])
      + [CompleteBanner, Reset]
  {
  }

  function VisibleFor(s: SessionState): seq<ElementId> {
    Visible(s.isPlaying, s.sessionComplete, s.timeLimitReached)
  }

  /** In every reachable state exactly one of the two main buttons is on
      screen, and of the two limit messages only "Finishing current cycle"
      can appear: a session that is neither playing nor complete has not
      reached its limit, so "Time limit reached" is never shown. */
  lemma VisibleInValidState(s: SessionState)
    requires Valid(s)
    ensures TogglePlay(s.isPlaying) in VisibleFor(s) <==> Reset !in VisibleFor(s)
    ensures LimitWarning(false) !in VisibleFor(s)
    ensures LimitWarning(true) in VisibleFor(s) <==> s.isPlaying && s.timeLimitReached
  {
  }

  /** Each control's handler is attached only when its precondition holds:
      the slider and the time-limit input only on an idle session, the
      reset button only on a complete one. */
  lemma HandlersMatchControls(s: SessionState)
    requires Valid(s)
    ensures PhaseTimeSlider in VisibleFor(s) ==> Idle(s)
    ensures TimeLimitInput in VisibleFor(s) ==> Idle(s)
    ensures Reset in VisibleFor(s) ==> !s.isPlaying
  {
  }

  datatype PhaseItem = PhaseItem(caption: string, active: bool, soft: Rgb)

  /** What the playing panel shows: the clock, the phase's word, the
      countdown and the four-entry phase tracker. */
  datatype Panel = Panel(clock: string, instruction: string, countdown: int, tracker: seq<PhaseItem>)

  /** One tracker entry: the phase's label, marked active for the current
      phase, with its colour's bytes for the soft background. */
  function TrackerItem(index: nat, count: int): (item: PhaseItem)
    requires index < PhaseCount
    ensures item.active <==> index == count
    ensures item.caption == Labels[index]
    ensures IsHexColor(PhaseColors[index]) && item.soft == HexToRgb(PhaseColors[index])
  {
    PhaseColorBytes();
    PhaseItem(Labels[index], index == count, HexToRgb(PhaseColors[index]))
  }

  /** The tracker lists the four phases in cycle order; only the current
      one is active, and each carries its label and its colour. */
  function Tracker(count: int): (items: seq<PhaseItem>)
    ensures |items| == PhaseCount
    ensures forall i :: 0 <= i < PhaseCount ==>
      (items[i].active <==> i == count) && items[i].caption == Labels[i] &&
      IsHexColor(PhaseColors[i]) && items[i].soft == HexToRgb(PhaseColors[i])
  {
    [TrackerItem(0, count), TrackerItem(1, count), TrackerItem(2, count), TrackerItem(3, count)]
  }

  /** What the playing panel shows: the elapsed time as "MM:SS", the word
      for the current phase, the seconds left in it, and the tracker. */
  function PlayingPanel(s: SessionState): (p: Panel)
    requires Valid(s) && s.isPlaying
    ensures p.clock == FormatTime(s.totalTime)
    ensures p.instruction == Instruction(s.count) && p.instruction != []
    ensures p.countdown == s.countdown && 1 <= p.countdown <= s.phaseTime
    ensures |p.tracker| == PhaseCount
    ensures forall i :: 0 <= i < PhaseCount ==>
      (p.tracker[i].active <==> i == s.count) && p.tracker[i].caption == Labels[i] &&
      IsHexColor(PhaseColors[i]) && p.tracker[i].soft == HexToRgb(PhaseColors[i])
  {
    Panel(FormatTime(s.totalTime), Instruction(s.count), s.countdown, Tracker(s.count))
  }

  /** The clock on the panel reads back as the elapsed seconds. */
  lemma PanelClock(s: SessionState)
    requires Valid(s) && s.isPlaying
    ensures IsClockText(PlayingPanel(s).clock) && ParseTime(PlayingPanel(s).clock) == s.totalTime
  {
    FormatTimeRoundTrip(s.totalTime);
  }
}
