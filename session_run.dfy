/** Sessions over many ticks. The interval fires once a second while the
    session plays and is cleared when it stops, so a run of n seconds is n
    ticks, cut short when a tick stops the session. Proved here: where the
    clock, the phase and the countdown stand after any number of seconds,
    that a session without a limit plays forever, and on which second a
    session with a limit completes. */
module SessionRun {
  import opened Digits
  import opened SessionModel

  /** The state n seconds after s. */
  function Run(s: SessionState, n: nat): (r: SessionState)
    requires Valid(s)
    ensures Valid(r)
    ensures r.timeLimit == s.timeLimit && r.phaseTime == s.phaseTime && r.soundEnabled == s.soundEnabled
    ensures s.isPlaying ==> r.totalTime <= s.totalTime + n
    decreases n
  {
    if n == 0 then s
    else
      var p := Run(s, n - 1);
      if p.isPlaying then Tick(p) else p
  }

  /** A session at the moment it was started. */
  predicate Started(s: SessionState) {
    Valid(s) && s.isPlaying && AtCycleStart(s)
  }

  /** After m ticks (m at least 1) the flag says whether the limit is reached. */
  predicate ReachedBy(limit: string, m: nat)
    requires AllDigits(limit)
  {
    limit != [] && m >= 1 && m >= LimitSeconds(limit)
  }

  /** Tick m moves into Wait (phase 3) with the limit reached: the tick
      that completes the session. */
  predicate CompletesAt(limit: string, phaseTime: int, m: nat)
    requires AllDigits(limit) && phaseTime >= 1
  {
    m >= 1 && m % phaseTime == 0 && (m / phaseTime) % 4 == 3 && ReachedBy(limit, m)
  }

  /** No tick before n completes the session. */
  predicate NoneCompletesBefore(limit: string, phaseTime: int, n: nat)
    requires AllDigits(limit) && phaseTime >= 1
  {
    forall j: nat :: j < n ==> !CompletesAt(limit, phaseTime, j)
  }

  /** The state of a started session s0 after m seconds of playing. */
  function PlayingAt(s0: SessionState, m: nat): SessionState
    requires AllDigits(s0.timeLimit) && s0.phaseTime >= 1
  {
    s0.(totalTime := m,
        countdown := s0.phaseTime - m % s0.phaseTime,
        count := (m / s0.phaseTime) % 4,
        timeLimitReached := ReachedBy(s0.timeLimit, m))
  }

  /** The state of a started session s0 that completed on tick m. */
  function CompletedAt(s0: SessionState, m: nat): SessionState
  {
    s0.(totalTime := m, countdown := s0.phaseTime, count := 3, timeLimitReached := true,
        sessionComplete := true, isPlaying := false, hasStarted := false)
  }

  lemma DivModUnique(n: int, d: int, q: int, r: int)
    requires d > 0 && 0 <= r < d && n == q * d + r
    ensures q == n / d && r == n % d
  {
    var q', r' := n / d, n % d;
    assert n == q' * d + r';
    if q' > q {
      MulMonotone(q, q', d);
      MulStep(q, d);
      if q + 1 < q' {
        MulMonotone(q + 1, q', d);
      }
      assert false;
    } else if q' < q {
      MulStep(q', d);
      if q' + 1 < q {
        MulMonotone(q' + 1, q, d);
      }
      assert false;
    }
  }

  lemma MulStep(q: int, d: int)
    ensures (q + 1) * d == q * d + d
  {
  }

  /** One more second: the remainder wraps at the phase length and the
      quotient then grows by one. */
  lemma DivModStep(m: nat, d: int)
    requires d > 0
    ensures m % d == d - 1 ==> (m + 1) % d == 0 && (m + 1) / d == m / d + 1
    ensures m % d != d - 1 ==> (m + 1) % d == m % d + 1 && (m + 1) / d == m / d
  {
    var q, r := m / d, m % d;
    assert m == q * d + r;
    if r == d - 1 {
      DivModUnique(m + 1, d, q + 1, 0);
    } else {
      DivModUnique(m + 1, d, q, r + 1);
    }
  }

  /** The closed form is a valid playing state at every second. */
  lemma PlayingAtValid(s0: SessionState, m: nat)
    requires Started(s0)
    ensures Valid(PlayingAt(s0, m)) && PlayingAt(s0, m).isPlaying
  {
  }

  /** A tick of a playing session moves the closed form on by one second. */
  lemma TickClosedForm(s0: SessionState, m: nat)
    requires Started(s0) && Valid(PlayingAt(s0, m))
    ensures PlayingAt(s0, m).isPlaying
    ensures Tick(PlayingAt(s0, m)) ==
      if CompletesAt(s0.timeLimit, s0.phaseTime, m + 1) then CompletedAt(s0, m + 1)
      else PlayingAt(s0, m + 1)
  {
    DivModStep(m, s0.phaseTime);
  }

  /** Until the completing tick, a started session after m seconds is in
      the closed form: the clock shows m, the phase is m / phaseTime modulo
      4, and the countdown is what is left of the current phase. */
  lemma {:induction false} RunClosedForm(s0: SessionState, m: nat)
    requires Started(s0)
    requires NoneCompletesBefore(s0.timeLimit, s0.phaseTime, m + 1)
    ensures Run(s0, m) == PlayingAt(s0, m)
  {
    if m > 0 {
      RunClosedForm(s0, m - 1);
      TickClosedForm(s0, m - 1);
    } else {
      assert PlayingAt(s0, 0) == s0;
    }
  }

  /** The tick named by CompletesAt, when it is the first such, stops the
      session and marks it complete. */
  lemma RunCompletes(s0: SessionState, n: nat)
    requires Started(s0)
    requires CompletesAt(s0.timeLimit, s0.phaseTime, n)
    requires NoneCompletesBefore(s0.timeLimit, s0.phaseTime, n)
    ensures Run(s0, n) == CompletedAt(s0, n)
  {
    RunClosedForm(s0, n - 1);
    TickCompletes(s0, n);
    RunStep(s0, n);
  }

  /** The closed form's tick into a completing second. */
  lemma TickCompletes(s0: SessionState, n: nat)
    requires Started(s0) && CompletesAt(s0.timeLimit, s0.phaseTime, n)
    ensures Valid(PlayingAt(s0, n - 1)) && PlayingAt(s0, n - 1).isPlaying
    ensures Tick(PlayingAt(s0, n - 1)) == CompletedAt(s0, n)
  {
    PlayingAtValid(s0, n - 1);
    TickClosedForm(s0, n - 1);
  }

  /** One more second of a playing session is one more tick. */
  lemma RunStep(s: SessionState, n: nat)
    requires Valid(s) && n >= 1 && Run(s, n - 1).isPlaying
    ensures Run(s, n) == Tick(Run(s, n - 1))
  {
  }

  /** A stopped session stays as it is: the interval is cleared. */
  lemma {:induction false} RunStaysStopped(s: SessionState, n: nat, k: nat)
    requires Valid(s) && !Run(s, n).isPlaying
    ensures Run(s, n + k) == Run(s, n)
  {
    if k > 0 {
      RunStaysStopped(s, n, k - 1);
    }
  }

  /** Without a time limit a started session plays forever and follows
      the closed form at every second. */
  lemma NoLimitPlaysForever(s0: SessionState, m: nat)
    requires Started(s0) && s0.timeLimit == []
    ensures Run(s0, m) == PlayingAt(s0, m)
    ensures Run(s0, m).isPlaying && !Run(s0, m).sessionComplete
  {
    RunClosedForm(s0, m);
  }

  /** The first second at or after which the limit is reached. */
  function FirstReached(limit: string): (t: nat)
    requires AllDigits(limit)
    ensures t >= 1 && t >= LimitSeconds(limit)
  {
    if LimitSeconds(limit) >= 1 then LimitSeconds(limit) else 1
  }

  /** The first tick at or after `from` that moves into Wait: the first
      multiple of the phase time whose phase number is 3 modulo 4. */
  function NextWaitTick(from: nat, phaseTime: int): nat
    requires phaseTime >= 1
  {
    var k0 := (from + phaseTime - 1) / phaseTime;
    (k0 + (3 - k0 % 4) % 4) * phaseTime
  }

  /** The second on which a started session with the given limit completes. */
  function Deadline(limit: string, phaseTime: int): nat
    requires AllDigits(limit) && phaseTime >= 1
  {
    NextWaitTick(FirstReached(limit), phaseTime)
  }

  lemma MulMonotone(a: int, b: int, d: int)
    requires d > 0 && a < b
    ensures a * d < b * d
  {
    assert b * d - a * d == (b - a) * d;
  }

  lemma MulLe(a: int, b: int, d: int)
    requires d > 0 && a <= b
    ensures a * d <= b * d
  {
    if a < b {
      MulMonotone(a, b, d);
    }
  }

  /** (from + d - 1) / d is the least number of phases reaching `from`. */
  lemma CeilDiv(from: nat, d: int)
    requires d >= 1
    ensures var k0 := (from + d - 1) / d; k0 * d >= from && k0 * d - d < from
  {
    var k0, r0 := (from + d - 1) / d, (from + d - 1) % d;
    assert from + d - 1 == k0 * d + r0;
  }

  /** The index of the Wait transition NextWaitTick picks. */
  function WaitIndex(from: nat, d: int): int
    requires d >= 1
  {
    var k0 := (from + d - 1) / d;
    k0 + (3 - k0 % 4) % 4
  }

  /** A multiple of d at or after `from` and before NextWaitTick is not a
      move into Wait. */
  lemma NoEarlierWait(from: nat, d: int, j: nat)
    requires d >= 1 && from <= j < NextWaitTick(from, d) && j % d == 0
    ensures (j / d) % 4 != 3
  {
    var k0, k, i := (from + d - 1) / d, WaitIndex(from, d), j / d;
    assert j == i * d;
    CeilDiv(from, d);
    if i <= k0 - 1 {
      MulLe(i, k0 - 1, d);
      MulStep(k0 - 1, d);
      assert false;
    }
    if i >= k {
      MulLe(k, i, d);
      assert false;
    }
    BeforeWaitIndex(k0, i);
  }

  /** Between k0 and the first index from k0 on that is 3 modulo 4, no
      index is 3 modulo 4. */
  lemma BeforeWaitIndex(k0: int, i: int)
    requires k0 <= i < k0 + (3 - k0 % 4) % 4
    ensures i % 4 != 3
  {
  }

  /** NextWaitTick is a Wait transition, no earlier one at or after `from`
      exists, and it lies less than one full cycle (4 phases) after `from`. */
  lemma NextWaitTickFacts(from: nat, d: int)
    requires from >= 1 && d >= 1
    ensures var n := NextWaitTick(from, d);
      n >= from && n < from + 4 * d && n % d == 0 && (n / d) % 4 == 3 &&
      forall j: nat :: from <= j < n ==> !(j % d == 0 && (j / d) % 4 == 3)
  {
    NextWaitTickIsWait(from, d);
    forall j: nat | from <= j < NextWaitTick(from, d) && j % d == 0
      ensures (j / d) % 4 != 3
    {
      NoEarlierWait(from, d, j);
    }
  }

  lemma NextWaitTickIsWait(from: nat, d: int)
    requires from >= 1 && d >= 1
    ensures var n := NextWaitTick(from, d);
      n >= from && n < from + 4 * d && n % d == 0 && (n / d) % 4 == 3
  {
    var k0, k := (from + d - 1) / d, WaitIndex(from, d);
    var n := k * d;
    assert n == NextWaitTick(from, d);
    DivModUnique(n, d, k, 0);
    assert k0 <= k <= k0 + 3;
    CeilDiv(from, d);
    MulLe(k0, k, d);
    MulLe(k, k0 + 3, d);
    assert (k0 + 3) * d == k0 * d + 3 * d;
  }

  /** The Deadline tick completes a session with a limit, no tick before it
      does, it is no earlier than the limit and less than one cycle later. */
  lemma DeadlineFacts(limit: string, d: int)
    requires AllDigits(limit) && limit != [] && d >= 1
    ensures CompletesAt(limit, d, Deadline(limit, d))
    ensures NoneCompletesBefore(limit, d, Deadline(limit, d))
    ensures LimitSeconds(limit) <= Deadline(limit, d) < FirstReached(limit) + 4 * d
  {
    NextWaitTickFacts(FirstReached(limit), d);
  }

  /** A started session with a time limit keeps playing up to its Deadline
      and follows the closed form until then. */
  lemma LimitedSessionBeforeDeadline(s0: SessionState, m: nat)
    requires Started(s0) && s0.timeLimit != []
    requires m < Deadline(s0.timeLimit, s0.phaseTime)
    ensures Run(s0, m) == PlayingAt(s0, m) && Run(s0, m).isPlaying
  {
    DeadlineFacts(s0.timeLimit, s0.phaseTime);
    RunClosedForm(s0, m);
  }

  /** It completes on exactly the Deadline tick (the first move into Wait
      once the limit is reached, so the current cycle is finished first),
      and then stays complete with the clock stopped at the Deadline. */
  lemma LimitedSessionFromDeadline(s0: SessionState, m: nat)
    requires Started(s0) && s0.timeLimit != []
    requires m >= Deadline(s0.timeLimit, s0.phaseTime)
    ensures Run(s0, m) == CompletedAt(s0, Deadline(s0.timeLimit, s0.phaseTime))
    ensures Run(s0, m).sessionComplete && !Run(s0, m).isPlaying
  {
    var n := Deadline(s0.timeLimit, s0.phaseTime);
    DeadlineFacts(s0.timeLimit, s0.phaseTime);
    RunCompletes(s0, n);
    StaysCompleted(s0, n, m);
  }

  /** A session completed on tick n is still that state at any later m. */
  lemma StaysCompleted(s0: SessionState, n: nat, m: nat)
    requires Valid(s0) && n <= m && Run(s0, n) == CompletedAt(s0, n)
    ensures Run(s0, m) == CompletedAt(s0, n)
  {
    RunStaysStopped(s0, n, m - n);
    assert n + (m - n) == m;
  }
}
