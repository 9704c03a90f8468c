/** The elapsed-time display: `formatTime` writes a number of seconds as
    minutes and seconds, each padded to two digits, separated by ':'. */
module Clock {
  import opened Digits

  /** n copies of '0'. */
  function Zeros(n: nat): (z: string)
    ensures |z| == n
  {
    if n == 0 then [] else ['0'] + Zeros(n - 1)
  }

  /** `padStart(2, '0')`: zeros are put in front until there are two
      characters; a text already that long is kept as it is. */
  function PadTwo(d: string): string
    decreases 2 - |d|
  {
    if |d| >= 2 then d else PadTwo(['0'] + d)
  }

  /** The padded text is the original preceded by just enough zeros to
      make two characters. */
  lemma {:induction false} PadTwoShape(d: string)
    ensures |PadTwo(d)| == if |d| >= 2 then |d| else 2
    ensures PadTwo(d) == Zeros(|PadTwo(d)| - |d|) + d
    decreases 2 - |d|
  {
    if |d| < 2 {
      var z := ['0'] + d;
      PadTwoShape(z);
      assert Zeros(|PadTwo(d)| - |d|) == ['0'] + Zeros(|PadTwo(d)| - |z|);
    }
  }

  lemma {:induction false} PadTwoDigits(d: string)
    requires AllDigits(d)
    ensures AllDigits(PadTwo(d)) && Value(PadTwo(d)) == Value(d)
    ensures |PadTwo(d)| == if |d| >= 2 then |d| else 2
    decreases 2 - |d|
  {
    if |d| < 2 {
      LeadingZero(d);
      PadTwoDigits(['0'] + d);
    }
  }

  /** The text has a ':' third from the end with digits on both sides. */
  predicate IsClockText(t: string) {
    |t| >= 5 && t[|t| - 3] == ':' && AllDigits(t[..|t| - 3]) && AllDigits(t[|t| - 2..])
  }

  /** Reads a clock text back into seconds. */
  function ParseTime(t: string): nat
    requires IsClockText(t)
  {
    Value(t[..|t| - 3]) * 60 + Value(t[|t| - 2..])
  }

  /** `formatTime`: the minutes field is the whole minutes and the seconds
      field the seconds left over, always two digits and below 60. */
  function FormatTime(seconds: nat): (t: string)
    ensures IsClockText(t)
    ensures Value(t[..|t| - 3]) == seconds / 60
    ensures Value(t[|t| - 2..]) == seconds % 60 < 60
  {
    ClockText(seconds / 60, seconds % 60)
  }

  /** The minutes and the seconds, written and padded and joined by ':',
      come apart again at the colon. */
  function ClockText(minutes: nat, secs: nat): (t: string)
    requires secs < 60
    ensures IsClockText(t) && Value(t[..|t| - 3]) == minutes && Value(t[|t| - 2..]) == secs
  {
    var mm := PadTwo(ToDecimal(minutes));
    var ss := PadTwo(ToDecimal(secs));
    PaddedField(minutes);
    PaddedField(secs);
    JoinFields(mm, ss);
    mm + ":" + ss
  }

  /** A number written in decimal and padded to two digits reads back as
      the number, and is exactly two digits long below 100. */
  lemma PaddedField(n: nat)
    ensures AllDigits(PadTwo(ToDecimal(n))) && Value(PadTwo(ToDecimal(n))) == n
    ensures |PadTwo(ToDecimal(n))| >= 2 && (n < 100 ==> |PadTwo(ToDecimal(n))| == 2)
  {
    PadTwoDigits(ToDecimal(n));
    DecimalLength(n);
    ValueOfDecimal(n);
  }

  /** Two digit fields joined by ':' come apart again at the colon. */
  lemma JoinFields(mm: string, ss: string)
    requires AllDigits(mm) && AllDigits(ss) && |mm| >= 2 && |ss| == 2
    ensures var t := mm + ":" + ss;
      IsClockText(t) && t[..|t| - 3] == mm && t[|t| - 2..] == ss
  {
    var t := mm + ":" + ss;
    assert t[..|t| - 3] == mm;
    assert t[|t| - 2..] == ss;
  }

  /** Reading the display back gives the elapsed seconds. */
  lemma FormatTimeRoundTrip(seconds: nat)
    ensures ParseTime(FormatTime(seconds)) == seconds
  {
  }

  /** The display is exactly "MM:SS", five characters, for less than 100 minutes. */
  lemma FormatTimeLength(seconds: nat)
    ensures |FormatTime(seconds)| == 5 <==> seconds < 6000
  {
    PadTwoDigits(ToDecimal(seconds / 60));
    PadTwoDigits(ToDecimal(seconds % 60));
    DecimalLength(seconds / 60);
    DecimalLength(seconds % 60);
  }
}
