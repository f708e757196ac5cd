/** What the timer says, read back from its text. */
module TimerText {
  import opened Wrappers
  import opened Decimal
  import opened Session

  /** `padStart(1, "0")` leaves any non-empty string unchanged. */
  lemma PadStartOneIsIdentity(s: string)
    requires |s| >= 1
    ensures PadStart(s, 1, '0') == s
  {
  }

  /**
   * The timer text shows minutes and a two-digit seconds field whose values
   * give back the seconds left: minutes * 60 + seconds == t.
   */
  lemma TimerDisplayReadsBack(t: nat)
    ensures var f := ParseTimer(TimerDisplay(t));
      f.Some? && f.value.1 < 60 && f.value.0 * 60 + f.value.1 == t
  {
    var m := NatToString(t / 60);
    var sec := PadStart(NatToString(t % 60), 2, '0');
    TwoDigitField(t % 60);
    ParseNatToString(t / 60);
    var text := TimerDisplay(t);
    assert text == TIMER_PREFIX + m + ":" + sec;
    var p := |TIMER_PREFIX|;
    assert text[..p] == TIMER_PREFIX;
    assert text[p..|text| - 3] == m;
    assert text[|text| - 3] == ':';
    assert text[|text| - 2..] == sec;
  }

  /** One minute left reads "1:00". */
  lemma TimerDisplaySixty()
    ensures TimerDisplay(60) == "Time Left: 1:00"
  {
  }

  /** Five seconds left reads "0:05". */
  lemma TimerDisplayFive()
    ensures TimerDisplay(5) == "Time Left: 0:05"
  {
  }
}
