/**
 * Properties of the game session over whole traces of events: the invariant
 * of reachable states, the countdown, the high score as the longest run of
 * correct answers, and what the active flag does and does not gate.
 */
module SessionProps {
  import opened Session

  predicate NoStart(evs: seq<Event>) {
    forall i :: 0 <= i < |evs| ==> !evs[i].StartClicked?
  }

  /** The number of interval ticks in `evs`. */
  function Ticks(evs: seq<Event>): nat {
    if evs == [] then 0 else (if evs[0].TimerTick? then 1 else 0) + Ticks(evs[1..])
  }

  /** The verdicts of `evs`, in order. */
  function Verdicts(evs: seq<Event>): seq<bool> {
    if evs == [] then []
    else if evs[0].VerdictArrived? then [evs[0].isCorrect] + Verdicts(evs[1..])
    else Verdicts(evs[1..])
  }

  /** `n` ticks in a row. */
  function TickEvents(n: nat): (evs: seq<Event>)
    ensures |evs| == n && NoStart(evs) && Ticks(evs) == n
  {
    if n == 0 then [] else [TimerTick] + TickEvents(n - 1)
  }

  // ---------------------------------------------------------------------
  // Reachable states
  // ---------------------------------------------------------------------

  /** A run from a state that satisfies the invariant ends in one that does. */
  lemma {:induction false} RunInv(s: State, evs: seq<Event>)
    requires Inv(s) && Executes(s, evs)
    ensures Inv(Run(s, evs))
    decreases |evs|
  {
    if evs != [] {
      StepInv(s, evs[0]);
      RunInv(Step(s, evs[0]), evs[1..]);
    }
  }

  /** Every state the page can reach satisfies the invariant. */
  lemma ReachableInv(evs: seq<Event>)
    requires Executes(Initial(), evs)
    ensures Inv(Run(Initial(), evs))
  {
    RunInv(Initial(), evs);
  }

  /** Running `a` and then `b` is running `a + b`. */
  lemma {:induction false} RunAppend(s: State, a: seq<Event>, b: seq<Event>)
    requires Executes(s, a) && Executes(Run(s, a), b)
    ensures Executes(s, a + b) && Run(s, a + b) == Run(Run(s, a), b)
    decreases |a|
  {
    if a == [] {
      assert a + b == b;
    } else {
      assert (a + b)[1..] == a[1..] + b;
      RunAppend(Step(s, a[0]), a[1..], b);
    }
  }

  // ---------------------------------------------------------------------
  // Starting and replaying
  // ---------------------------------------------------------------------

  /**
   * Pressing start or Play Again activates the session with streak and high
   * score 0, a full clock and a live interval, and requests one question;
   * nothing of the previous session's score survives.
   */
  lemma StartResetsSession(s: State)
    requires Inv(s) && CanStart(s)
    ensures var r := PressStart(s);
      && r.gameActive && r.timerRunning && r.streak == 0 && r.highScore == 0
      && r.timeRemaining == TOTAL_TIME && r.feedback == Blank && !r.startViewShown
      && r.loads == s.loads + 1 && r.questionsInFlight == s.questionsInFlight + 1
      && Inv(r)
    ensures !s.timerRunning
  {
  }

  // ---------------------------------------------------------------------
  // The countdown
  // ---------------------------------------------------------------------

  /**
   * Each tick takes one second off the clock and no other event touches it;
   * the session stays active exactly until as many ticks as there were
   * seconds left have happened, and no tick happens while it is inactive.
   */
  lemma {:induction false} Countdown(s: State, evs: seq<Event>)
    requires Inv(s) && Executes(s, evs) && NoStart(evs)
    ensures var r := Run(s, evs);
      && r.timeRemaining == s.timeRemaining - Ticks(evs)
      && (r.gameActive <==> s.gameActive && Ticks(evs) < s.timeRemaining)
      && (!s.gameActive ==> Ticks(evs) == 0)
      && Ticks(evs) <= s.timeRemaining
    decreases |evs|
  {
    if evs != [] {
      var t := Step(s, evs[0]);
      StepInv(s, evs[0]);
      assert NoStart(evs[1..]) by {
        forall i | 0 <= i < |evs[1..]| ensures !evs[1..][i].StartClicked? {
          assert evs[1..][i] == evs[i + 1];
        }
      }
      Countdown(t, evs[1..]);
    }
  }

  /**
   * After a start, the session is active until the 60th tick and ends with it:
   * the clock then reads 0 and no further tick can happen.
   */
  lemma GameLastsSixtyTicks(s: State, evs: seq<Event>)
    requires Inv(s) && CanStart(s)
    requires Executes(PressStart(s), evs) && NoStart(evs)
    ensures var r := Run(PressStart(s), evs);
      && Ticks(evs) <= TOTAL_TIME
      && r.timeRemaining == TOTAL_TIME - Ticks(evs)
      && 0 <= r.timeRemaining <= TOTAL_TIME
      && (r.gameActive <==> Ticks(evs) < TOTAL_TIME)
      && (Ticks(evs) == TOTAL_TIME ==> !r.timerRunning)
  {
    StartResetsSession(s);
    Countdown(PressStart(s), evs);
    RunInv(PressStart(s), evs);
  }

  /** From an active session with `n` seconds left, `n` ticks in a row can happen and end it. */
  lemma {:induction false} TicksRunOut(s: State, n: nat)
    requires Inv(s) && s.gameActive && s.timeRemaining == n
    ensures Executes(s, TickEvents(n))
    ensures var r := Run(s, TickEvents(n));
      !r.gameActive && !r.timerRunning && r.timeRemaining == 0 && r.feedback == TimesUp(s.highScore)
    decreases n
  {
    var t := Tick(s);
    StepInv(s, TimerTick);
    if n > 1 {
      TicksRunOut(t, n - 1);
    }
  }

  /** Sixty ticks after a start end the session. */
  lemma SixtyTicksEndTheGame(s: State)
    requires Inv(s) && CanStart(s)
    ensures Executes(PressStart(s), TickEvents(TOTAL_TIME))
    ensures !Run(PressStart(s), TickEvents(TOTAL_TIME)).gameActive
  {
    StartResetsSession(s);
    TicksRunOut(PressStart(s), TOTAL_TIME);
  }

  // ---------------------------------------------------------------------
  // Streak and high score
  // ---------------------------------------------------------------------

  /** The verdicts `vs[i..j]` are all correct. */
  ghost predicate CorrectRun(vs: seq<bool>, i: int, j: int) {
    0 <= i <= j <= |vs| && forall k :: i <= k < j ==> vs[k]
  }

  /** `n` is the length of the longest run of correct verdicts in `vs`. */
  ghost predicate IsLongestRun(vs: seq<bool>, n: nat) {
    && (exists i, j :: CorrectRun(vs, i, j) && j - i == n)
    && (forall i, j :: CorrectRun(vs, i, j) ==> j - i <= n)
  }

  /** `n` is the number of correct verdicts since the last incorrect one. */
  ghost predicate IsTrailingRun(vs: seq<bool>, n: nat) {
    n <= |vs| && CorrectRun(vs, |vs| - n, |vs|) && (n < |vs| ==> !vs[|vs| - 1 - n])
  }

  /** One more verdict extends both characterisations the way the verdict handler does. */
  lemma ExtendRuns(vs: seq<bool>, b: bool, high: nat, streak: nat)
    requires IsLongestRun(vs, high) && IsTrailingRun(vs, streak)
    ensures var streak' := if b then streak + 1 else 0;
      var high' := if streak' > high then streak' else high;
      IsLongestRun(vs + [b], high') && IsTrailingRun(vs + [b], streak')
  {
    var ws := vs + [b];
    var streak' := if b then streak + 1 else 0;
    var high' := if streak' > high then streak' else high;
    var n := |vs|;
    assert IsTrailingRun(ws, streak') by {
      if b {
        assert CorrectRun(ws, n + 1 - streak', n + 1) by {
          forall k | n + 1 - streak' <= k < n + 1 ensures ws[k] {
            if k < n { assert ws[k] == vs[k]; }
          }
        }
        if streak' < |ws| {
          assert ws[|ws| - 1 - streak'] == vs[n - 1 - streak];
        }
      } else {
        assert CorrectRun(ws, n + 1, n + 1);
      }
    }
    forall i, j | CorrectRun(ws, i, j) ensures j - i <= high' {
      if j <= n {
        assert CorrectRun(vs, i, j) by {
          forall k | i <= k < j ensures vs[k] { assert ws[k] == vs[k]; }
        }
      } else {
        // the run ends with the new verdict, so it is correct and the run
        // cannot reach back past the last wrong verdict before it
        assert ws[n] == b;
        if streak < n {
          assert ws[n - 1 - streak] == vs[n - 1 - streak];
          assert i > n - 1 - streak;
        }
      }
    }
    var i0, j0 :| CorrectRun(vs, i0, j0) && j0 - i0 == high;
    if streak' > high {
      assert CorrectRun(ws, n + 1 - streak', n + 1);
    } else {
      assert CorrectRun(ws, i0, j0) by {
        forall k | i0 <= k < j0 ensures ws[k] { assert ws[k] == vs[k]; }
      }
    }
  }

  /** The verdicts seen after one more event. */
  function VerdictsAfter(vs: seq<bool>, e: Event): seq<bool> {
    if e.VerdictArrived? then vs + [e.isCorrect] else vs
  }

  /** One event keeps streak and high score in step with the verdicts seen. */
  lemma StepScore(s: State, vs: seq<bool>, e: Event)
    requires Enabled(s, e) && !e.StartClicked?
    requires IsLongestRun(vs, s.highScore) && IsTrailingRun(vs, s.streak)
    ensures IsLongestRun(VerdictsAfter(vs, e), Step(s, e).highScore)
    ensures IsTrailingRun(VerdictsAfter(vs, e), Step(s, e).streak)
  {
    if e.VerdictArrived? {
      ExtendRuns(vs, e.isCorrect, s.highScore, s.streak);
    }
  }

  /** Between two starts, streak and high score follow the verdicts, and nothing else. */
  lemma {:induction false} ScoreFollowsVerdicts(s: State, vs: seq<bool>, evs: seq<Event>)
    requires Executes(s, evs) && NoStart(evs)
    requires IsLongestRun(vs, s.highScore) && IsTrailingRun(vs, s.streak)
    ensures IsLongestRun(vs + Verdicts(evs), Run(s, evs).highScore)
    ensures IsTrailingRun(vs + Verdicts(evs), Run(s, evs).streak)
    decreases |evs|
  {
    if evs == [] {
      assert vs + [] == vs;
    } else {
      var e := evs[0];
      assert !e.StartClicked?;
      assert NoStart(evs[1..]) by {
        forall i | 0 <= i < |evs[1..]| ensures !evs[1..][i].StartClicked? {
          assert evs[1..][i] == evs[i + 1];
        }
      }
      StepScore(s, vs, e);
      var ws := VerdictsAfter(vs, e);
      ScoreFollowsVerdicts(Step(s, e), ws, evs[1..]);
      assert ws + Verdicts(evs[1..]) == vs + Verdicts(evs);
    }
  }

  /**
   * After a start, the high score is the longest run of correct verdicts
   * since that start and the streak is the run of correct verdicts since the
   * last incorrect one (verdicts that arrive after the end included).
   */
  lemma HighScoreIsLongestRun(s: State, evs: seq<Event>)
    requires Inv(s) && CanStart(s)
    requires Executes(PressStart(s), evs) && NoStart(evs)
    ensures IsLongestRun(Verdicts(evs), Run(PressStart(s), evs).highScore)
    ensures IsTrailingRun(Verdicts(evs), Run(PressStart(s), evs).streak)
  {
    var empty: seq<bool> := [];
    assert CorrectRun(empty, 0, 0);
    ScoreFollowsVerdicts(PressStart(s), empty, evs);
    assert empty + Verdicts(evs) == Verdicts(evs);
  }

  /** Between two starts the high score never decreases. */
  lemma {:induction false} HighScoreMonotone(s: State, evs: seq<Event>)
    requires Executes(s, evs) && NoStart(evs)
    ensures Run(s, evs).highScore >= s.highScore
    decreases |evs|
  {
    if evs != [] {
      assert NoStart(evs[1..]) by {
        forall i | 0 <= i < |evs[1..]| ensures !evs[1..][i].StartClicked? {
          assert evs[1..][i] == evs[i + 1];
        }
      }
      HighScoreMonotone(Step(s, evs[0]), evs[1..]);
    }
  }

  // ---------------------------------------------------------------------
  // The active flag
  // ---------------------------------------------------------------------

  /** While the session is inactive and nobody presses a button to start, no question is requested. */
  lemma {:induction false} NoQuestionWhileInactive(s: State, evs: seq<Event>)
    requires Inv(s) && !s.gameActive && Executes(s, evs) && NoStart(evs)
    ensures Run(s, evs).loads == s.loads && !Run(s, evs).gameActive
    decreases |evs|
  {
    if evs != [] {
      StepInv(s, evs[0]);
      assert NoStart(evs[1..]) by {
        forall i | 0 <= i < |evs[1..]| ensures !evs[1..][i].StartClicked? {
          assert evs[1..][i] == evs[i + 1];
        }
      }
      NoQuestionWhileInactive(Step(s, evs[0]), evs[1..]);
    }
  }

  /**
   * The verdict handler does not check the active flag: a verdict arriving
   * after the end still changes streak and high score, and it replaces the
   * final message, taking the Play Again button with it.
   */
  lemma LateVerdictStillScores(s: State, isCorrect: bool)
    requires Inv(s) && !s.gameActive && s.answersInFlight > 0
    ensures var r := ApplyVerdict(s, isCorrect);
      && r.streak == (if isCorrect then s.streak + 1 else 0)
      && r.highScore >= s.highScore
      && (isCorrect ==> r.highScore == s.highScore + 1 || r.highScore == s.highScore)
      && (isCorrect && s.streak == s.highScore ==> r.highScore == s.highScore + 1)
      && !r.gameActive && !CanStart(r)
  {
  }

  /**
   * Once the session is over and no start or Play Again button is left (a late
   * verdict removed it), no event can restart it or request a question again.
   */
  lemma {:induction false} StuckWithoutReplay(s: State, evs: seq<Event>)
    requires Inv(s) && !s.gameActive && !CanStart(s) && Executes(s, evs)
    ensures NoStart(evs)
    ensures var r := Run(s, evs); !r.gameActive && !CanStart(r) && r.loads == s.loads
    decreases |evs|
  {
    if evs != [] {
      var t := Step(s, evs[0]);
      StepInv(s, evs[0]);
      StuckWithoutReplay(t, evs[1..]);
      forall i | 0 <= i < |evs| ensures !evs[i].StartClicked? {
        if i > 0 { assert evs[i] == evs[1..][i - 1]; }
      }
    }
  }

  /**
   * The callback of a verdict that arrived before the end fires after a
   * quick replay: the flag is set again, so it requests a second question
   * beside the one `startGame` requested.
   */
  lemma StaleCallbackAfterReplay(s: State)
    requires Inv(s) && s.feedback.TimesUp? && s.pendingCallbacks > 0
    ensures Executes(s, [StartClicked, DelayElapsed])
    ensures var r := Run(s, [StartClicked, DelayElapsed]);
      r.loads == s.loads + 2 && r.questionsInFlight == s.questionsInFlight + 2
  {
  }

  /** Buttons are disabled by a verdict and only a displayed question enables them. */
  lemma ButtonsFollowQuestions(s: State, e: Event)
    requires Inv(s) && Enabled(s, e)
    ensures e.VerdictArrived? ==> !Step(s, e).buttonsEnabled
    ensures e.QuestionArrived? ==> Step(s, e).buttonsEnabled
    ensures Step(s, e).buttonsEnabled && !s.buttonsEnabled ==> e.QuestionArrived?
  {
  }
}
