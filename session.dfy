/**
 * The game session of public/script.js as a state machine on values.
 *
 * The page keeps its session in module-level variables (`streak`,
 * `highScore`, `timeRemaining`, `gameActive`, `timerId`) and changes them in
 * event handlers: the start and play-again buttons, the one-second interval,
 * the arrival of a question, a click on an answer button, the arrival of the
 * server's verdict and the two-second delayed callback. `State` gathers those
 * variables together with the parts of the page and of the event loop that
 * decide which handler can run next; each handler is one function here, and
 * the class `Script.Game` is proved against these functions.
 */
module Session {
  import opened Wrappers
  import opened Decimal

  /** `TOTAL_TIME`: seconds in one game session. */
  const TOTAL_TIME: nat := 60

  /** What the feedback area shows. */
  datatype Feedback =
    | Blank
      /** the "Correct!" / "Incorrect! ..." message of a verdict */
    | Verdict(isCorrect: bool)
      /** the final "Times Up!" message with its Play Again button */
    | TimesUp(shownScore: nat)

  datatype State = State(
    streak: nat,
    highScore: nat,
    timeRemaining: int,
    gameActive: bool,
    /** `timerId` names an interval that has not been cleared */
    timerRunning: bool,
    /** answer buttons are on the page and take clicks (re-enabled by `enableButtons`) */
    buttonsEnabled: bool,
    /** the start view with its start button is still shown */
    startViewShown: bool,
    feedback: Feedback,
    /** calls of `loadNextQuestion` so far */
    loads: nat,
    /** question requests whose response has not been displayed yet */
    questionsInFlight: nat,
    /** answer submissions whose verdict has not arrived yet */
    answersInFlight: nat,
    /** two-second callbacks scheduled and not yet fired */
    pendingCallbacks: nat)

  /** The page right after loading: the variables' initial values, start view shown. */
  function Initial(): (s: State)
    ensures Inv(s) && CanStart(s) && !s.gameActive
  {
    State(0, 0, TOTAL_TIME, false, false, false, true, Blank, 0, 0, 0, 0)
  }

  // ---------------------------------------------------------------------
  // The handlers
  // ---------------------------------------------------------------------

  /** `startGame()`: resets the session, starts the interval and requests a question. */
  function StartGame(s: State): (r: State)
    ensures r.gameActive && r.timerRunning && r.streak == 0 && r.highScore == 0
    ensures r.timeRemaining == TOTAL_TIME
    ensures r.loads == s.loads + 1 && r.questionsInFlight == s.questionsInFlight + 1
    ensures r.feedback == s.feedback && r.buttonsEnabled == s.buttonsEnabled
    ensures r.startViewShown == s.startViewShown
    ensures r.answersInFlight == s.answersInFlight && r.pendingCallbacks == s.pendingCallbacks
  {
    s.(gameActive := true, highScore := 0, streak := 0, timeRemaining := TOTAL_TIME,
       timerRunning := true, loads := s.loads + 1, questionsInFlight := s.questionsInFlight + 1)
  }

  /**
   * A click on the start button (which hides the start view) or on the
   * Play Again button (which clears the feedback area), followed by `startGame()`.
   */
  function PressStart(s: State): (r: State)
    requires CanStart(s)
    ensures r.gameActive && r.timerRunning && r.streak == 0 && r.highScore == 0
    ensures r.timeRemaining == TOTAL_TIME && !r.startViewShown
    ensures !s.startViewShown ==> r.feedback == Blank
    ensures s.startViewShown ==> r.feedback == s.feedback
    ensures r.loads == s.loads + 1 && r.questionsInFlight == s.questionsInFlight + 1
    ensures r.buttonsEnabled == s.buttonsEnabled && r.answersInFlight == s.answersInFlight
    ensures r.pendingCallbacks == s.pendingCallbacks
  {
    if s.startViewShown then StartGame(s.(startViewShown := false))
    else StartGame(s.(feedback := Blank))
  }

  /**
   * `endGame()`: deactivates the session, clears the interval, empties the
   * question container (so no answer button is left) and shows the final
   * message with the current high score.
   */
  function EndGame(s: State): (r: State)
    ensures !r.gameActive && !r.timerRunning && !r.buttonsEnabled
    ensures r.feedback == TimesUp(s.highScore)
    ensures r.(gameActive := s.gameActive, timerRunning := s.timerRunning,
               buttonsEnabled := s.buttonsEnabled, feedback := s.feedback) == s
  {
    s.(gameActive := false, timerRunning := false, buttonsEnabled := false,
       feedback := TimesUp(s.highScore))
  }

  /** The body of the one-second interval set up by `startTimer()`. */
  function Tick(s: State): (r: State)
    ensures r.timeRemaining == s.timeRemaining - 1
    ensures r.gameActive <==> s.gameActive && r.timeRemaining > 0
    ensures r.timerRunning <==> s.timerRunning && r.timeRemaining > 0
    ensures r.timeRemaining <= 0 ==> r.feedback == TimesUp(s.highScore) && !r.buttonsEnabled
    ensures r.timeRemaining > 0 ==> r == s.(timeRemaining := s.timeRemaining - 1)
    ensures r.(gameActive := s.gameActive, timerRunning := s.timerRunning, buttonsEnabled := s.buttonsEnabled,
               feedback := s.feedback, timeRemaining := s.timeRemaining) == s
  {
    var t := s.(timeRemaining := s.timeRemaining - 1);
    if t.timeRemaining <= 0 then EndGame(t.(timerRunning := false)) else t
  }

  /** A requested question arrives and `displayQuestion` shows it, enabling its buttons. */
  function DisplayQuestion(s: State): (r: State)
    requires s.questionsInFlight > 0
    ensures r.buttonsEnabled && r.questionsInFlight == s.questionsInFlight - 1
    ensures r.(buttonsEnabled := s.buttonsEnabled, questionsInFlight := s.questionsInFlight) == s
  {
    s.(questionsInFlight := s.questionsInFlight - 1, buttonsEnabled := true)
  }

  /** A click on an answer button posts the answer; nothing is disabled at click time. */
  function SubmitAnswer(s: State): (r: State)
    ensures r.answersInFlight == s.answersInFlight + 1
    ensures r.(answersInFlight := s.answersInFlight) == s
  {
    s.(answersInFlight := s.answersInFlight + 1)
  }

  /** `updateHighScore()`: raises the high score to the streak when the streak exceeds it. */
  function UpdateHighScore(s: State): (r: State)
    ensures r.highScore >= s.highScore && r.highScore >= s.streak
    ensures r.highScore == s.highScore || r.highScore == s.streak
    ensures r.(highScore := s.highScore) == s
  {
    if s.streak > s.highScore then s.(highScore := s.streak) else s
  }

  /**
   * The verdict handler of `submitAnswer`: shows the verdict, disables the
   * buttons, updates streak and high score and schedules the delayed
   * callback. It does not look at `gameActive`.
   */
  function ApplyVerdict(s: State, isCorrect: bool): (r: State)
    requires s.answersInFlight > 0
    ensures r.streak == (if isCorrect then s.streak + 1 else 0)
    ensures r.highScore == (if r.streak > s.highScore then r.streak else s.highScore)
    ensures r.highScore >= r.streak
    ensures r.feedback == Verdict(isCorrect) && !r.buttonsEnabled
    ensures r.answersInFlight == s.answersInFlight - 1 && r.pendingCallbacks == s.pendingCallbacks + 1
    ensures r.gameActive == s.gameActive && r.timerRunning == s.timerRunning
    ensures r.timeRemaining == s.timeRemaining && r.loads == s.loads
    ensures r.questionsInFlight == s.questionsInFlight && r.startViewShown == s.startViewShown
  {
    var t := s.(answersInFlight := s.answersInFlight - 1, feedback := Verdict(isCorrect),
                buttonsEnabled := false, streak := if isCorrect then s.streak + 1 else 0);
    var u := UpdateHighScore(t);
    u.(pendingCallbacks := u.pendingCallbacks + 1)
  }

  /** The two-second callback: clears the feedback and loads a question only if the game is active. */
  function NextQuestionCallback(s: State): (r: State)
    requires s.pendingCallbacks > 0
    ensures r.pendingCallbacks == s.pendingCallbacks - 1
    ensures r.loads == s.loads + (if s.gameActive then 1 else 0)
    ensures r.questionsInFlight == s.questionsInFlight + (if s.gameActive then 1 else 0)
    ensures s.gameActive ==> r.feedback == Blank
    ensures !s.gameActive ==> r.feedback == s.feedback
    ensures r.(pendingCallbacks := s.pendingCallbacks, loads := s.loads,
               questionsInFlight := s.questionsInFlight, feedback := s.feedback) == s
  {
    var t := s.(pendingCallbacks := s.pendingCallbacks - 1);
    if t.gameActive then
      t.(feedback := Blank, loads := t.loads + 1, questionsInFlight := t.questionsInFlight + 1)
    else t
  }

  // ---------------------------------------------------------------------
  // Events, traces and the invariant
  // ---------------------------------------------------------------------

  datatype Event =
    | StartClicked
    | TimerTick
    | QuestionArrived
    | AnswerClicked
    | VerdictArrived(isCorrect: bool)
    | DelayElapsed

  /** A start or Play Again button is on the page. */
  predicate CanStart(s: State) {
    s.startViewShown || s.feedback.TimesUp?
  }

  /** An answer button can be clicked: it is enabled and the question container is shown. */
  predicate Clickable(s: State) {
    s.gameActive && s.buttonsEnabled
  }

  /** When each event can happen at all. */
  predicate Enabled(s: State, e: Event) {
    match e
    case StartClicked => CanStart(s)
    case TimerTick => s.timerRunning
    case QuestionArrived => s.questionsInFlight > 0
    case AnswerClicked => Clickable(s)
    case VerdictArrived(_) => s.answersInFlight > 0
    case DelayElapsed => s.pendingCallbacks > 0
  }

  function Step(s: State, e: Event): State
    requires Enabled(s, e)
  {
    match e
    case StartClicked => PressStart(s)
    case TimerTick => Tick(s)
    case QuestionArrived => DisplayQuestion(s)
    case AnswerClicked => SubmitAnswer(s)
    case VerdictArrived(b) => ApplyVerdict(s, b)
    case DelayElapsed => NextQuestionCallback(s)
  }

  /** Every event of `evs` can happen in turn, starting from `s`. */
  ghost predicate Executes(s: State, evs: seq<Event>)
    decreases |evs|
  {
    evs == [] || (Enabled(s, evs[0]) && Executes(Step(s, evs[0]), evs[1..]))
  }

  function Run(s: State, evs: seq<Event>): State
    requires Executes(s, evs)
    decreases |evs|
  {
    if evs == [] then s else Run(Step(s, evs[0]), evs[1..])
  }

  /** The facts every reachable state satisfies. */
  ghost predicate Inv(s: State) {
    && 0 <= s.timeRemaining <= TOTAL_TIME
    && s.streak <= s.highScore
    && s.timerRunning == s.gameActive
    && (s.gameActive ==> s.timeRemaining > 0)
    && (s.feedback.TimesUp? ==> !s.gameActive && s.feedback.shownScore == s.highScore)
    && (s.startViewShown ==>
          !s.gameActive && !s.buttonsEnabled && s.feedback == Blank && s.loads == 0
          && s.questionsInFlight == 0 && s.answersInFlight == 0 && s.pendingCallbacks == 0)
  }

  /** Every handler keeps the invariant. */
  lemma StepInv(s: State, e: Event)
    requires Inv(s) && Enabled(s, e)
    ensures Inv(Step(s, e))
  {
  }

  // ---------------------------------------------------------------------
  // The timer text
  // ---------------------------------------------------------------------

  const TIMER_PREFIX: string := "Time Left: "

  /** `str.padStart(len, fill)` with a one-character fill string. */
  function PadStart(s: string, len: nat, fill: char): (r: string)
    ensures |r| == (if |s| >= len then |s| else len)
  {
    if |s| >= len then s else seq(len - |s|, _ => fill) + s
  }

  /** Padding keeps the string as a suffix and fills up to the length asked for. */
  lemma PadStartShape(s: string, len: nat, fill: char)
    ensures var r := PadStart(s, len, fill);
      && |r| == (if |s| >= len then |s| else len)
      && r[|r| - |s|..] == s
      && forall i :: 0 <= i < |r| - |s| ==> r[i] == fill
  {
  }

  /**
   * A number below 100 padded to two characters is its two decimal digits,
   * and the field reads back as the number.
   */
  lemma TwoDigitField(x: nat)
    requires x < 100
    ensures var f := PadStart(NatToString(x), 2, '0');
      && f == [DigitChar(x / 10), DigitChar(x % 10)]
      && AllDigits(f) && ParseDigits(f) == x
  {
    var d := NatToString(x);
    var f := PadStart(d, 2, '0');
    ParseNatToString(x);
    if x < 10 {
      assert f == ['0'] + d;
      assert f[..1] == ['0'];
      assert f[1..] == d;
      assert ParseDigits(f[..1]) == 0;
    } else {
      assert NatToString(x / 10) == [DigitChar(x / 10)];
      assert f == d;
    }
  }

  /**
   * The text `updateTimerDisplay()` writes for `t` seconds left: the minutes
   * unpadded (`padStart(1, "0")` never adds anything) and the seconds as
   * exactly two digits.
   */
  function TimerDisplay(t: nat): (r: string)
    ensures r == TIMER_PREFIX + NatToString(t / 60) + ":" + [DigitChar(t % 60 / 10), DigitChar(t % 60 % 10)]
  {
    var minutes := PadStart(NatToString(t / 60), 1, '0');
    var seconds := PadStart(NatToString(t % 60), 2, '0');
    TwoDigitField(t % 60);
    TIMER_PREFIX + minutes + ":" + seconds
  }

  /** Reads the minutes and the two-digit seconds back from a timer text. */
  function ParseTimer(text: string): Option<(nat, nat)> {
    var p := |TIMER_PREFIX|;
    if |text| < p + 4 || text[..p] != TIMER_PREFIX then None
    else
      var minutes := text[p..|text| - 3];
      var seconds := text[|text| - 2..];
      if text[|text| - 3] == ':' && AllDigits(minutes) && AllDigits(seconds) then
        Some((ParseDigits(minutes), ParseDigits(seconds)))
      else None
  }

  const FINAL_PREFIX: string := "Times Up! Your highest streak was "
  const FINAL_SUFFIX: string := ". Play Again?"

  /** Reads the score out of a final message. */
  function ParseFinalMessage(m: string): Option<nat> {
    var p, q := |FINAL_PREFIX|, |FINAL_SUFFIX|;
    if |m| < p + q || m[..p] != FINAL_PREFIX || m[|m| - q..] != FINAL_SUFFIX then None
    else
      var digits := m[p..|m| - q];
      if AllDigits(digits) then Some(ParseDigits(digits)) else None
  }

  /** The final message of `endGame()`; it reports exactly the score it is given. */
  function FinalMessage(highScore: nat): (r: string)
    ensures ParseFinalMessage(r) == Some(highScore)
  {
    var d := NatToString(highScore);
    var m := FINAL_PREFIX + d + FINAL_SUFFIX;
    assert m[..|FINAL_PREFIX|] == FINAL_PREFIX;
    assert m[|m| - |FINAL_SUFFIX|..] == FINAL_SUFFIX;
    assert m[|FINAL_PREFIX|..|m| - |FINAL_SUFFIX|] == d;
    ParseNatToString(highScore);
    m
  }
}
