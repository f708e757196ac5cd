/** Concrete runs of the session that show what the handlers do and do not enforce. */
module Scenarios {
  import opened Session
  import opened SessionProps

  /** Prepending an event that can happen to a run that can happen. */
  lemma RunCons(s: State, e: Event, rest: seq<Event>)
    requires Enabled(s, e) && Executes(Step(s, e), rest)
    ensures Executes(s, [e] + rest) && Run(s, [e] + rest) == Run(Step(s, e), rest)
  {
  }

  /** One round: a question arrives, is answered once, its verdict arrives and the delay elapses. */
  function Round(isCorrect: bool): seq<Event> {
    [QuestionArrived, AnswerClicked, VerdictArrived(isCorrect), DelayElapsed]
  }

  /** A round in an active session with one question on its way. */
  lemma RoundEffect(s: State, isCorrect: bool)
    requires Inv(s) && s.gameActive && s.questionsInFlight == 1
    requires s.answersInFlight == 0 && s.pendingCallbacks == 0
    ensures Executes(s, Round(isCorrect))
    ensures var r := Run(s, Round(isCorrect));
      && Inv(r) && r.gameActive && r.questionsInFlight == 1
      && r.answersInFlight == 0 && r.pendingCallbacks == 0
      && r.streak == (if isCorrect then s.streak + 1 else 0)
      && r.highScore == (if isCorrect && s.streak + 1 > s.highScore then s.streak + 1 else s.highScore)
      && r.timeRemaining == s.timeRemaining
  {
    var s1 := DisplayQuestion(s);
    var s2 := SubmitAnswer(s1);
    var s3 := ApplyVerdict(s2, isCorrect);
    var s4 := NextQuestionCallback(s3);
    RunCons(s3, DelayElapsed, []);
    RunCons(s2, VerdictArrived(isCorrect), [DelayElapsed]);
    RunCons(s1, AnswerClicked, [VerdictArrived(isCorrect), DelayElapsed]);
    RunCons(s, QuestionArrived, [AnswerClicked, VerdictArrived(isCorrect), DelayElapsed]);
    StepInv(s, QuestionArrived);
    StepInv(s1, AnswerClicked);
    StepInv(s2, VerdictArrived(isCorrect));
    StepInv(s3, DelayElapsed);
  }

  /**
   * Three correct answers and then a wrong one, with the clock standing still:
   * streak 3 and high score 3, then streak 0 and high score still 3.
   */
  lemma ThreeCorrectThenWrong()
    ensures var s0 := PressStart(Initial());
      var evs3 := Round(true) + Round(true) + Round(true);
      && Executes(s0, evs3) && Run(s0, evs3).streak == 3 && Run(s0, evs3).highScore == 3
      && Executes(s0, evs3 + Round(false))
      && Run(s0, evs3 + Round(false)).streak == 0 && Run(s0, evs3 + Round(false)).highScore == 3
  {
    var s0 := PressStart(Initial());
    RoundEffect(s0, true);
    var s1 := Run(s0, Round(true));
    RoundEffect(s1, true);
    var s2 := Run(s1, Round(true));
    RoundEffect(s2, true);
    var s3 := Run(s2, Round(true));
    RoundEffect(s3, false);
    RunAppend(s0, Round(true), Round(true));
    RunAppend(s0, Round(true) + Round(true), Round(true));
    RunAppend(s0, Round(true) + Round(true) + Round(true), Round(false));
  }

  /** The events of one question answered twice before its first verdict. */
  function AnsweredTwice(): seq<Event> {
    [QuestionArrived, AnswerClicked, AnswerClicked, VerdictArrived(true), VerdictArrived(true),
     DelayElapsed, DelayElapsed]
  }

  /**
   * In an active session with one question on its way, that question can be
   * answered twice: both correct verdicts count and both delayed callbacks
   * request a question.
   */
  lemma AnsweredTwiceEffect(s: State)
    requires Inv(s) && s.gameActive && s.questionsInFlight == 1
    requires s.answersInFlight == 0 && s.pendingCallbacks == 0
    ensures Executes(s, AnsweredTwice())
    ensures var r := Run(s, AnsweredTwice());
      && r.streak == s.streak + 2 && r.loads == s.loads + 2 && r.questionsInFlight == 2
      && r.highScore == (if s.streak + 2 > s.highScore then s.streak + 2 else s.highScore)
  {
    var s1 := DisplayQuestion(s);
    var s2 := SubmitAnswer(s1);
    var s3 := SubmitAnswer(s2);
    var s4 := ApplyVerdict(s3, true);
    var s5 := ApplyVerdict(s4, true);
    var s6 := NextQuestionCallback(s5);
    var evs := AnsweredTwice();
    RunCons(s6, DelayElapsed, []);
    RunCons(s5, DelayElapsed, evs[6..]);
    RunCons(s4, VerdictArrived(true), evs[5..]);
    RunCons(s3, VerdictArrived(true), evs[4..]);
    RunCons(s2, AnswerClicked, evs[3..]);
    RunCons(s1, AnswerClicked, evs[2..]);
    RunCons(s, QuestionArrived, evs[1..]);
  }

  /**
   * Buttons are disabled only when a verdict arrives, so one question can be
   * answered twice: both verdicts count towards the streak, and both delayed
   * callbacks request a question, leaving two requests on their way.
   */
  lemma DoubleSubmission()
    ensures var evs := [StartClicked] + AnsweredTwice();
      && Executes(Initial(), evs)
      && Run(Initial(), evs).streak == 2 && Run(Initial(), evs).highScore == 2
      && Run(Initial(), evs).loads == 3 && Run(Initial(), evs).questionsInFlight == 2
  {
    var s1 := PressStart(Initial());
    StepInv(Initial(), StartClicked);
    AnsweredTwiceEffect(s1);
    RunCons(Initial(), StartClicked, AnsweredTwice());
  }
}
