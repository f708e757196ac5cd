/**
 * The session variables of public/script.js as the fields of one object,
 * and its handlers as methods that update them in place. Each method is
 * proved to leave the object in the state the corresponding function of
 * `Session` computes, so every property proved there holds of the object.
 */
module Script {
  import opened Wrappers
  import opened Decimal
  import opened Session
  import opened TimerText

  class Game {
    var streak: nat
    var highScore: nat
    var timeRemaining: int
    var gameActive: bool
    var timerRunning: bool
    var buttonsEnabled: bool
    var startViewShown: bool
    var feedback: Feedback
    var loads: nat
    var questionsInFlight: nat
    var answersInFlight: nat
    var pendingCallbacks: nat

    /** The object's fields as a `Session.State` value. */
    function Snapshot(): Session.State
      reads this
    {
      Session.State(streak, highScore, timeRemaining, gameActive, timerRunning, buttonsEnabled,
                    startViewShown, feedback, loads, questionsInFlight, answersInFlight, pendingCallbacks)
    }

    ghost predicate Valid()
      reads this
    {
      Inv(Snapshot())
    }

    /** The page as loaded: the variables' initial values, the start view shown. */
    constructor ()
      ensures Valid() && Snapshot() == Initial()
    {
      streak, highScore, timeRemaining := 0, 0, TOTAL_TIME;
      gameActive, timerRunning, buttonsEnabled, startViewShown := false, false, false, true;
      feedback := Blank;
      loads, questionsInFlight, answersInFlight, pendingCallbacks := 0, 0, 0, 0;
    }

    /** `updateTimerDisplay()`: the text written to the timer, `m:ss`. */
    method UpdateTimerDisplay() returns (text: string)
      requires timeRemaining >= 0
      ensures text == TimerDisplay(timeRemaining)
    {
      var minutes := PadStart(NatToString(timeRemaining / 60), 1, '0');
      var seconds := PadStart(NatToString(timeRemaining % 60), 2, '0');
      text := TIMER_PREFIX + minutes + ":" + seconds;
    }

    /** `startGame()`; returns the timer text it displays. */
    method StartGame() returns (timerText: string)
      modifies this
      ensures timeRemaining == TOTAL_TIME && timerText == TimerDisplay(timeRemaining)
      ensures Snapshot() == Session.StartGame(old(Snapshot()))
    {
      ghost var before := Snapshot();
      gameActive := true;
      highScore := 0;
      streak := 0;
      timeRemaining := TOTAL_TIME;
      timerText := UpdateTimerDisplay();
      timerRunning := true;
      LoadNextQuestion();
      assert Snapshot() == Session.StartGame(before);
    }

    /** `loadNextQuestion()`: one more request on its way. */
    method LoadNextQuestion()
      modifies this`loads, this`questionsInFlight
      ensures loads == old(loads) + 1 && questionsInFlight == old(questionsInFlight) + 1
    {
      loads := loads + 1;
      questionsInFlight := questionsInFlight + 1;
    }

    /** The start button's click handler. */
    method ClickStart() returns (timerText: string)
      requires Valid() && startViewShown
      modifies this
      ensures Valid() && Snapshot() == PressStart(old(Snapshot()))
      ensures timerText == TimerDisplay(TOTAL_TIME)
    {
      startViewShown := false;
      timerText := StartGame();
    }

    /** The Play Again button's click handler. */
    method ClickPlayAgain() returns (timerText: string)
      requires Valid() && feedback.TimesUp?
      modifies this
      ensures Valid() && Snapshot() == PressStart(old(Snapshot()))
      ensures timerText == TimerDisplay(TOTAL_TIME)
    {
      feedback := Blank;
      timerText := StartGame();
    }

    /** `endGame()`; returns the final message it displays. */
    method EndGame() returns (message: string)
      modifies this
      ensures Snapshot() == Session.EndGame(old(Snapshot()))
      ensures message == FinalMessage(highScore)
    {
      gameActive := false;
      timerRunning := false;
      buttonsEnabled := false;
      message := FinalMessage(highScore);
      feedback := TimesUp(highScore);
    }

    /**
     * One run of the interval set up by `startTimer()`; returns the timer text
     * it displays and, when the time has run out, the final message.
     */
    method Tick() returns (timerText: string, final: Option<string>)
      requires Valid() && timerRunning
      modifies this
      ensures Valid() && Snapshot() == Session.Tick(old(Snapshot()))
      ensures timeRemaining == old(timeRemaining) - 1 && timerText == TimerDisplay(timeRemaining)
      ensures !gameActive <==> timeRemaining == 0
      ensures final.Some? <==> timeRemaining == 0
      ensures final.Some? ==> final.value == FinalMessage(highScore)
    {
      timeRemaining := timeRemaining - 1;
      timerText := UpdateTimerDisplay();
      final := None;
      if timeRemaining <= 0 {
        timerRunning := false;
        var message := EndGame();
        final := Some(message);
      }
    }

    /** A requested question arrives and is displayed with enabled buttons. */
    method DisplayQuestion()
      requires Valid() && questionsInFlight > 0
      modifies this
      ensures Valid() && Snapshot() == Session.DisplayQuestion(old(Snapshot()))
    {
      questionsInFlight := questionsInFlight - 1;
      buttonsEnabled := true;
    }

    /** A click on an enabled answer button posts the answer. */
    method SubmitAnswer()
      requires Valid() && gameActive && buttonsEnabled
      modifies this
      ensures Valid() && Snapshot() == Session.SubmitAnswer(old(Snapshot()))
    {
      answersInFlight := answersInFlight + 1;
    }

    /** `updateHighScore()`. */
    method UpdateHighScore()
      modifies this
      ensures Snapshot() == Session.UpdateHighScore(old(Snapshot()))
      ensures highScore >= streak && highScore >= old(highScore)
    {
      if streak > highScore {
        highScore := streak;
      }
    }

    /** The verdict handler of `submitAnswer`; it does not look at `gameActive`. */
    method ApplyVerdict(isCorrect: bool)
      requires Valid() && answersInFlight > 0
      modifies this
      ensures Valid() && Snapshot() == Session.ApplyVerdict(old(Snapshot()), isCorrect)
      ensures streak == (if isCorrect then old(streak) + 1 else 0)
      ensures highScore == (if streak > old(highScore) then streak else old(highScore))
    {
      answersInFlight := answersInFlight - 1;
      feedback := Verdict(isCorrect);
      buttonsEnabled := false;
      if isCorrect {
        streak := streak + 1;
      } else {
        streak := 0;
      }
      UpdateHighScore();
      pendingCallbacks := pendingCallbacks + 1;
    }

    /** The two-second callback; tells whether it requested a question. */
    method DelayedNextQuestionFires() returns (loaded: bool)
      requires Valid() && pendingCallbacks > 0
      modifies this
      ensures Valid() && Snapshot() == NextQuestionCallback(old(Snapshot()))
      ensures loaded == old(gameActive)
      ensures loads == old(loads) + (if loaded then 1 else 0)
    {
      pendingCallbacks := pendingCallbacks - 1;
      loaded := gameActive;
      if gameActive {
        feedback := Blank;
        LoadNextQuestion();
      }
    }
  }
}
