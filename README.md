# Triviatron game session, modelled in Dafny

Triviatron is a browser trivia client. Its logic lives in two scripts:

- `public/script.js` keeps a timed game session in module-level variables:
  `streak`, `highScore`, `timeRemaining`, `gameActive` and the interval id
  `timerId`. Event handlers change them: the start and Play Again buttons
  (`startGame`), the one-second interval of `startTimer`, the arrival of a
  question (`displayQuestion`), a click on an answer, the server's verdict in
  `submitAnswer` (with `updateHighScore`), the two-second delayed callback
  that loads the next question, and `endGame`. `updateTimerDisplay` renders
  the seconds left as `Time Left: m:ss`.
- `public/utils.js` holds `capitalize` and the fetch gate `checkStatus`.

The model has these modules:

- `Session` (session.dfy): the session as a value `State`. Each handler is a
  function on it: `StartGame`, `PressStart`, `Tick`, `DisplayQuestion`,
  `SubmitAnswer`, `ApplyVerdict`, `UpdateHighScore`, `NextQuestionCallback`,
  `EndGame`. `Event` and `Enabled` say which handler can run when. `Step` and
  `Run` replay traces of events. `Inv` is the invariant of reachable states.
  The module also has the timer text `TimerDisplay` and the final message.
- `Script` (script.dfy): the class `Game`. Its fields are the session
  variables. Its methods update them in place. Each method is proved to leave
  the object in the state that the matching `Session` function computes, so
  every trace property below holds of the object.
- `SessionProps` and `Scenarios`: the properties, proved over all traces
  and over concrete runs.
- `TimerText`: reading the timer text back.
- `Utils`: `capitalize` and `checkStatus`.
- `Decimal`: JavaScript's `String(n)` on non-negative integers, with the
  parser that reads the text back.
- `Wrappers`: `Option` and `Result`.

Scheduling is modelled as explicit events. Timer ticks, question and verdict
arrivals, clicks and the delayed callback are each one event. An event can
happen only when it is possible:

- a tick needs a live interval;
- a verdict needs an answer in flight;
- the callback needs a callback that was scheduled;
- a click needs an enabled button in the shown question container;
- a start needs a start or Play Again button on the page.

Three behaviours of the code are worth knowing, and the model keeps them:

- `disableButtons` runs only when the verdict arrives (public/script.js:183,
  :191), although its own comment at public/script.js:242 says it disables
  the buttons "after a selection". Between the click and the verdict the
  buttons stay enabled, so one question can be answered twice: both verdicts
  count and two question requests are then in flight
  (`Scenarios.DoubleSubmission`).
- The verdict handler (public/script.js:173-202) never checks `gameActive`.
  A verdict that arrives after the end still changes streak and high score.
  It also empties the feedback area (public/script.js:175), which removes the
  final message and its Play Again button, and after that nothing can restart
  the session (`SessionProps.LateVerdictStillScores`,
  `SessionProps.StuckWithoutReplay`).
- The delayed callback (public/script.js:204-209) tests only the flag, not
  the session it was scheduled in. If Play Again is pressed within the two
  seconds, the callback of the earlier session loads a second question
  (`SessionProps.StaleCallbackAfterReplay`).

## Model

| member | source | states |
|---|---|---|
| `Decimal.NatToString` | public/script.js:93-94 | `String(n)` of a non-negative integer in the range the game displays: at least one character, all decimal digits, leading "0" exactly for 0, one character exactly below 10 |
| `Decimal.ParseNatToString` | public/script.js:93-94 | reading back the decimal text of `n` gives `n` |
| `Decimal.NatToStringInjective` | public/script.js:93-94 | different numbers have different texts |
| `Utils.UpperChar` | public/utils.js:44 | `toUpperCase` of one character: a letter a-z moves 32 code points down to A-Z, any other character stays; the result is never a lower-case ASCII letter |
| `Utils.ToUpperCase` | public/utils.js:44 | same length, and each character is `UpperChar` of the character at the same position |
| `Utils.CharAt` | public/utils.js:44 | `charAt(i)`: the one-character string at `i`, or "" when `i` is past the end |
| `Utils.Slice` | public/utils.js:44 | `slice(start)`: the suffix from `start`, or "" when `start` is past the end |
| `Utils.Capitalize` | public/utils.js:43-45 | same length as the word; "" for ""; the first character upper-cased and never a lower-case ASCII letter; every later character unchanged (the result's tail is `word.slice(1)`) |
| `Utils.CapitalizeIdempotent` | public/utils.js:44 | capitalizing twice equals capitalizing once |
| `Utils.CapitalizeFixedPoint` | public/utils.js:38-45 | the word comes back unchanged exactly when it is empty or does not start with a lower-case letter a-z |
| `Utils.StatusMessage` | public/utils.js:55 | the error message "<status>: <statusText>" reads back as exactly the status and the status text it was built from |
| `Utils.CheckStatus` | public/utils.js:53-58 | succeeds exactly when the status is in 200-299 and then returns the same response; otherwise fails with the message `StatusMessage(status, statusText)`, which reads back as the status and the status text |
| `Session.Initial` | public/script.js:11-24 | the page as loaded (streak 0, high score 0, 60 seconds, inactive, start button shown) satisfies the invariant and can be started |
| `Session.StartGame` | public/script.js:61-72 | active with a live interval, streak 0, high score 0, 60 seconds on the clock, one more question requested; buttons, feedback and the other counters unchanged |
| `Session.PressStart` | public/script.js:51-55 | hides the start view, or clears the feedback when Play Again was clicked (the handler at public/script.js:233-236), then starts: active, streak and high score 0, 60 seconds, one more question requested; buttons, answers in flight and pending callbacks unchanged |
| `Session.Tick` | public/script.js:78-86 | one second less; with time left nothing else changes; the session stays active and the interval live exactly while time is left; at 0 the final message with the high score is shown and the buttons are off; nothing but the clock, the flag, the interval, the buttons and the feedback ever changes |
| `Session.EndGame` | public/script.js:217-239 | inactive, interval cleared, no answer buttons, final message with the current high score; nothing else changes |
| `Session.DisplayQuestion` | public/script.js:132-155 | one request fewer in flight and the answer buttons enabled; nothing else changes |
| `Session.SubmitAnswer` | public/script.js:163-170 | one more answer in flight; nothing else changes, the buttons included |
| `Session.ApplyVerdict` | public/script.js:173-209 | streak plus one or 0 by the verdict, high score the maximum and never below the streak, the verdict shown, buttons disabled, one answer fewer in flight, one callback scheduled; flag, interval, clock, question requests and start view untouched, whether or not the game is active |
| `Session.NextQuestionCallback` | public/script.js:204-209 | one callback fewer; exactly when active the feedback is cleared and one more question requested; every other field unchanged |
| `Session.UpdateHighScore` | public/script.js:108-113 | the high score becomes the larger of itself and the streak; nothing else changes |
| `Session.StepInv` | public/script.js:61-239 | every handler keeps the invariant: 0 <= timeRemaining <= 60, streak <= highScore, interval live exactly while active, active only with time left, the final message shows the current high score |
| `SessionProps.RunInv` | public/script.js:61-239 | a run of events from a state with the invariant ends in one with the invariant |
| `SessionProps.ReachableInv` | public/script.js:11-24 | every state reachable from the loaded page satisfies the invariant |
| `SessionProps.StartResetsSession` | public/script.js:61-72 | start and Play Again activate the session with streak 0, high score 0, 60 seconds and a live interval, and request one question; no interval was live before |
| `SessionProps.Countdown` | public/script.js:77-87 | each tick takes exactly one second off and no other event changes the clock; the session stays active until as many ticks as seconds left; no tick while inactive |
| `SessionProps.GameLastsSixtyTicks` | public/script.js:77-87 | after a start the clock reads 60 minus the ticks, stays in 0..60, and the game is active exactly until the 60th tick, which clears the interval |
| `SessionProps.TicksRunOut` | public/script.js:77-87 | from an active session with n seconds left, n ticks can happen and end it at 0 with the final message |
| `SessionProps.SixtyTicksEndTheGame` | public/script.js:9 | sixty ticks after a start can happen and end the game |
| `SessionProps.ExtendRuns` | public/script.js:179-202 | one more verdict moves streak and high score the way the handler does and keeps them equal to the trailing and the longest run of correct verdicts |
| `SessionProps.StepScore` | public/script.js:173-209 | any single event keeps streak and high score in step with the verdicts seen |
| `SessionProps.ScoreFollowsVerdicts` | public/script.js:173-209 | between two starts, streak and high score are determined by the verdicts alone |
| `SessionProps.HighScoreIsLongestRun` | public/script.js:108-113 | after a start the high score is the longest run of correct verdicts since that start, and the streak is the run since the last wrong one |
| `SessionProps.HighScoreMonotone` | public/script.js:108-113 | between two starts the high score never decreases |
| `SessionProps.NoQuestionWhileInactive` | public/script.js:217-219 | after the end and until the next start no question is requested and the game stays inactive |
| `SessionProps.LateVerdictStillScores` | public/script.js:173-202 | a verdict arriving after the end still changes streak and high score, and it removes the Play Again button |
| `SessionProps.StuckWithoutReplay` | public/script.js:173-239 | once the game is over and no start or Play Again button is left, no event can restart it or request a question |
| `SessionProps.StaleCallbackAfterReplay` | public/script.js:204-209 | a callback pending across Play Again loads a second question beside the one `startGame` requested |
| `SessionProps.ButtonsFollowQuestions` | public/script.js:144-155 | a verdict disables the answer buttons, a displayed question enables them, and nothing else enables them |
| `Session.PadStartShape` | public/script.js:93-94 | `padStart(len, fill)` keeps the string as a suffix, fills only in front, and reaches the length asked for unless the string is already longer |
| `Session.PadStart` | public/script.js:93-94 | `padStart(len, fill)` is as long as the string or `len`, whichever is larger |
| `Session.TwoDigitField` | public/script.js:94 | a number below 100 padded to two characters is its two decimal digits, and the field reads back as the number |
| `Session.TimerDisplay` | public/script.js:92-96 | the timer text is "Time Left: ", the minutes in decimal, ":" and the seconds as exactly two decimal digits |
| `Session.FinalMessage` | public/script.js:227 | the final message reads back as exactly the high score it was given |
| `TimerText.PadStartOneIsIdentity` | public/script.js:93 | `padStart(1, "0")` leaves the minutes text unchanged |
| `TimerText.TimerDisplayReadsBack` | public/script.js:92-96 | the timer text parses into minutes and seconds with seconds < 60 and minutes * 60 + seconds = t |
| `TimerText.TimerDisplaySixty` | public/script.js:92-96 | 60 seconds read "Time Left: 1:00" |
| `TimerText.TimerDisplayFive` | public/script.js:92-96 | 5 seconds read "Time Left: 0:05" |
| `Scenarios.RoundEffect` | public/script.js:132-209 | one answered round in an active game adds one to the streak or resets it, updates the high score and leaves one question in flight |
| `Scenarios.ThreeCorrectThenWrong` | public/script.js:179-202 | three correct answers give streak 3 and high score 3; a wrong one then gives streak 0 and high score 3 |
| `Scenarios.AnsweredTwiceEffect` | public/script.js:144-209 | from any active session with one question on its way, that question can be answered twice before its verdict: the streak grows by 2, the high score becomes the maximum, and two more questions are requested |
| `Scenarios.DoubleSubmission` | public/script.js:144-209 | one question answered twice before its verdict: both verdicts count (streak 2) and two questions are then requested |
| `Script.Game.constructor` | public/script.js:11-24 | the object starts as the loaded page |
| `Script.Game.UpdateTimerDisplay` | public/script.js:92-96 | returns the timer text `Session.TimerDisplay` gives for the seconds left |
| `Script.Game.StartGame` | public/script.js:61-72 | resets the fields as `Session.StartGame` does and returns the 60-second timer text |
| `Script.Game.LoadNextQuestion` | public/script.js:118-126 | one more question request, nothing else changes |
| `Script.Game.ClickStart` | public/script.js:51-55 | hides the start view and starts; keeps the invariant |
| `Script.Game.ClickPlayAgain` | public/script.js:233-236 | clears the feedback and starts again; keeps the invariant |
| `Script.Game.EndGame` | public/script.js:217-239 | deactivates, clears the interval and the buttons, shows the final message with the current high score and returns that message's text |
| `Script.Game.Tick` | public/script.js:78-86 | one second less; the returned text shows it; the game ends exactly when the clock reaches 0, and exactly then the final message is returned too; keeps the invariant |
| `Script.Game.DisplayQuestion` | public/script.js:132-155 | one request fewer in flight, buttons enabled |
| `Script.Game.SubmitAnswer` | public/script.js:163-170 | one more answer in flight; nothing is disabled at click time |
| `Script.Game.UpdateHighScore` | public/script.js:108-113 | the high score becomes at least the streak and never decreases |
| `Script.Game.ApplyVerdict` | public/script.js:173-209 | streak plus one or 0, high score the maximum, buttons disabled, callback scheduled, whether or not the game is active |
| `Script.Game.DelayedNextQuestionFires` | public/script.js:204-209 | returns whether the game was active and requests a question exactly then |

## Left out

- All network traffic (`init`, `loadNextQuestion`, the request half of `submitAnswer`, JSON bodies) is left out. It is I/O: a request is a counter, and its response is a later event.
- A failed request and `handleError` are left out: a failed request is modelled as a response that never arrives. This misses one effect. `handleError` overwrites the feedback area (public/utils.js:69), and that removes the final message and its Play Again button (public/script.js:238) when the game is over. A request that fails after the end therefore strands the player, just like a late verdict (`SessionProps.StuckWithoutReplay`). In the model `CanStart` stays true in that case.
- Real time (`setInterval`, `setTimeout`) is left out. Each tick and each delayed callback is an explicit event.
- DOM rendering is left out: element building, images, the correct answer's text, streak and high score labels, and the `hidden` class toggles. The answer buttons are one abstract "enabled" flag, set by the `disableButtons` and `enableButtons` loops. `disableButtons` only sets a style that makes the buttons ignore the mouse and touch (public/script.js:247), so a button that has keyboard focus still fires a click on Enter or Space. The flag, and the `buttonsEnabled` precondition of `Script.Game.SubmitAnswer`, therefore cover mouse and touch clicks only. The question container counts as shown exactly while the game is active.
- Audio playback is left out.
- `qs`, `qsa`, `gen` and `id` are left out. They are thin wrappers over `document`.
- Utils.Capitalize: `toUpperCase` is modelled only for ASCII letters a-z. Any other character is left unchanged. JavaScript also upper-cases other letters ('é' to 'É'), and some become two characters ('ß' to "SS").
- Utils.CheckStatus: a response is its status, status text and body. `ok` is derived from the status as the Fetch Standard defines it, not read as a separate field.
- Decimal.NatToString: covers non-negative integers of unbounded size. JavaScript numbers are doubles: `String(n)` switches to exponent form from 10^21 (`String(1e21)` is "1e+21"), and `streak++` (public/script.js:184) stops being exact past 2^53. Neither limit is modelled. No counter the game shows gets near them: the clock stays in 0..60 (`Session.StepInv`), and the streak grows by at most one per answered question. Negative numbers are not covered; the session never displays one (`Session.StepInv` keeps `timeRemaining` at 0 or more).
- A second `startGame` while the interval is live would leak an interval. The model has one "interval live" flag instead. `SessionProps.StartResetsSession` proves this case cannot arise: start is only possible when no interval is live.
