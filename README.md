# Football quiz: the progression engine

This project models the quiz progression engine of the football trivia game
(`script.js`) and proves what it promises. A game runs through five levels of
seven questions each. Questions come from a shuffled copy of the question bank
and are popped from its end. Each question has a five-second countdown and is
resolved once, either by clicking an answer or by timing out. A level is passed
with at least six correct answers. Passing the fifth level wins the game, and
failing any level loses it. If the pool runs dry, the game ends in a win.

The project has three files:

- `quiz.dfy` (module `Quiz`) holds the game state as a value (`Game`). It has
  one function per handler of the page script (`StartGame`, `StartLevel`,
  `SetNextQuestion`, `SelectAnswer`, `Tick`, `HandleTimeUp`, `NextClicked`,
  `EndLevel`, `ResetState`), an event type with `Step`/`Run`, and the
  invariant `Inv` of the reachable states.
- `quiz_properties.dfy` (module `QuizProperties`) proves the properties of
  these functions. It shows that every handler keeps the invariant. It covers
  how a question is served, scored, timed out and advanced, and how a level
  ends. It also plays whole levels and a whole game.
- `quiz_engine.dfy` (module `QuizEngine`) has a class `Engine`. Its fields are
  the script's closure variables and its methods are the handlers, updating
  those fields in place. Every method except `StartTimer` is proved to perform
  the transition of the same name in `Quiz`; `StartTimer` only sets `timerOn`.
  The four entry points (`StartGame`, `SelectAnswer`, `Tick`, `NextClicked`)
  require and keep `Valid()`, and the constructor establishes it. The inner
  helpers (`ResetState`, `StartTimer`, `SetNextQuestion`, `StartLevel`,
  `EndLevel`, `HandleTimeUp`) run on intermediate states and are specified
  only by their transitions. `Valid()` says the invariant holds. It also says
  that the remaining pool plus the questions already served make up the
  bank, so no question is served twice in a game.

Page state that the handlers depend on is explicit in the model:

- `screen` records which of the start, quiz, win and lose screens is visible.
- `resolved` is true while the answer buttons are disabled and Next is
  visible. These two always change together in the script.
- `shown` holds the answers whose buttons are on display.
- `timerOn` says whether a one-second interval is scheduled.
- `warning` says whether the timer path shows its warning colour.

A click on a hidden or disabled button never reaches its handler. The model
therefore treats such a click as an event that changes nothing. The button
handlers `StartGame`, `SelectAnswer` and `NextClicked` return `accepted` to
report whether the event was handled; `Tick` does nothing when no interval is
scheduled.

Three points where a reading of the game's design could differ from the code;
the model follows the code:

- A new game can only be started from the start, win or lose screen. The
  buttons that call `startGame` are not on the quiz screen, so there is no
  restart in the middle of a level.
- The code has no "invalid selection" path. A selection always comes from an
  existing answer button. The model treats an index outside the displayed
  answers like a click on no button: nothing changes.
- The shuffle is `sort` with a random comparator. The model only assumes that
  the result is some permutation of the bank.

## Model

| member | source | states |
|---|---|---|
| `Quiz.Inv` | script.js:32-37 | The invariant of every reachable state: level in 0..5, count in 0..7, 0 <= score <= count (+1 while Next is visible), timer in 0..5 with the warning iff at most 2 seconds, the interval scheduled iff an unresolved question is on the quiz screen, level below 5 and count below 7 on the quiz screen, and the pool a sub-multiset of the bank. Its preservation is stated by `StepKeepsInv`, `RunKeepsInv` and `ReachableScoreBounds`. |
| `Quiz.StartGame` | script.js:54-58 | startGame with the shuffle as a parameter. Its properties are stated by `StartGameDeals` and `StartKeepsInv`. |
| `Quiz.StartLevel` | script.js:60-65 | startLevel. Its properties are stated by `StartLevelResets`. |
| `Quiz.NextClicked` | script.js:68-75 | handleNextButtonClick, ignored unless Next is visible. Its properties are stated by `NextAdvances` and `NextKeepsInv`. |
| `Quiz.EndLevel` | script.js:77-88 | endLevel. Its properties are stated by `EndLevelOutcome` and `EndLevelKeepsInv`. |
| `Quiz.SetNextQuestion` | script.js:90-113 | setNextQuestion. Its properties are stated by `ServeDrawsLast` and `ServeKeepsInv`. |
| `Quiz.SelectAnswer` | script.js:115-130 | selectAnswer, ignored unless the button is displayed and enabled. Its properties are stated by `SelectScoresIffCorrect` and `ResolvedIsFinal`. |
| `Quiz.Tick` | script.js:133-143 | The interval callback, doing nothing while no interval is scheduled. Its properties are stated by `TicksCountDown`, `TicksStopped` and `TimeoutAfterLimit`. |
| `Quiz.HandleTimeUp` | script.js:145-157 | handleTimeUp. Its properties are stated by `TicksCountDown` and `TimeoutAfterLimit`. |
| `Quiz.ResetState` | script.js:160-171 | resetState: interval cancelled, timer refilled, warning cleared, Next hidden, buttons removed. Its properties are stated by `ServeDrawsLast`. |
| `QuizProperties.StartGameDeals` | script.js:54-58 | Starting a game puts the shuffled bank in the pool and sets level, score and count to 0. It then serves the last question of the shuffle with a full timer. On an empty bank it wins at once. On the quiz screen it does nothing. |
| `QuizProperties.StartKeepsInv` | script.js:54-58 | Starting a game with a permutation of the bank keeps the reachable-state invariant. |
| `QuizProperties.StartLevelResets` | script.js:60-65 | A level starts with score and count at 0 and the level index unchanged. It shows the quiz screen exactly when a question was left to serve. |
| `QuizProperties.ServeDrawsLast` | script.js:90-113 | Serving from a non-empty pool removes exactly its last element: the pool shrinks by one and loses that question's multiset count. The served question's answers are shown, and the timer runs from the full limit, unresolved and without warning. An empty pool wins with no question, no buttons and no timer. |
| `QuizProperties.ServeKeepsInv` | script.js:90-113 | Serving from a state about to show the quiz keeps the invariant. |
| `QuizProperties.SelectScoresIffCorrect` | script.js:115-130 | An accepted selection raises the score by exactly 1 iff the chosen answer is correct, and otherwise leaves it unchanged. It stops the timer and resolves the question and changes nothing else (level, screen, answers shown, time left and warning are kept). A selection that is not accepted changes nothing. |
| `QuizProperties.ResolvedIsFinal` | script.js:115-130 | After a selection, a second selection and a timer tick both change nothing, so a question is scored at most once. |
| `QuizProperties.TicksCountDown` | script.js:133-157 | A running timer with t seconds left loses one second per tick. The warning holds iff at most 2 seconds are left. The t-th tick resolves the question, stops the timer and keeps the score. All later ticks change nothing, so expiry happens once. |
| `QuizProperties.TicksStopped` | script.js:133-143 | Ticks do nothing while no interval is scheduled. |
| `QuizProperties.TimeoutAfterLimit` | script.js:133-157 | A freshly served question is still open after 4 ticks. It times out on the 5th tick with its score unchanged, and a later selection is ignored. |
| `QuizProperties.NextAdvances` | script.js:68-75 | Next does nothing unless it is visible. Below the quota of 7 it adds 1 to the count, keeps score and level, and serves the pool's last question with a full, running, unresolved timer, or wins on an empty pool. At the quota it ends the level: the level goes up iff the score is at least 6, the game is lost at the same level iff it is below 6, a pass of the fifth level wins, and an earlier pass starts the next level with score and count at 0. |
| `QuizProperties.NextKeepsInv` | script.js:68-75 | Advancing keeps the invariant. |
| `QuizProperties.EndLevelOutcome` | script.js:77-88 | The level index goes up by one iff the score is at least 6. At the fifth level that wins; before it, the next level starts. With a score below 6 the game is lost and the level index is unchanged. |
| `QuizProperties.EndLevelKeepsInv` | script.js:77-88 | Ending a level after its seventh question keeps the invariant. |
| `QuizProperties.StepKeepsInv` | script.js:40-43 | Each event keeps the invariant, provided every start deals a permutation of the bank. |
| `QuizProperties.RunKeepsInv` | script.js:40-43 | The invariant holds after any sequence of events whose starts deal permutations of the bank. |
| `QuizProperties.ReachableScoreBounds` | script.js:68-75 | In every reachable state, 0 <= score <= count <= 7, and score may be count + 1 only while Next is visible. On the quiz screen the count is below 7 and the level below 5. |
| `QuizProperties.RoundInLevel` | script.js:68-75 | Before a level's last question, answering (correctly or by timeout) and clicking Next adds 1 or 0 to the score and 1 to the count. It then serves the pool's last question. |
| `QuizProperties.RoundsInLevel` | script.js:68-75 | A run of rounds within a level adds the number of correct answers to the score and the number of rounds to the count. It draws one question per round from the end of the pool. |
| `QuizProperties.LastRound` | script.js:77-88 | The last question of a level ends the level on the score that includes that answer. |
| `QuizProperties.LevelPassed` | script.js:77-84 | Playing out a level with at least 6 correct answers, before the last level, serves the first question of the next level with score and count at 0. |
| `QuizProperties.LastLevelPassed` | script.js:77-86 | Passing the fifth level wins the game with the level index at 5. |
| `QuizProperties.LevelFailed` | script.js:86-88 | Playing out a level with fewer than 6 correct answers, for example 5 of 7, loses the game at the same level. |
| `QuizProperties.PerfectFromLevel` | script.js:54-88 | From the first question of a level, answering everything correctly wins after the fifth level, drawing one question for each remaining question of the game. |
| `QuizProperties.PerfectGameWins` | script.js:54-88 | A game on a bank of at least 35 answerable questions, answered all correctly, passes all 5 levels and wins. It draws exactly 35 questions. |
| `QuizEngine.Engine.constructor` | script.js:32-37 | The page starts on the start screen with an empty pool, level, score and count at 0, and a full, stopped timer. |
| `QuizEngine.Engine.ResetState` | script.js:160-171 | Cancels the interval, refills the timer, clears the warning, hides Next and removes the answer buttons. |
| `QuizEngine.Engine.StartTimer` | script.js:133-143 | Schedules the interval. |
| `QuizEngine.Engine.SetNextQuestion` | script.js:90-113 | Pops the pool's last question into the served list in place, or wins on an empty pool. The pool plus the served questions are unchanged as a multiset. |
| `QuizEngine.Engine.StartLevel` | script.js:60-65 | Resets score and count, shows the quiz and serves a question. |
| `QuizEngine.Engine.StartGame` | script.js:54-58 | From the start, win or lose screen: deals the shuffled bank, resets the level, and starts level 0 with at most one question served. Keeps `Valid()`. |
| `QuizEngine.Engine.EndLevel` | script.js:77-88 | Moves up a level, wins or loses, as `Quiz.EndLevel` says. |
| `QuizEngine.Engine.NextClicked` | script.js:68-75 | When Next is visible, increments the count and serves or ends the level. Keeps `Valid()`. |
| `QuizEngine.Engine.SelectAnswer` | script.js:115-130 | When the button is enabled, stops the timer, adds 1 to the score iff the answer is correct and resolves the question. Keeps `Valid()`. |
| `QuizEngine.Engine.HandleTimeUp` | script.js:145-157 | Cancels the interval and resolves the question without scoring. |
| `QuizEngine.Engine.Tick` | script.js:133-143 | While the interval is scheduled, takes one second off and sets the warning iff at most 2 seconds are left. Expires the question at 0. Never changes the score. Keeps `Valid()`. |

## Left out

- Presentation: `showScreen`, element lookups, button creation and `dataset` handling, `setStatusClass`, class toggles and `innerText`. Only the visible screen, whether the answers are disabled and Next shown, and the answers on display are kept.
- `updateProgress` and `setCircleDasharray`: floating-point display arithmetic with `toFixed` formatting. The timer label text is left out too.
- The level names and the other Arabic display strings. The model proves that the level index is below 5 whenever the quiz screen is shown, which is the range of the names array.
- `Math.random()` and `sort`: the shuffle is a parameter of `StartGame`, required to be a permutation of the bank. The bias of the comparator-based shuffle is not modelled.
- `setInterval`/`clearInterval`: scheduling is the `timerOn` flag, and each elapsed second is an explicit `Tick` call. Real time is not modelled.
- The contents of the question bank (88 entries, although its heading comment says 100): the bank is an arbitrary sequence of questions. No "exactly one correct answer" shape is assumed. The scenario lemmas only need each question to have at least one correct answer.
- The `DOMContentLoaded` wrapper and event registration: the entry points are the methods `StartGame`, `SelectAnswer`, `Tick` and `NextClicked`.
