/// The progression engine of the football quiz (script.js), as pure state
/// transitions: one function per event handler of the page script. The
/// mutable engine in quiz_engine.dfy is proved against these functions, and
/// quiz_properties.dfy proves what the game promises about them.
module Quiz {
  // The game's fixed configuration (script.js lines 24-27).
  const QuestionsPerLevel: int := 7
  const WinScoreThreshold: int := 6
  const TotalLevels: int := 5
  const TimeLimit: int := 5
  /// The timer path turns to its warning colour at this many seconds left.
  const WarningAt: int := 2

  datatype Answer = Answer(text: string, correct: bool)
  datatype Question = Question(text: string, answers: seq<Answer>)

  /// Which of the four screens is visible.
  datatype Screen = StartScreen | QuizScreen | WinScreen | LoseScreen

  /// The closure-level variables of the page script, plus the two pieces of
  /// page state the handlers rely on: the answer buttons on display
  /// (`shown`) and `resolved`, which is true exactly while the answer buttons
  /// are disabled and the Next button is visible (the two always change
  /// together).
  datatype Game = Game(
    pool: seq<Question>,  // availableQuestions: the draw pool, popped from the end
    level: int,           // currentLevel
    score: int,           // levelScore
    count: int,           // questionCountInLevel
    timeLeft: int,        // seconds left on the current question
    timerOn: bool,        // a one-second interval is scheduled
    warning: bool,        // the timer path carries its warning colour
    screen: Screen,
    shown: seq<Answer>,
    resolved: bool
  )

  /// The state when the page has loaded and nothing was clicked yet.
  const Initial: Game := Game([], 0, 0, 0, TimeLimit, false, false, StartScreen, [], false)

  /// The last element of the pool is the next question served.
  function Last(pool: seq<Question>): Question
    requires |pool| > 0
  {
    pool[|pool| - 1]
  }

  /// resetState: cancels the interval, refills the timer, clears the warning
  /// colour, hides Next and removes the answer buttons.
  function ResetState(g: Game): Game
  {
    g.(timerOn := false, timeLeft := TimeLimit, warning := false, resolved := false, shown := [])
  }

  /// setNextQuestion: an empty pool ends the game in a win; otherwise the
  /// last question is popped, its answers are shown in authored order and
  /// the interval is started.
  function SetNextQuestion(g: Game): Game
  {
    var r := ResetState(g);
    if |r.pool| == 0 then
      r.(screen := WinScreen)
    else
      r.(pool := r.pool[..|r.pool| - 1], shown := Last(r.pool).answers, timerOn := true)
  }

  /// startLevel: zero the level's counters, show the quiz, serve a question.
  function StartLevel(g: Game): Game
  {
    SetNextQuestion(g.(score := 0, count := 0, screen := QuizScreen))
  }

  /// The start, try-again and play-again buttons sit on the start, lose and
  /// win screens, so a new game can be started from any screen but the quiz.
  predicate StartEnabled(g: Game)
  {
    g.screen != QuizScreen
  }

  /// startGame, with the shuffled copy of the bank supplied as `perm`.
  function StartGame(g: Game, perm: seq<Question>): Game
  {
    if !StartEnabled(g) then g
    else StartLevel(g.(level := 0, pool := perm))
  }

  /// endLevel: a pass moves to the next level or wins after the last one; a
  /// fail loses and keeps the level index.
  function EndLevel(g: Game): Game
  {
    if g.score >= WinScoreThreshold then
      var up := g.(level := g.level + 1);
      if up.level < TotalLevels then StartLevel(up) else up.(screen := WinScreen)
    else
      g.(screen := LoseScreen)
  }

  /// The Next button can be clicked only while the quiz screen shows it.
  predicate NextEnabled(g: Game)
  {
    g.screen == QuizScreen && g.resolved
  }

  /// handleNextButtonClick.
  function NextClicked(g: Game): Game
  {
    if !NextEnabled(g) then g
    else
      var c := g.(count := g.count + 1);
      if c.count < QuestionsPerLevel then SetNextQuestion(c) else EndLevel(c)
  }

  /// A click reaches selectAnswer only through an enabled answer button of
  /// the visible quiz screen.
  predicate CanSelect(g: Game, i: int)
  {
    g.screen == QuizScreen && !g.resolved && 0 <= i < |g.shown|
  }

  /// selectAnswer on the button of answer `i`.
  function SelectAnswer(g: Game, i: int): Game
  {
    if !CanSelect(g, i) then g
    else
      g.(timerOn := false,
         score := if g.shown[i].correct then g.score + 1 else g.score,
         resolved := true)
  }

  /// handleTimeUp: cancels the interval, disables the answers, shows Next.
  function HandleTimeUp(g: Game): Game
  {
    g.(timerOn := false, resolved := true)
  }

  /// One run of the interval callback that startTimer schedules; nothing
  /// happens while no interval is scheduled.
  function Tick(g: Game): Game
  {
    if !g.timerOn then g
    else
      var t := g.(timeLeft := g.timeLeft - 1, warning := g.timeLeft - 1 <= WarningAt);
      if t.timeLeft <= 0 then HandleTimeUp(t) else t
  }

  /// The events that reach the engine.
  datatype Event =
    | StartClick(perm: seq<Question>)
    | AnswerClick(index: int)
    | TimerTick
    | NextClick

  function Step(g: Game, e: Event): Game
  {
    match e
    case StartClick(perm) => StartGame(g, perm)
    case AnswerClick(i) => SelectAnswer(g, i)
    case TimerTick => Tick(g)
    case NextClick => NextClicked(g)
  }

  function Run(g: Game, events: seq<Event>): Game
    decreases |events|
  {
    if events == [] then g else Run(Step(g, events[0]), events[1..])
  }

  /// Every start in `events` deals a shuffle of `bank`.
  ghost predicate DealsFrom(bank: seq<Question>, events: seq<Event>)
  {
    forall k :: 0 <= k < |events| && events[k].StartClick? ==> multiset(events[k].perm) == multiset(bank)
  }

  /// What holds in every state the page can reach.
  ghost predicate Inv(bank: seq<Question>, g: Game)
  {
    && 0 <= g.level <= TotalLevels
    && 0 <= g.count <= QuestionsPerLevel
    && 0 <= g.score <= g.count + (if NextEnabled(g) then 1 else 0)
    && 0 <= g.timeLeft <= TimeLimit
    && g.warning == (g.timeLeft <= WarningAt)
    && (g.timerOn <==> g.screen == QuizScreen && !g.resolved)
    && (g.timerOn ==> 0 < g.timeLeft)
    && (g.screen == QuizScreen ==> g.level < TotalLevels && g.count < QuestionsPerLevel)
    && (g.screen == StartScreen ==> g == Initial)
    && multiset(g.pool) <= multiset(bank)
  }

  /// Popping the last element splits the multiset.
  lemma PopSplits(s: seq<Question>)
    requires |s| > 0
    ensures multiset(s) == multiset(s[..|s| - 1]) + multiset{Last(s)}
  {
    assert s == s[..|s| - 1] + [Last(s)];
  }
}
