/// The page script's closure state as an object: its variables are fields,
/// its handlers are methods that update them in place, and each method is
/// proved to perform the transition of the same name in module Quiz.
module QuizEngine {
  import opened Quiz
  import QuizProperties

  class Engine {
    /// The question bank (the `questions` array of the page script).
    const bank: seq<Question>

    var pool: seq<Question>
    var level: int
    var score: int
    var count: int
    var timeLeft: int
    var timerOn: bool
    var warning: bool
    var screen: Screen
    var shown: seq<Answer>
    var resolved: bool

    /// The questions popped from the pool since the game started, in order.
    ghost var served: seq<Question>

    function State(): Game
      reads this
    {
      Game(pool, level, score, count, timeLeft, timerOn, warning, screen, shown, resolved)
    }

    /// The invariant of the reachable states, plus: the pool and the
    /// questions already served make up the bank, so no question is served
    /// twice in a game, and the answers on display are those of the question
    /// served last.
    ghost predicate Valid()
      reads this
    {
      && Inv(bank, State())
      && (screen == StartScreen ==> served == [])
      && (screen != StartScreen ==> multiset(pool) + multiset(served) == multiset(bank))
      && (screen == QuizScreen ==> |served| > 0 && shown == served[|served| - 1].answers)
    }

    constructor (bank: seq<Question>)
      ensures this.bank == bank && State() == Initial && served == []
      ensures Valid()
    {
      this.bank := bank;
      pool, level, score, count := [], 0, 0, 0;
      timeLeft, timerOn, warning := TimeLimit, false, false;
      screen, shown, resolved := StartScreen, [], false;
      served := [];
      new;
      QuizProperties.InitialInv(bank);
    }

    method ResetState()
      modifies this
      ensures State() == Quiz.ResetState(old(State())) && served == old(served)
    {
      timerOn := false;
      timeLeft := TimeLimit;
      warning := false;
      resolved := false;
      shown := [];
    }

    /// startTimer: schedules the one-second interval whose body is Tick.
    method StartTimer()
      modifies this
      ensures State() == old(State()).(timerOn := true) && served == old(served)
    {
      timerOn := true;
    }

    method SetNextQuestion()
      modifies this
      ensures State() == Quiz.SetNextQuestion(old(State()))
      ensures served == if |old(pool)| == 0 then old(served) else old(served) + [Last(old(pool))]
      ensures multiset(pool) + multiset(served) == multiset(old(pool)) + multiset(old(served))
      ensures screen == QuizScreen ==> |served| > 0 && shown == served[|served| - 1].answers
    {
      ResetState();
      if |pool| == 0 {
        screen := WinScreen;
        return;
      }
      var current := pool[|pool| - 1];
      PopSplits(pool);
      pool := pool[..|pool| - 1];
      served := served + [current];
      shown := current.answers;
      StartTimer();
    }

    method StartLevel()
      modifies this
      ensures State() == Quiz.StartLevel(old(State()))
      ensures served == if |old(pool)| == 0 then old(served) else old(served) + [Last(old(pool))]
      ensures multiset(pool) + multiset(served) == multiset(old(pool)) + multiset(old(served))
      ensures screen == QuizScreen ==> |served| > 0 && shown == served[|served| - 1].answers
    {
      score := 0;
      count := 0;
      screen := QuizScreen;
      SetNextQuestion();
    }

    /// startGame, dealing the shuffled bank `perm`; ignored while the quiz
    /// screen is up, since the buttons that start a game are not on it.
    method StartGame(perm: seq<Question>) returns (accepted: bool)
      requires Valid() && multiset(perm) == multiset(bank)
      modifies this
      ensures Valid()
      ensures accepted == StartEnabled(old(State()))
      ensures State() == Quiz.StartGame(old(State()), perm)
      ensures accepted ==> level == 0 && score == 0 && count == 0
      ensures accepted ==> served == if perm == [] then [] else [Last(perm)]
    {
      ghost var before := State();
      QuizProperties.StartKeepsInv(bank, before, perm);
      if screen == QuizScreen {
        return false;
      }
      accepted := true;
      level := 0;
      pool := perm;
      served := [];
      assert State() == before.(level := 0, pool := perm);
      StartLevel();
      assert State() == Quiz.StartGame(before, perm);
      assert Inv(bank, State());
    }

    method EndLevel()
      modifies this
      ensures State() == Quiz.EndLevel(old(State()))
      ensures multiset(pool) + multiset(served) == multiset(old(pool)) + multiset(old(served))
      ensures screen == QuizScreen ==> |served| > 0 && shown == served[|served| - 1].answers
    {
      if score >= WinScoreThreshold {
        level := level + 1;
        if level < TotalLevels {
          StartLevel();
        } else {
          screen := WinScreen;
        }
      } else {
        screen := LoseScreen;
      }
    }

    /// handleNextButtonClick; ignored unless Next is visible.
    method NextClicked() returns (accepted: bool)
      requires Valid()
      modifies this
      ensures Valid()
      ensures accepted == NextEnabled(old(State()))
      ensures State() == Quiz.NextClicked(old(State()))
      ensures accepted && old(count) + 1 < QuestionsPerLevel ==>
        count == old(count) + 1 && score == old(score) && level == old(level)
    {
      ghost var before := State();
      QuizProperties.NextKeepsInv(bank, before);
      QuizProperties.NextAdvances(before);
      if !(screen == QuizScreen && resolved) {
        return false;
      }
      accepted := true;
      count := count + 1;
      ghost var counted := State();
      assert counted == before.(count := before.count + 1);
      if count < QuestionsPerLevel {
        SetNextQuestion();
        assert State() == Quiz.SetNextQuestion(counted);
      } else {
        EndLevel();
        assert State() == Quiz.EndLevel(counted);
      }
      assert State() == Quiz.NextClicked(before);
    }

    /// selectAnswer for the button of answer `i`; ignored unless that
    /// button is on display and enabled.
    method SelectAnswer(i: int) returns (accepted: bool)
      requires Valid()
      modifies this
      ensures Valid()
      ensures accepted == CanSelect(old(State()), i)
      ensures State() == Quiz.SelectAnswer(old(State()), i)
      ensures score == old(score) + (if accepted && old(shown)[i].correct then 1 else 0)
      ensures accepted ==> resolved && !timerOn
      ensures served == old(served)
    {
      if !(screen == QuizScreen && !resolved && 0 <= i < |shown|) {
        return false;
      }
      accepted := true;
      timerOn := false;
      var isCorrect := shown[i].correct;
      if isCorrect {
        score := score + 1;
      }
      resolved := true;
    }

    method HandleTimeUp()
      modifies this
      ensures State() == Quiz.HandleTimeUp(old(State())) && served == old(served)
    {
      timerOn := false;
      resolved := true;
    }

    /// One run of the interval callback; nothing runs while no interval is
    /// scheduled.
    method Tick()
      requires Valid()
      modifies this
      ensures Valid()
      ensures State() == Quiz.Tick(old(State()))
      ensures score == old(score) && served == old(served)
      ensures old(timerOn) ==> timeLeft == old(timeLeft) - 1 && warning == (timeLeft <= WarningAt)
      ensures old(timerOn) ==> (resolved <==> timeLeft == 0) && (timerOn <==> 0 < timeLeft)
    {
      if !timerOn {
        return;
      }
      timeLeft := timeLeft - 1;
      warning := timeLeft <= WarningAt;
      if timeLeft <= 0 {
        HandleTimeUp();
      }
    }
  }
}
