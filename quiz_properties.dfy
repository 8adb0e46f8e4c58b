/// What the quiz engine promises, proved about the transition functions of
/// module Quiz.
module QuizProperties {
  import opened Quiz

  // ---------------------------------------------------------------------
  // The invariant holds in every reachable state.

  lemma InitialInv(bank: seq<Question>)
    ensures Inv(bank, Initial)
  {
  }

  /// Serving a question from a state about to show the quiz keeps the
  /// invariant.
  lemma ServeKeepsInv(bank: seq<Question>, g: Game)
    requires g.screen == QuizScreen && 0 <= g.level < TotalLevels
    requires 0 <= g.score <= g.count < QuestionsPerLevel
    requires multiset(g.pool) <= multiset(bank)
    ensures Inv(bank, SetNextQuestion(g))
  {
    if |g.pool| > 0 {
      PopSplits(g.pool);
    }
  }

  lemma StartKeepsInv(bank: seq<Question>, g: Game, perm: seq<Question>)
    requires Inv(bank, g) && multiset(perm) == multiset(bank)
    ensures Inv(bank, StartGame(g, perm))
  {
    if StartEnabled(g) {
      ServeKeepsInv(bank, g.(level := 0, pool := perm, score := 0, count := 0, screen := QuizScreen));
    }
  }

  lemma EndLevelKeepsInv(bank: seq<Question>, g: Game)
    requires Inv(bank, g.(count := g.count - 1)) && NextEnabled(g) && g.count == QuestionsPerLevel
    ensures Inv(bank, EndLevel(g))
  {
    if g.score >= WinScoreThreshold && g.level + 1 < TotalLevels {
      ServeKeepsInv(bank, g.(level := g.level + 1, score := 0, count := 0, screen := QuizScreen));
    }
  }

  lemma NextKeepsInv(bank: seq<Question>, g: Game)
    requires Inv(bank, g)
    ensures Inv(bank, NextClicked(g))
  {
    if NextEnabled(g) {
      var c := g.(count := g.count + 1);
      if c.count < QuestionsPerLevel {
        ServeKeepsInv(bank, c);
      } else {
        assert c.(count := c.count - 1) == g;
        EndLevelKeepsInv(bank, c);
      }
    }
  }

  /// Each handler keeps the invariant, provided a start deals a shuffle of
  /// the bank.
  lemma StepKeepsInv(bank: seq<Question>, g: Game, e: Event)
    requires Inv(bank, g)
    requires e.StartClick? ==> multiset(e.perm) == multiset(bank)
    ensures Inv(bank, Step(g, e))
  {
    match e
    case StartClick(perm) => StartKeepsInv(bank, g, perm);
    case AnswerClick(i) =>
    case TimerTick =>
    case NextClick => NextKeepsInv(bank, g);
  }

  lemma {:induction false} RunKeepsInv(bank: seq<Question>, g: Game, events: seq<Event>)
    requires Inv(bank, g) && DealsFrom(bank, events)
    ensures Inv(bank, Run(g, events))
    decreases |events|
  {
    if events != [] {
      StepKeepsInv(bank, g, events[0]);
      assert DealsFrom(bank, events[1..]) by {
        forall k | 0 <= k < |events[1..]| && events[1..][k].StartClick?
          ensures multiset(events[1..][k].perm) == multiset(bank)
        {
          assert events[1..][k] == events[k + 1];
        }
      }
      RunKeepsInv(bank, Step(g, events[0]), events[1..]);
    }
  }

  /// Within a level the score never exceeds the questions resolved, and the
  /// question count stays below the quota while the quiz screen is up.
  lemma ReachableScoreBounds(bank: seq<Question>, events: seq<Event>)
    requires DealsFrom(bank, events)
    ensures var g := Run(Initial, events);
      && 0 <= g.score <= g.count + (if NextEnabled(g) then 1 else 0) <= QuestionsPerLevel
      && 0 <= g.count <= QuestionsPerLevel
    ensures var g := Run(Initial, events);
      g.screen == QuizScreen ==> 0 <= g.count < QuestionsPerLevel && 0 <= g.level < TotalLevels
  {
    InitialInv(bank);
    RunKeepsInv(bank, Initial, events);
  }

  // ---------------------------------------------------------------------
  // Starting a game and a level, serving a question.

  /// A start deals `perm` into the pool, resets level, score and count and
  /// serves the last question of `perm` (or wins at once on an empty bank).
  /// It does nothing while the quiz screen is up.
  lemma StartGameDeals(g: Game, perm: seq<Question>)
    ensures var r := StartGame(g, perm);
      if !StartEnabled(g) then r == g
      else
        && r.level == 0 && r.score == 0 && r.count == 0
        && !r.resolved && r.timeLeft == TimeLimit && !r.warning
        && (|perm| == 0 ==> r.screen == WinScreen && !r.timerOn && r.pool == [])
        && (|perm| > 0 ==>
              r.screen == QuizScreen && r.timerOn && r.pool == perm[..|perm| - 1] && r.shown == Last(perm).answers)
  {
  }

  /// A level starts from a zero score and count, on the quiz screen, at the
  /// same level index.
  lemma StartLevelResets(g: Game)
    ensures var r := StartLevel(g);
      && r.score == 0 && r.count == 0 && r.level == g.level
      && (|g.pool| > 0 <==> r.screen == QuizScreen)
  {
  }

  /// Serving removes exactly the last question of a non-empty pool, shows
  /// its answers and starts a full, unresolved timer; an empty pool wins the
  /// game with no question served and no timer.
  lemma ServeDrawsLast(g: Game)
    ensures var r := SetNextQuestion(g);
      && r.timeLeft == TimeLimit && !r.warning && !r.resolved
      && r.level == g.level && r.score == g.score && r.count == g.count
      && (if |g.pool| == 0 then
            r.screen == WinScreen && r.pool == [] && r.shown == [] && !r.timerOn
          else
            && r.screen == g.screen && r.timerOn
            && |r.pool| == |g.pool| - 1
            && r.pool == g.pool[..|g.pool| - 1]
            && r.shown == Last(g.pool).answers
            && multiset(g.pool) == multiset(r.pool) + multiset{Last(g.pool)})
  {
    if |g.pool| > 0 {
      PopSplits(g.pool);
    }
  }

  // ---------------------------------------------------------------------
  // Resolving a question.

  /// An accepted selection adds one to the score exactly when the chosen
  /// answer is correct, stops the timer and resolves the question; anything
  /// else leaves the state alone.
  lemma SelectScoresIffCorrect(g: Game, i: int)
    ensures var r := SelectAnswer(g, i);
      && (CanSelect(g, i) && g.shown[i].correct <==> r.score == g.score + 1)
      && (!(CanSelect(g, i) && g.shown[i].correct) ==> r.score == g.score)
      && (CanSelect(g, i) ==> r.resolved && !r.timerOn && r.pool == g.pool && r.count == g.count)
      && (CanSelect(g, i) ==> r == g.(timerOn := false, resolved := true, score := r.score))
      && (!CanSelect(g, i) ==> r == g)
  {
  }

  /// A resolved question cannot be scored again, by a second click or by
  /// the timer.
  lemma ResolvedIsFinal(g: Game, i: int, j: int)
    requires CanSelect(g, i)
    ensures var r := SelectAnswer(g, i);
      SelectAnswer(r, j) == r && Tick(r) == r && !CanSelect(r, j)
  {
  }

  /// Advancing counts the resolved question. Below the level quota it
  /// serves the pool's last question with a fresh timer, keeping score and
  /// level (or wins on an empty pool); at the quota it ends the level, which
  /// moves up a level exactly when the score reaches the threshold.
  lemma NextAdvances(g: Game)
    ensures var r := NextClicked(g);
      && (!NextEnabled(g) ==> r == g)
      && (NextEnabled(g) && g.count + 1 < QuestionsPerLevel ==>
            && r.count == g.count + 1 && r.score == g.score && r.level == g.level
            && r.timeLeft == TimeLimit && !r.warning && !r.resolved
            && (|g.pool| > 0 ==>
                  && r.screen == QuizScreen && r.timerOn
                  && r.pool == g.pool[..|g.pool| - 1] && r.shown == Last(g.pool).answers)
            && (|g.pool| == 0 ==> r.screen == WinScreen && !r.timerOn && r.pool == []))
      && (NextEnabled(g) && g.count + 1 >= QuestionsPerLevel ==>
            && (r.level == g.level + 1 <==> g.score >= WinScoreThreshold)
            && (r.screen == LoseScreen && r.level == g.level <==> g.score < WinScoreThreshold)
            && (g.score >= WinScoreThreshold && g.level + 1 >= TotalLevels ==> r.screen == WinScreen)
            && (g.score >= WinScoreThreshold && g.level + 1 < TotalLevels ==>
                  && r.score == 0 && r.count == 0
                  && (|g.pool| > 0 <==> r.screen == QuizScreen)))
  {
    if NextEnabled(g) {
      var c := g.(count := g.count + 1);
      ServeDrawsLast(c);
      EndLevelOutcome(c);
      StartLevelResets(c.(level := c.level + 1));
    }
  }

  /// A level is passed exactly when the score reaches the threshold: a pass
  /// moves one level up (winning after the last), a fail loses and keeps
  /// the level index.
  lemma EndLevelOutcome(g: Game)
    ensures var r := EndLevel(g);
      && (g.score >= WinScoreThreshold <==> r.level == g.level + 1)
      && (g.score < WinScoreThreshold <==> r.screen == LoseScreen && r.level == g.level)
      && (g.score >= WinScoreThreshold && g.level + 1 >= TotalLevels ==> r.screen == WinScreen)
      && (g.score >= WinScoreThreshold && g.level + 1 < TotalLevels ==>
            r == StartLevel(g.(level := g.level + 1)))
  {
  }

  // ---------------------------------------------------------------------
  // The timer.

  function Ticks(g: Game, n: nat): Game
    decreases n
  {
    if n == 0 then g else Ticks(Tick(g), n - 1)
  }

  /// A running timer with `t` seconds left counts down one second per tick,
  /// raising the warning at two seconds, and expires on the `t`-th tick;
  /// expiry resolves the question without scoring and stops the timer, so
  /// any further ticks change nothing.
  lemma {:induction false} TicksCountDown(g: Game, n: nat)
    requires g.timerOn && 0 < g.timeLeft
    ensures n < g.timeLeft ==>
      Ticks(g, n) == g.(timeLeft := g.timeLeft - n, warning := if n == 0 then g.warning else g.timeLeft - n <= WarningAt)
    ensures n >= g.timeLeft ==>
      Ticks(g, n) == g.(timeLeft := 0, warning := true, timerOn := false, resolved := true)
    decreases n
  {
    if n > 0 {
      var t := Tick(g);
      if g.timeLeft == 1 {
        TicksStopped(t, n - 1);
      } else {
        TicksCountDown(t, n - 1);
      }
    }
  }

  lemma {:induction false} TicksStopped(g: Game, n: nat)
    requires !g.timerOn
    ensures Ticks(g, n) == g
    decreases n
  {
    if n > 0 {
      TicksStopped(Tick(g), n - 1);
    }
  }

  /// A freshly served question times out after exactly `TimeLimit` ticks
  /// with its score untouched, after which a selection is ignored.
  lemma TimeoutAfterLimit(g: Game, i: int)
    requires Fresh(g)
    ensures !Ticks(g, TimeLimit - 1).resolved && Ticks(g, TimeLimit - 1).timerOn
    ensures var r := Ticks(g, TimeLimit);
      && r.resolved && !r.timerOn && r.score == g.score && r.timeLeft == 0
      && SelectAnswer(r, i) == r
  {
    TicksCountDown(g, TimeLimit - 1);
    TicksCountDown(g, TimeLimit);
  }

  // ---------------------------------------------------------------------
  // Playing through levels.

  /// A question just served: quiz screen, unresolved, full running timer.
  predicate Fresh(g: Game)
  {
    g.screen == QuizScreen && !g.resolved && g.timerOn && g.timeLeft == TimeLimit && !g.warning
  }

  predicate HasCorrect(answers: seq<Answer>)
  {
    exists k :: 0 <= k < |answers| && answers[k].correct
  }

  /// Every question left in the pool has a correct answer.
  predicate PoolAnswerable(pool: seq<Question>)
  {
    forall q :: q in pool ==> HasCorrect(q.answers)
  }

  /// The index of the first correct answer, or `|answers|` when none is.
  function CorrectIndex(answers: seq<Answer>): (k: nat)
    ensures k <= |answers|
    ensures k < |answers| ==> answers[k].correct
    ensures forall j :: 0 <= j < k ==> !answers[j].correct
    ensures HasCorrect(answers) ==> k < |answers|
  {
    if answers == [] then 0
    else if answers[0].correct then 0
    else 1 + CorrectIndex(answers[1..])
  }

  /// One question played out: either the correct answer is clicked or the
  /// timer is left to expire; then Next is clicked.
  function Round(g: Game, right: bool): Game
  {
    NextClicked(if right then SelectAnswer(g, CorrectIndex(g.shown)) else Ticks(g, TimeLimit))
  }

  function Rounds(g: Game, plan: seq<bool>): Game
    decreases |plan|
  {
    if plan == [] then g else Rounds(Round(g, plan[0]), plan[1..])
  }

  /// The number of questions answered correctly in `plan`.
  function Hits(plan: seq<bool>): nat
  {
    if plan == [] then 0 else (if plan[0] then 1 else 0) + Hits(plan[1..])
  }

  function AllRight(n: nat): seq<bool>
  {
    seq(n, _ => true)
  }

  lemma {:induction false} HitsAllRight(n: nat)
    ensures Hits(AllRight(n)) == n
  {
    if n > 0 {
      assert AllRight(n)[1..] == AllRight(n - 1);
      HitsAllRight(n - 1);
    }
  }

  lemma {:induction false} RoundsAppend(g: Game, a: seq<bool>, b: seq<bool>)
    ensures Rounds(g, a + b) == Rounds(Rounds(g, a), b)
    decreases |a|
  {
    if a != [] {
      assert (a + b)[0] == a[0] && (a + b)[1..] == a[1..] + b;
      RoundsAppend(Round(g, a[0]), a[1..], b);
    } else {
      assert a + b == b;
    }
  }

  lemma {:induction false} HitsAppend(a: seq<bool>, b: seq<bool>)
    ensures Hits(a + b) == Hits(a) + Hits(b)
    decreases |a|
  {
    if a == [] {
      assert a + b == b;
    } else {
      assert (a + b)[1..] == a[1..] + b;
      HitsAppend(a[1..], b);
    }
  }

  /// Before the last question of a level, a round scores the answer, counts
  /// the question and serves the next one from the end of the pool.
  lemma RoundInLevel(g: Game, right: bool)
    requires Fresh(g) && g.count + 1 < QuestionsPerLevel && |g.pool| > 0
    requires HasCorrect(g.shown)
    ensures Round(g, right) == g.(score := g.score + (if right then 1 else 0),
                                  count := g.count + 1,
                                  pool := g.pool[..|g.pool| - 1],
                                  shown := Last(g.pool).answers)
  {
    if !right {
      TicksCountDown(g, TimeLimit);
    }
  }

  /// The last question of a level: its round ends the level on the score
  /// including this answer.
  lemma LastRound(g: Game, right: bool)
    requires Fresh(g) && g.count + 1 == QuestionsPerLevel && 0 <= g.level < TotalLevels
    requires HasCorrect(g.shown)
    ensures var s, r := g.score + (if right then 1 else 0), Round(g, right);
      && (s >= WinScoreThreshold && g.level + 1 < TotalLevels && |g.pool| > 0 ==>
            && Fresh(r) && r.level == g.level + 1 && r.score == 0 && r.count == 0
            && r.pool == g.pool[..|g.pool| - 1] && r.shown == Last(g.pool).answers)
      && (s >= WinScoreThreshold && g.level + 1 == TotalLevels ==>
            r.screen == WinScreen && r.level == TotalLevels && r.pool == g.pool)
      && (s < WinScoreThreshold ==>
            r.screen == LoseScreen && r.level == g.level && r.score == s && r.pool == g.pool)
  {
    var resolvedState := if right then SelectAnswer(g, CorrectIndex(g.shown)) else Ticks(g, TimeLimit);
    if !right {
      TicksCountDown(g, TimeLimit);
    }
    assert NextEnabled(resolvedState);
    assert resolvedState.score == g.score + (if right then 1 else 0);
    assert resolvedState.pool == g.pool && resolvedState.level == g.level;
    assert Round(g, right) == EndLevel(resolvedState.(count := QuestionsPerLevel));
  }

  /// Popping keeps the pool answerable, and the question popped is
  /// answerable too.
  lemma PopKeepsAnswerable(pool: seq<Question>)
    requires |pool| > 0 && PoolAnswerable(pool)
    ensures PoolAnswerable(pool[..|pool| - 1]) && HasCorrect(Last(pool).answers)
  {
    assert Last(pool) in pool;
    forall q | q in pool[..|pool| - 1] ensures HasCorrect(q.answers) {
      assert q in pool;
    }
  }

  /// Before the last question of a level, each round scores its answer,
  /// counts its question and serves the next one from the end of the pool.
  lemma {:induction false} RoundsInLevel(g: Game, plan: seq<bool>)
    requires Fresh(g) && g.count + |plan| < QuestionsPerLevel && |g.pool| >= |plan|
    requires HasCorrect(g.shown) && PoolAnswerable(g.pool)
    ensures var r := Rounds(g, plan);
      && Fresh(r) && r.level == g.level
      && r.score == g.score + Hits(plan) && r.count == g.count + |plan|
      && r.pool == g.pool[..|g.pool| - |plan|]
      && HasCorrect(r.shown) && PoolAnswerable(r.pool)
    decreases |plan|
  {
    if plan != [] {
      var g' := Round(g, plan[0]);
      RoundInLevel(g, plan[0]);
      PopKeepsAnswerable(g.pool);
      RoundsInLevel(g', plan[1..]);
      assert g'.pool[..|g'.pool| - |plan[1..]|] == g.pool[..|g.pool| - |plan|];
    }
  }

  /// The rounds of a level split into those before its last question and
  /// the last one.
  lemma LevelSplit(g: Game, plan: seq<bool>)
    requires 0 <= g.count < QuestionsPerLevel && |plan| == QuestionsPerLevel - g.count
    ensures var n := QuestionsPerLevel - 1 - g.count;
      && Rounds(g, plan) == Round(Rounds(g, plan[..n]), plan[n])
      && Hits(plan) == Hits(plan[..n]) + (if plan[n] then 1 else 0)
  {
    var n := QuestionsPerLevel - 1 - g.count;
    assert plan == plan[..n] + [plan[n]];
    RoundsAppend(g, plan[..n], [plan[n]]);
    HitsAppend(plan[..n], [plan[n]]);
    RoundsSingle(Rounds(g, plan[..n]), plan[n]);
  }

  lemma RoundsSingle(g: Game, right: bool)
    ensures Rounds(g, [right]) == Round(g, right)
  {
    assert [right][1..] == [];
  }

  // Playing out the rest of a level, from a freshly served question with
  // `count` questions already resolved and enough questions in the pool:
  // the level is passed exactly when at least `WinScoreThreshold` of its
  // `QuestionsPerLevel` questions were answered correctly. A level draws one
  // question per question after its first.

  /// A pass before the last level serves the first question of the next.
  lemma LevelPassed(g: Game, plan: seq<bool>)
    requires Fresh(g) && 0 <= g.count < QuestionsPerLevel && 0 <= g.level < TotalLevels - 1
    requires |plan| == QuestionsPerLevel - g.count && |g.pool| >= QuestionsPerLevel - g.count
    requires HasCorrect(g.shown) && PoolAnswerable(g.pool)
    requires g.score + Hits(plan) >= WinScoreThreshold
    ensures var r := Rounds(g, plan);
      && Fresh(r) && r.level == g.level + 1 && r.score == 0 && r.count == 0
      && r.pool == g.pool[..|g.pool| - (QuestionsPerLevel - g.count)]
      && HasCorrect(r.shown) && PoolAnswerable(r.pool)
  {
    var n := QuestionsPerLevel - 1 - g.count;
    LevelSplit(g, plan);
    RoundsInLevel(g, plan[..n]);
    var m := Rounds(g, plan[..n]);
    LastRound(m, plan[n]);
    PopKeepsAnswerable(m.pool);
    assert m.pool[..|m.pool| - 1] == g.pool[..|g.pool| - (QuestionsPerLevel - g.count)];
  }

  /// A pass of the last level wins the game.
  lemma LastLevelPassed(g: Game, plan: seq<bool>)
    requires Fresh(g) && 0 <= g.count < QuestionsPerLevel && g.level == TotalLevels - 1
    requires |plan| == QuestionsPerLevel - g.count && |g.pool| >= QuestionsPerLevel - 1 - g.count
    requires HasCorrect(g.shown) && PoolAnswerable(g.pool)
    requires g.score + Hits(plan) >= WinScoreThreshold
    ensures var r := Rounds(g, plan);
      && r.screen == WinScreen && r.level == TotalLevels
      && r.pool == g.pool[..|g.pool| - (QuestionsPerLevel - 1 - g.count)]
  {
    var n := QuestionsPerLevel - 1 - g.count;
    LevelSplit(g, plan);
    RoundsInLevel(g, plan[..n]);
    LastRound(Rounds(g, plan[..n]), plan[n]);
  }

  /// A fail loses the game at the same level, with the level's score.
  lemma LevelFailed(g: Game, plan: seq<bool>)
    requires Fresh(g) && 0 <= g.count < QuestionsPerLevel && 0 <= g.level < TotalLevels
    requires |plan| == QuestionsPerLevel - g.count && |g.pool| >= QuestionsPerLevel - 1 - g.count
    requires HasCorrect(g.shown) && PoolAnswerable(g.pool)
    requires g.score + Hits(plan) < WinScoreThreshold
    ensures var r := Rounds(g, plan);
      && r.screen == LoseScreen && r.level == g.level && r.score == g.score + Hits(plan)
      && r.pool == g.pool[..|g.pool| - (QuestionsPerLevel - 1 - g.count)]
  {
    var n := QuestionsPerLevel - 1 - g.count;
    LevelSplit(g, plan);
    RoundsInLevel(g, plan[..n]);
    LastRound(Rounds(g, plan[..n]), plan[n]);
  }

  /// From the first question of level `level`, answering every question
  /// correctly wins the game after the last level, having drawn one
  /// question for each of the remaining questions of the game.
  lemma {:induction false} PerfectFromLevel(g: Game)
    requires Fresh(g) && g.count == 0 && g.score == 0 && 0 <= g.level < TotalLevels
    requires |g.pool| >= QuestionsPerLevel * (TotalLevels - g.level) - 1
    requires HasCorrect(g.shown) && PoolAnswerable(g.pool)
    ensures var r, n := Rounds(g, AllRight(QuestionsPerLevel * (TotalLevels - g.level))),
                        QuestionsPerLevel * (TotalLevels - g.level) - 1;
      r.screen == WinScreen && r.level == TotalLevels && r.pool == g.pool[..|g.pool| - n]
    decreases TotalLevels - g.level
  {
    HitsAllRight(QuestionsPerLevel);
    if g.level + 1 < TotalLevels {
      var rest := QuestionsPerLevel * (TotalLevels - g.level - 1);
      assert AllRight(QuestionsPerLevel * (TotalLevels - g.level)) == AllRight(QuestionsPerLevel) + AllRight(rest);
      RoundsAppend(g, AllRight(QuestionsPerLevel), AllRight(rest));
      LevelPassed(g, AllRight(QuestionsPerLevel));
      var g' := Rounds(g, AllRight(QuestionsPerLevel));
      PerfectFromLevel(g');
      assert g'.pool[..|g'.pool| - (rest - 1)] == g.pool[..|g.pool| - (QuestionsPerLevel * (TotalLevels - g.level) - 1)];
    } else {
      LastLevelPassed(g, AllRight(QuestionsPerLevel));
    }
  }

  /// Starting a game on a bank of at least 35 answerable questions and
  /// answering every question correctly passes all five levels and wins,
  /// having drawn exactly 35 questions.
  lemma PerfectGameWins(g: Game, perm: seq<Question>)
    requires StartEnabled(g)
    requires |perm| >= QuestionsPerLevel * TotalLevels && PoolAnswerable(perm)
    ensures var r := Rounds(StartGame(g, perm), AllRight(QuestionsPerLevel * TotalLevels));
      && r.screen == WinScreen && r.level == TotalLevels
      && r.pool == perm[..|perm| - QuestionsPerLevel * TotalLevels]
  {
    var s := StartGame(g, perm);
    assert Last(perm) in perm;
    assert PoolAnswerable(s.pool) by {
      forall q | q in s.pool ensures HasCorrect(q.answers) {
        assert q in perm;
      }
    }
    PerfectFromLevel(s);
    assert s.pool[..|s.pool| - (QuestionsPerLevel * TotalLevels - 1)] == perm[..|perm| - QuestionsPerLevel * TotalLevels];
  }
}
