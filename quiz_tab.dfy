/**
 * The quiz game: loading a generated quiz, answering, moving on and
 * restarting, as transitions of the tab's state. Countdown timers are not
 * part of this model; each handler acts on the state it reads, except the
 * `nextQuestion` an answer schedules, which reads the lives from before it
 * (`AnswerAsScheduled`).
 */
module QuizTab {
  import opened Wrappers

  datatype PowerUpKind = Shield | Speed | DoublePoints | NoPowerUp

  datatype QuizQuestion = QuizQuestion(
    id: int,
    question: string,
    options: seq<string>,
    correct: int,
    explanation: string,
    points: int,
    difficulty: string,
    powerUp: PowerUpKind)

  /** A generated quiz; its display-only `gameElements` texts are not modelled. */
  datatype Quiz = Quiz(mode: string, questions: seq<QuizQuestion>)

  datatype GameState = Menu | Playing | Finished

  datatype PowerUps = PowerUps(shield: int, speed: int, doublePoints: int)

  /** Lives at the start of a quiz: three in survival mode, one otherwise. */
  function StartingLives(mode: string): int {
    if mode == "survival" then 3 else 1
  }

  /** Seconds per question: fifteen in speedrun mode, thirty otherwise. */
  function TimeLimit(mode: string): int {
    if mode == "speedrun" then 15 else 30
  }

  /**
   * `Math.round(1.5 * p)` for an integer `p`: the integer nearest to 3p/2,
   * halves rounded up.
   */
  function RoundThreeHalves(p: int): (r: int)
    ensures 2 * r - 1 <= 3 * p < 2 * r + 1
  {
    (3 * p + 1) / 2
  }

  /**
   * The score a correct answer adds: the question's points, doubled when a
   * double-points power-up is left, then times 1.5 (rounded) when the streak
   * before the answer is at least two.
   */
  function AnswerPoints(points: int, doubled: bool, streak: int): int {
    var p := if doubled then 2 * points else points;
    if streak >= 2 then RoundThreeHalves(p) else p
  }

  /** With non-negative points a correct answer never earns less than the question is worth. */
  lemma AnswerPointsBounds(points: int, doubled: bool, streak: int)
    requires points >= 0
    ensures points <= AnswerPoints(points, doubled, streak) <= 3 * points
    ensures streak < 2 ==> AnswerPoints(points, doubled, streak) == (if doubled then 2 * points else points)
  {
  }

  /** Whether leaving question `question` ends the game, judged on `lives`. */
  predicate QuizOver(quiz: Quiz, question: int, lives: int) {
    question + 1 >= |quiz.questions| || (quiz.mode == "survival" && lives <= 0)
  }

  class QuizSession {
    var selectedNote: Option<int>
    var selectedMode: string
    var currentQuiz: Option<Quiz>
    var currentQuestion: int
    var score: int
    var lives: int
    var timeLeft: int
    var gameState: GameState
    var selectedAnswer: Option<int>
    var showExplanation: bool
    var powerUps: PowerUps
    var streak: int

    /** No power-up count is negative. */
    predicate PowerUpsNonNegative()
      reads this
    {
      powerUps.shield >= 0 && powerUps.speed >= 0 && powerUps.doublePoints >= 0
    }

    /** The state the tab mounts with. */
    constructor ()
      ensures selectedNote == None && selectedMode == "speedrun" && currentQuiz == None
      ensures currentQuestion == 0 && score == 0 && lives == 3 && timeLeft == 30
      ensures gameState == Menu && selectedAnswer == None && !showExplanation
      ensures powerUps == PowerUps(0, 0, 0) && streak == 0
      ensures PowerUpsNonNegative()
    {
      selectedNote, selectedMode, currentQuiz := None, "speedrun", None;
      currentQuestion, score, lives, timeLeft := 0, 0, 3, 30;
      gameState, selectedAnswer, showExplanation := Menu, None, false;
      powerUps, streak := PowerUps(0, 0, 0), 0;
    }

    /**
     * A generated quiz arrives: first question, zero score and streak, one of
     * each power-up, lives and time by mode, and the game is on.
     */
    method OnQuizLoaded(quiz: Quiz)
      modifies this
      ensures currentQuiz == Some(quiz) && currentQuestion == 0
      ensures score == 0 && streak == 0
      ensures powerUps == PowerUps(1, 1, 1)
      ensures lives == (if quiz.mode == "survival" then 3 else 1)
      ensures timeLeft == (if quiz.mode == "speedrun" then 15 else 30)
      ensures gameState == Playing
      ensures PowerUpsNonNegative()
      ensures selectedNote == old(selectedNote) && selectedMode == old(selectedMode)
      ensures selectedAnswer == old(selectedAnswer) && showExplanation == old(showExplanation)
    {
      currentQuiz := Some(quiz);
      currentQuestion := 0;
      score := 0;
      lives := StartingLives(quiz.mode);
      timeLeft := TimeLimit(quiz.mode);
      powerUps := PowerUps(1, 1, 1);
      streak := 0;
      gameState := Playing;
    }

    /**
     * An answer to the current question. A second answer is ignored. A
     * correct one adds `AnswerPoints` to the score (spending a double-points
     * power-up if one is left) and extends the streak; a wrong one resets the
     * streak and, in survival mode only, spends a shield or else a life.
     */
    method HandleAnswer(answerIndex: int)
      requires selectedAnswer.None? ==>
        currentQuiz.Some? && 0 <= currentQuestion < |currentQuiz.value.questions|
      modifies this
      ensures old(selectedAnswer).Some? ==> unchanged(this)
      ensures old(selectedAnswer).None? ==>
        var q := old(currentQuiz).value.questions[old(currentQuestion)];
        var mode := old(currentQuiz).value.mode;
        && selectedAnswer == Some(answerIndex) && showExplanation
        && (answerIndex == q.correct ==>
              && score == old(score) + AnswerPoints(q.points, old(powerUps).doublePoints > 0, old(streak))
              && streak == old(streak) + 1
              && powerUps == old(powerUps).(doublePoints :=
                   if old(powerUps).doublePoints > 0 then old(powerUps).doublePoints - 1 else old(powerUps).doublePoints)
              && lives == old(lives))
        && (answerIndex != q.correct ==>
              && score == old(score) && streak == 0
              && (mode == "survival" && old(powerUps).shield > 0 ==>
                    powerUps == old(powerUps).(shield := old(powerUps).shield - 1) && lives == old(lives))
              && (mode == "survival" && old(powerUps).shield <= 0 ==>
                    powerUps == old(powerUps) && lives == old(lives) - 1)
              && (mode != "survival" ==> powerUps == old(powerUps) && lives == old(lives)))
        && currentQuiz == old(currentQuiz) && currentQuestion == old(currentQuestion)
        && gameState == old(gameState) && timeLeft == old(timeLeft)
        && selectedNote == old(selectedNote) && selectedMode == old(selectedMode)
        && (q.points >= 0 ==> score >= old(score))
      ensures old(PowerUpsNonNegative()) ==> PowerUpsNonNegative()
    {
      if selectedAnswer.Some? {
        return;
      }
      selectedAnswer := Some(answerIndex);
      showExplanation := true;

      var question := currentQuiz.value.questions[currentQuestion];
      if answerIndex == question.correct {
        var doubled := powerUps.doublePoints > 0;
        if doubled {
          powerUps := powerUps.(doublePoints := powerUps.doublePoints - 1);
        }
        if question.points >= 0 {
          AnswerPointsBounds(question.points, doubled, streak);
        }
        score := score + AnswerPoints(question.points, doubled, streak);
        streak := streak + 1;
      } else {
        streak := 0;
        if currentQuiz.value.mode == "survival" {
          if powerUps.shield > 0 {
            powerUps := powerUps.(shield := powerUps.shield - 1);
          } else {
            lives := lives - 1;
          }
        }
      }
    }

    /**
     * Leaves the current question: the answer and explanation are cleared;
     * the game finishes after the last question, or in survival mode once no
     * life is left; otherwise the next question starts with a full timer.
     * The lives tested are the current ones.
     */
    method NextQuestion()
      requires currentQuiz.Some?
      modifies this
      ensures selectedAnswer == None && !showExplanation
      ensures var quiz := old(currentQuiz).value;
        var done := QuizOver(quiz, old(currentQuestion), old(lives));
        && (done ==> gameState == Finished && currentQuestion == old(currentQuestion) && timeLeft == old(timeLeft))
        && (!done ==> gameState == old(gameState) && currentQuestion == old(currentQuestion) + 1
                      && timeLeft == (if quiz.mode == "speedrun" then 15 else 30))
      ensures currentQuiz == old(currentQuiz) && score == old(score) && lives == old(lives)
      ensures powerUps == old(powerUps) && streak == old(streak)
      ensures selectedNote == old(selectedNote) && selectedMode == old(selectedMode)
    {
      AdvanceJudgedOn(lives);
    }

    /**
     * `nextQuestion` as a closure runs it: everything it reads comes from the
     * render that created the closure, so the lives it tests are `livesSeen`,
     * which may be older than the current ones. The question index moves by
     * a functional update and so starts from the current index.
     */
    method AdvanceJudgedOn(livesSeen: int)
      requires currentQuiz.Some?
      modifies this
      ensures selectedAnswer == None && !showExplanation
      ensures var quiz := old(currentQuiz).value;
        var done := QuizOver(quiz, old(currentQuestion), livesSeen);
        && (done ==> gameState == Finished && currentQuestion == old(currentQuestion) && timeLeft == old(timeLeft))
        && (!done ==> gameState == old(gameState) && currentQuestion == old(currentQuestion) + 1
                      && timeLeft == (if quiz.mode == "speedrun" then 15 else 30))
      ensures currentQuiz == old(currentQuiz) && score == old(score) && lives == old(lives)
      ensures powerUps == old(powerUps) && streak == old(streak)
      ensures selectedNote == old(selectedNote) && selectedMode == old(selectedMode)
    {
      selectedAnswer := None;
      showExplanation := false;
      var quiz := currentQuiz.value;
      if QuizOver(quiz, currentQuestion, livesSeen) {
        gameState := Finished;
        return;
      }
      currentQuestion := currentQuestion + 1;
      timeLeft := TimeLimit(quiz.mode);
    }

    /**
     * An answer followed by the `nextQuestion` its timeout runs, as the tab
     * wires them: the timeout's closure was created before the answer, so the
     * game-over test reads the lives from before it. In survival mode, losing
     * the last life on a question that is not the last one moves on to the
     * next question with no life left.
     */
    method AnswerAsScheduled(answerIndex: int)
      requires selectedAnswer.None? ==>
        currentQuiz.Some? && 0 <= currentQuestion < |currentQuiz.value.questions|
      modifies this
      ensures old(selectedAnswer).Some? ==> unchanged(this)
      ensures old(selectedAnswer).None? ==>
        var quiz := old(currentQuiz).value;
        var done := QuizOver(quiz, old(currentQuestion), old(lives));
        && (done ==> gameState == Finished && currentQuestion == old(currentQuestion))
        && (!done ==> gameState == old(gameState) && currentQuestion == old(currentQuestion) + 1)
      ensures old(selectedAnswer).None? && old(currentQuiz).value.mode == "survival"
        && answerIndex != old(currentQuiz).value.questions[old(currentQuestion)].correct
        && old(powerUps).shield <= 0 && old(lives) == 1
        && old(currentQuestion) + 1 < |old(currentQuiz).value.questions|
        ==> lives == 0 && gameState == old(gameState) && currentQuestion == old(currentQuestion) + 1
    {
      if selectedAnswer.Some? {
        return;
      }
      var livesSeen := lives;
      HandleAnswer(answerIndex);
      AdvanceJudgedOn(livesSeen);
    }

    /**
     * An answer followed by a `nextQuestion` that reads the state the answer
     * left: in survival mode the game ends as soon as no life is left.
     */
    method AnswerThenNext(answerIndex: int)
      requires selectedAnswer.None? ==>
        currentQuiz.Some? && 0 <= currentQuestion < |currentQuiz.value.questions|
      modifies this
      ensures old(selectedAnswer).Some? ==> unchanged(this)
      ensures old(selectedAnswer).None? ==>
        var quiz := old(currentQuiz).value;
        var done := QuizOver(quiz, old(currentQuestion), lives);
        && (done ==> gameState == Finished && currentQuestion == old(currentQuestion))
        && (!done ==> gameState == old(gameState) && currentQuestion == old(currentQuestion) + 1)
      ensures old(selectedAnswer).None? && old(currentQuiz).value.mode == "survival" && lives <= 0
        ==> gameState == Finished
    {
      if selectedAnswer.Some? {
        return;
      }
      HandleAnswer(answerIndex);
      NextQuestion();
    }

    /** Back to the menu with no quiz and no note selected. */
    method RestartQuiz()
      modifies this
      ensures gameState == Menu && currentQuiz == None && selectedNote == None
      ensures selectedMode == old(selectedMode) && currentQuestion == old(currentQuestion)
      ensures score == old(score) && lives == old(lives) && timeLeft == old(timeLeft)
      ensures selectedAnswer == old(selectedAnswer) && showExplanation == old(showExplanation)
      ensures powerUps == old(powerUps) && streak == old(streak)
    {
      gameState := Menu;
      currentQuiz := None;
      selectedNote := None;
    }
  }
}
