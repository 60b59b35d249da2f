/**
 * The quiz session as values: the state transitions that App.tsx's handleAnswer,
 * handleNextQuestion and handlePrevQuestion apply to the QuizState record, and the
 * fresh state handleStartQuiz builds. The App module runs them on its state.
 */
module Session {
  import opened Types

  /** The number of questions that have a recorded answer. */
  function CountAnswered(answers: seq<Option<int>>): (n: nat)
    ensures n <= |answers|
  {
    if answers == [] then 0
    else (if answers[0].Some? then 1 else 0) + CountAnswered(answers[1..])
  }

  /** Recording an answer in an empty slot adds exactly one to the count. */
  lemma {:induction false} CountAnsweredRecord(answers: seq<Option<int>>, i: int, choice: int)
    requires 0 <= i < |answers| && answers[i].None?
    ensures CountAnswered(answers[i := Some(choice)]) == CountAnswered(answers) + 1
  {
    if i > 0 {
      assert answers[i := Some(choice)][1..] == answers[1..][i - 1 := Some(choice)];
      CountAnsweredRecord(answers[1..], i - 1, choice);
    }
  }

  /** A row of empty slots counts no answers. */
  lemma {:induction false} CountAnsweredEmpty(answers: seq<Option<int>>)
    requires forall k :: 0 <= k < |answers| ==> answers[k].None?
    ensures CountAnswered(answers) == 0
  {
    if answers != [] {
      CountAnsweredEmpty(answers[1..]);
    }
  }

  /** The position addressed by currentQuestionIndex exists. */
  predicate AtQuestion(s: QuizState) {
    0 <= s.currentQuestionIndex < |s.questions| && |s.answers| == |s.questions|
  }

  /**
   * What holds of a session that started with `startLives` lives: one answer slot per
   * question, an index inside the list, game over only when finished and exactly when
   * the lives ran out, and every recorded answer paid for by a point or by a life.
   */
  predicate Consistent(s: QuizState, startLives: int) {
    && |s.answers| == |s.questions|
    && 0 <= s.currentQuestionIndex
    && (s.questions != [] ==> s.currentQuestionIndex < |s.questions|)
    && (s.questions == [] ==> s.currentQuestionIndex == 0)
    && (s.isGameOver ==> s.isFinished)
    && 0 <= s.score
    && 0 <= s.lives <= startLives
    && (s.isGameOver <==> s.lives == 0)
    && s.score + (startLives - s.lives) == CountAnswered(s.answers)
  }

  /** The state a new quiz starts in (App.tsx:83-91). */
  function NewSession(questions: seq<Question>, lives: int): (r: QuizState)
    requires lives >= 1
    ensures Consistent(r, lives)
    ensures r.questions == questions && r.currentQuestionIndex == 0
    ensures r.score == 0 && r.lives == lives && !r.isFinished && !r.isGameOver
    ensures forall k :: 0 <= k < |r.answers| ==> r.answers[k].None?
  {
    var answers: seq<Option<int>> := seq(|questions|, _ => None);
    CountAnsweredEmpty(answers);
    QuizState(questions, 0, 0, lives, answers, false, false)
  }

  /**
   * handleAnswer: the first answer to the current question is recorded and scored;
   * any later answer to it leaves the state as it is. A correct answer earns a point,
   * a wrong one costs a life, and losing the last life ends the game at once.
   */
  function Answered(s: QuizState, choice: int): (r: QuizState)
    requires AtQuestion(s)
    ensures r.questions == s.questions && r.currentQuestionIndex == s.currentQuestionIndex
    ensures s.answers[s.currentQuestionIndex].Some? ==> r == s
    ensures s.answers[s.currentQuestionIndex].None? ==>
      && |r.answers| == |s.answers|
      && r.answers[s.currentQuestionIndex] == Some(choice)
      && (forall k :: 0 <= k < |s.answers| && k != s.currentQuestionIndex ==> r.answers[k] == s.answers[k])
    ensures r.score >= s.score && r.lives <= s.lives
    ensures s.answers[s.currentQuestionIndex].None? ==>
      && r.score + (s.lives - r.lives) == s.score + 1
      && (r.score == s.score + 1 <==> choice == s.questions[s.currentQuestionIndex].correctOptionIndex)
    ensures s.answers[s.currentQuestionIndex].None? && r.lives == 0 ==> r.isFinished && r.isGameOver
    ensures r.lives != 0 ==> r.isFinished == s.isFinished && r.isGameOver == s.isGameOver
  {
    var i := s.currentQuestionIndex;
    if s.answers[i].Some? then s
    else
      var isCorrect := choice == s.questions[i].correctOptionIndex;
      var newScore := if isCorrect then s.score + 1 else s.score;
      var newLives := if isCorrect then s.lives else s.lives - 1;
      var answers := s.answers[i := Some(choice)];
      if newLives == 0 then
        s.(answers := answers, score := newScore, lives := newLives, isFinished := true, isGameOver := true)
      else
        s.(answers := answers, score := newScore, lives := newLives)
  }

  /**
   * handleNextQuestion: move to the next question, or, from the last one, finish the
   * quiz normally without moving. Answers, score and lives are untouched.
   */
  function Advanced(s: QuizState): (r: QuizState)
    requires AtQuestion(s)
    ensures r.questions == s.questions && r.answers == s.answers
    ensures r.score == s.score && r.lives == s.lives && r.isGameOver == s.isGameOver
    ensures 0 <= r.currentQuestionIndex < |r.questions|
    ensures s.currentQuestionIndex == |s.questions| - 1 ==>
      r.isFinished && r.currentQuestionIndex == s.currentQuestionIndex
    ensures s.currentQuestionIndex < |s.questions| - 1 ==>
      r.currentQuestionIndex == s.currentQuestionIndex + 1 && r.isFinished == s.isFinished
  {
    var next := s.currentQuestionIndex + 1;
    if next >= |s.questions| then s.(isFinished := true)
    else s.(currentQuestionIndex := next)
  }

  /**
   * handlePrevQuestion: move back one question; at the first question nothing changes.
   * Answers, score, lives and both flags are untouched.
   */
  function Retreated(s: QuizState): (r: QuizState)
    ensures r.questions == s.questions && r.answers == s.answers
    ensures r.score == s.score && r.lives == s.lives
    ensures r.isFinished == s.isFinished && r.isGameOver == s.isGameOver
    ensures s.currentQuestionIndex == 0 ==> r == s
    ensures s.currentQuestionIndex > 0 ==> r.currentQuestionIndex == s.currentQuestionIndex - 1
  {
    var prev := s.currentQuestionIndex - 1;
    if prev < 0 then s else s.(currentQuestionIndex := prev)
  }

  /** Answering an unfinished game keeps the session consistent. */
  lemma AnswerKeepsConsistent(s: QuizState, startLives: int, choice: int)
    requires Consistent(s, startLives) && s.questions != [] && !s.isFinished
    ensures AtQuestion(s) && Consistent(Answered(s, choice), startLives)
  {
    if s.answers[s.currentQuestionIndex].None? {
      CountAnsweredRecord(s.answers, s.currentQuestionIndex, choice);
      assert Answered(s, choice).answers == s.answers[s.currentQuestionIndex := Some(choice)];
    }
  }

  /** Navigation keeps the session consistent. */
  lemma NavigationKeepsConsistent(s: QuizState, startLives: int)
    requires Consistent(s, startLives) && s.questions != []
    ensures AtQuestion(s)
    ensures Consistent(Advanced(s), startLives) && Consistent(Retreated(s), startLives)
  {
  }

  /** A second answer to the same question changes nothing: the first answer wins. */
  lemma AnswerTwiceIsAnswerOnce(s: QuizState, first: int, second: int)
    requires AtQuestion(s)
    ensures AtQuestion(Answered(s, first))
    ensures Answered(Answered(s, first), second) == Answered(s, first)
  {
  }

  /** Stepping forward and back again (away from the last question) returns to the same state,
      so a recorded answer is shown again exactly as it was. */
  lemma AdvanceThenRetreat(s: QuizState)
    requires AtQuestion(s) && s.currentQuestionIndex < |s.questions| - 1
    ensures Retreated(Advanced(s)) == s
  {
  }

  /** One player action on the quiz screen. */
  datatype Action = Answer(choice: int) | Next | Previous

  /** The state after a sequence of actions; once the quiz is finished the quiz screen is gone
      and later actions have no effect. */
  function Run(s: QuizState, actions: seq<Action>): QuizState
    requires AtQuestion(s) || s.questions == [] || s.isFinished
    decreases |actions|
  {
    if actions == [] || s.isFinished || s.questions == [] then s
    else
      var t := match actions[0]
        case Answer(c) => Answered(s, c)
        case Next => Advanced(s)
        case Previous => Retreated(s);
      Run(t, actions[1..])
  }

  /**
   * Over any sequence of actions the session stays consistent, the score never falls,
   * the lives never rise, the questions never change, and a recorded answer is never
   * overwritten.
   */
  lemma {:induction false} RunKeepsInvariants(s: QuizState, startLives: int, actions: seq<Action>)
    requires Consistent(s, startLives)
    decreases |actions|
    ensures var r := Run(s, actions);
      && Consistent(r, startLives)
      && r.questions == s.questions
      && r.score >= s.score && r.lives <= s.lives
      && forall k :: 0 <= k < |s.answers| && s.answers[k].Some? ==> r.answers[k] == s.answers[k]
  {
    if !(actions == [] || s.isFinished || s.questions == []) {
      var t := match actions[0]
        case Answer(c) => Answered(s, c)
        case Next => Advanced(s)
        case Previous => Retreated(s);
      match actions[0] {
        case Answer(c) => AnswerKeepsConsistent(s, startLives, c);
        case Next => NavigationKeepsConsistent(s, startLives);
        case Previous => NavigationKeepsConsistent(s, startLives);
      }
      RunKeepsInvariants(t, startLives, actions[1..]);
    }
  }
}
