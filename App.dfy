/**
 * The App component (App.tsx) as an object: the screen it shows, the configuration of the
 * current quiz, the bank of saved questions, the leaderboard and the session state, with
 * the handlers the screens call. Each handler is one sequential update of these fields.
 */
module App {
  import opened Types
  import opened Session
  import opened Store
  import opened WelcomeScreen

  /** The screen being shown. */
  datatype GameState = Welcome | Playing | Finished

  /** The configuration the "Jogar Salvas" button starts with (App.tsx:251-258). */
  function SavedPoolConfig(): (c: QuizConfig)
    ensures ValidConfig(c) && c.topic == SavedPool
    ensures c.difficulty == Intermediario && c.numberOfQuestions == 10 && c.lives == 3
    ensures !c.avoidRepeats && !c.confirmAnswer
  {
    QuizConfig(Intermediario, SavedPool, 10, 3, false, false)
  }

  /**
   * The session handleStartQuiz builds for `selected`, or None when it gives up. A saved-pool
   * quiz plays the first numberOfQuestions of the reordered bank `shuffled` and gives up
   * exactly when the bank is empty; any other quiz plays what the question provider returned.
   */
  function StartedSession(saved: seq<Question>, selected: QuizConfig, shuffled: seq<Question>,
                          generated: seq<Question>): (r: Option<QuizState>)
    requires ValidConfig(selected) && multiset(shuffled) == multiset(saved)
    ensures r.None? <==> selected.topic == SavedPool && saved == []
    ensures r.Some? ==>
      && Consistent(r.value, selected.lives)
      && r.value.currentQuestionIndex == 0 && r.value.score == 0 && r.value.lives == selected.lives
      && !r.value.isFinished && !r.value.isGameOver
      && (forall k :: 0 <= k < |r.value.answers| ==> r.value.answers[k].None?)
    ensures r.Some? && selected.topic == SavedPool ==>
      && |r.value.questions| == (if selected.numberOfQuestions < |saved| then selected.numberOfQuestions else |saved|)
      && multiset(r.value.questions) <= multiset(saved)
    ensures r.Some? && selected.topic.Listed? ==> r.value.questions == generated
  {
    if selected.topic == SavedPool then
      var questions := DrawSaved(saved, shuffled, selected.numberOfQuestions);
      if questions == [] then None else Some(NewSession(questions, selected.lives))
    else
      Some(NewSession(generated, selected.lives))
  }

  /** The "Jogar Salvas" button is enabled only when its quiz cannot be refused: with a
      question in the bank the saved-pool start always produces a session. */
  lemma EnabledSavedStartStarts(saved: seq<Question>, shuffled: seq<Question>, generated: seq<Question>)
    requires CanPlaySaved(saved) && multiset(shuffled) == multiset(saved)
    ensures StartedSession(saved, SavedPoolConfig(), shuffled, generated).Some?
    ensures |StartedSession(saved, SavedPoolConfig(), shuffled, generated).value.questions| >= 1
  {
  }

  class Controller {
    var gameState: GameState
    var config: Option<QuizConfig>
    var savedQuestions: seq<Question>
    var leaderboard: seq<LeaderboardEntry>
    var quizState: QuizState
    /** The lives the current session started with. */
    ghost var startLives: int

    /**
     * The session is consistent for the lives it started with; the quiz screen is shown
     * only for an unfinished session and the result screen only for a finished one; a
     * configuration, once chosen, lies within the slider ranges.
     */
    ghost predicate Valid()
      reads this
    {
      && Consistent(quizState, startLives)
      && (gameState == Playing ==> !quizState.isFinished)
      && (gameState == Finished ==> quizState.isFinished)
      && (config.Some? ==> ValidConfig(config.value))
    }

    /** The component's first render (App.tsx:50-58): the welcome screen, an empty session
        with three lives, and the bank and leaderboard loaded from storage. */
    constructor (saved: seq<Question>, board: seq<LeaderboardEntry>)
      ensures Valid()
      ensures gameState == Welcome && config == None
      ensures savedQuestions == saved && leaderboard == board
      ensures quizState == QuizState([], 0, 0, 3, [], false, false)
    {
      gameState := Welcome;
      config := None;
      savedQuestions := saved;
      leaderboard := board;
      quizState := QuizState([], 0, 0, 3, [], false, false);
      startLives := 3;
    }

    /**
     * handleStartQuiz: remember the configuration, then either start the session that
     * StartedSession describes on the quiz screen, or (an empty saved-pool draw) leave the
     * session and the screen as they were.
     */
    method HandleStartQuiz(selected: QuizConfig, shuffled: seq<Question>, generated: seq<Question>)
      returns (started: bool)
      requires Valid() && ValidConfig(selected) && multiset(shuffled) == multiset(savedQuestions)
      modifies this
      ensures Valid()
      ensures config == Some(selected)
      ensures savedQuestions == old(savedQuestions) && leaderboard == old(leaderboard)
      ensures match StartedSession(old(savedQuestions), selected, shuffled, generated)
        case Some(s) => started && quizState == s && gameState == Playing
        case None => !started && quizState == old(quizState) && gameState == old(gameState)
    {
      config := Some(selected);
      var questions: seq<Question>;
      if selected.topic == SavedPool {
        questions := DrawSaved(savedQuestions, shuffled, selected.numberOfQuestions);
        if |questions| == 0 {
          return false;
        }
      } else {
        questions := generated;
      }
      quizState := NewSession(questions, selected.lives);
      startLives := selected.lives;
      gameState := Playing;
      started := true;
    }

    /**
     * handleAnswer, with the correctness the quiz screen reports (QuizScreen.tsx:104): the
     * session moves as Answered says, and the result screen appears in the same update
     * exactly when the last life was lost.
     */
    method HandleAnswer(index: int)
      requires Valid() && gameState == Playing && quizState.questions != []
      modifies this
      ensures Valid()
      ensures quizState == Answered(old(quizState), index)
      ensures gameState == if quizState.isGameOver then Finished else Playing
      ensures config == old(config) && savedQuestions == old(savedQuestions) && leaderboard == old(leaderboard)
    {
      AnswerKeepsConsistent(quizState, startLives, index);
      var i := quizState.currentQuestionIndex;
      if quizState.answers[i].Some? {
        return;
      }
      var newAnswers := quizState.answers[i := Some(index)];
      var isCorrect := index == quizState.questions[i].correctOptionIndex;
      var newScore := if isCorrect then quizState.score + 1 else quizState.score;
      var newLives := if isCorrect then quizState.lives else quizState.lives - 1;
      if newLives == 0 {
        gameState := Finished;
        quizState := quizState.(answers := newAnswers, score := newScore, lives := newLives,
                                isFinished := true, isGameOver := true);
      } else {
        quizState := quizState.(answers := newAnswers, score := newScore, lives := newLives);
      }
    }

    /** handleNextQuestion: the session moves as Advanced says; finishing shows the result screen. */
    method HandleNextQuestion()
      requires Valid() && gameState == Playing && quizState.questions != []
      modifies this
      ensures Valid()
      ensures quizState == Advanced(old(quizState))
      ensures gameState == if quizState.isFinished then Finished else Playing
      ensures config == old(config) && savedQuestions == old(savedQuestions) && leaderboard == old(leaderboard)
    {
      NavigationKeepsConsistent(quizState, startLives);
      var nextIndex := quizState.currentQuestionIndex + 1;
      if nextIndex >= |quizState.questions| {
        gameState := Finished;
        quizState := quizState.(isFinished := true);
        return;
      }
      quizState := quizState.(currentQuestionIndex := nextIndex);
    }

    /** handlePrevQuestion: the session moves as Retreated says; the screen stays. */
    method HandlePrevQuestion()
      requires Valid() && gameState == Playing && quizState.questions != []
      modifies this
      ensures Valid()
      ensures quizState == Retreated(old(quizState))
      ensures gameState == old(gameState) && config == old(config)
      ensures savedQuestions == old(savedQuestions) && leaderboard == old(leaderboard)
    {
      NavigationKeepsConsistent(quizState, startLives);
      var prevIndex := quizState.currentQuestionIndex - 1;
      if prevIndex < 0 {
        return;
      }
      quizState := quizState.(currentQuestionIndex := prevIndex);
    }

    /** handleRestart: start again with the remembered configuration, or go back to the
        welcome screen when there is none. */
    method HandleRestart(shuffled: seq<Question>, generated: seq<Question>) returns (started: bool)
      requires Valid() && multiset(shuffled) == multiset(savedQuestions)
      modifies this
      ensures Valid()
      ensures config == old(config)
      ensures savedQuestions == old(savedQuestions) && leaderboard == old(leaderboard)
      ensures old(config).None? ==> !started && gameState == Welcome && quizState == old(quizState)
      ensures old(config).Some? ==>
        match StartedSession(old(savedQuestions), old(config).value, shuffled, generated)
        case Some(s) => started && quizState == s && gameState == Playing
        case None => !started && quizState == old(quizState) && gameState == old(gameState)
    {
      if config.Some? {
        started := HandleStartQuiz(config.value, shuffled, generated);
      } else {
        gameState := Welcome;
        started := false;
      }
    }

    /** handleHome: back to the welcome screen, forgetting the configuration. */
    method HandleHome()
      requires Valid()
      modifies this
      ensures Valid()
      ensures gameState == Welcome && config == None
      ensures quizState == old(quizState)
      ensures savedQuestions == old(savedQuestions) && leaderboard == old(leaderboard)
    {
      gameState := Welcome;
      config := None;
    }

    /** isSaved (App.tsx:274): whether the bank holds a question with the current question's text. */
    function IsCurrentSaved(): (b: bool)
      reads this
      requires AtQuestion(quizState)
      ensures b <==> exists i :: 0 <= i < |savedQuestions|
                              && savedQuestions[i].questionText == quizState.questions[quizState.currentQuestionIndex].questionText
    {
      IsSaved(savedQuestions, quizState.questions[quizState.currentQuestionIndex])
    }

    /** toggleSaveQuestion: the bank becomes ToggleSave of it; the saved status of q's text flips. */
    method ToggleSaveQuestion(q: Question)
      requires Valid()
      modifies this
      ensures Valid()
      ensures savedQuestions == ToggleSave(old(savedQuestions), q)
      ensures IsSaved(savedQuestions, q) <==> !IsSaved(old(savedQuestions), q)
      ensures gameState == old(gameState) && config == old(config)
      ensures quizState == old(quizState) && leaderboard == old(leaderboard)
    {
      savedQuestions := ToggleSave(savedQuestions, q);
    }

    /** deleteSavedQuestion: the bank loses exactly the questions with this id. */
    method DeleteSavedQuestion(id: string)
      requires Valid()
      modifies this
      ensures Valid()
      ensures savedQuestions == DeleteById(old(savedQuestions), id)
      ensures gameState == old(gameState) && config == old(config)
      ensures quizState == old(quizState) && leaderboard == old(leaderboard)
    {
      savedQuestions := DeleteById(savedQuestions, id);
    }

    /**
     * saveToLeaderboard: without a configuration, or after a saved-pool quiz, nothing
     * changes; otherwise the session's score is recorded, under the configured difficulty's
     * label, with the group as given.
     */
    method SaveToLeaderboard(name: string, group: string, region: string, date: string)
      requires Valid()
      modifies this
      ensures Valid()
      ensures old(config).None? || old(config).value.topic == SavedPool ==> leaderboard == old(leaderboard)
      ensures old(config).Some? && old(config).value.topic.Listed? ==>
        leaderboard == Record(old(leaderboard), LeaderboardEntry(name, Some(group), region,
          old(quizState).score, date, DifficultyLabel(old(config).value.difficulty)))
      ensures gameState == old(gameState) && config == old(config)
      ensures quizState == old(quizState) && savedQuestions == old(savedQuestions)
    {
      if config.None? || config.value.topic == SavedPool {
        return;
      }
      var newEntry := LeaderboardEntry(name, Some(group), region, quizState.score, date,
                                       DifficultyLabel(config.value.difficulty));
      leaderboard := Record(leaderboard, newEntry);
    }
  }
}
