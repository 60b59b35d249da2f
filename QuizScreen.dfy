/**
 * The per-question screen (components/QuizScreen.tsx): the answer/confirm state of the
 * question on show, restored from the session when the player comes back to it, and the
 * small classifiers that decide how options, badges and buttons look.
 */
module QuizScreen {
  import opened Types
  import opened JsText
  import opened Session

  /** What the screen reports to the session through onAnswer. */
  datatype Report = Report(index: int, isCorrect: bool)

  /** The styles getOptionStyles chooses between. */
  datatype OptionLook = Correct | Wrong | Dimmed | Highlighted | Plain

  /** The badge colours getDifficultyColor chooses between. */
  datatype BadgeColor = Gray | Green | Yellow | Red

  /** The two captions of the Next button. */
  datatype NextCaption = ViewResult | NextQuestion

  class View {
    var question: Question
    const requireConfirmation: bool
    /** The committed answer. */
    var selectedOption: Option<int>
    /** The option picked but not yet confirmed, in confirmation mode. */
    var tempSelectedOption: Option<int>
    var isAnswered: bool

    /**
     * Unanswered, an option may be picked tentatively (only in confirmation mode);
     * answered, the committed and the picked option are one and the same.
     */
    ghost predicate Valid()
      reads this
    {
      && (isAnswered ==> selectedOption.Some? && tempSelectedOption == selectedOption)
      && (!isAnswered ==> selectedOption.None?)
      && (!isAnswered && !requireConfirmation ==> tempSelectedOption.None?)
    }

    /** Mounting the screen for a question, which runs the restore effect once. */
    constructor (q: Question, confirm: bool, userAnswer: Option<int>)
      ensures Valid()
      ensures question == q && requireConfirmation == confirm
      ensures isAnswered <==> userAnswer.Some?
      ensures ShowNextButton() <==> userAnswer.Some?
      ensures selectedOption == userAnswer && tempSelectedOption == userAnswer
    {
      question := q;
      requireConfirmation := confirm;
      if userAnswer.Some? {
        selectedOption := userAnswer;
        tempSelectedOption := userAnswer;
        isAnswered := true;
      } else {
        selectedOption := None;
        tempSelectedOption := None;
        isAnswered := false;
      }
    }

    /**
     * The restore effect (QuizScreen.tsx:65-77), run when the question or its recorded
     * answer changes: a recorded answer comes back as committed, no recorded answer
     * clears the screen.
     */
    method Restore(q: Question, userAnswer: Option<int>)
      modifies this
      ensures Valid()
      ensures question == q
      ensures isAnswered <==> userAnswer.Some?
      ensures ShowNextButton() <==> userAnswer.Some?
      ensures selectedOption == userAnswer && tempSelectedOption == userAnswer
    {
      question := q;
      if userAnswer.Some? {
        selectedOption := userAnswer;
        tempSelectedOption := userAnswer;
        isAnswered := true;
      } else {
        selectedOption := None;
        tempSelectedOption := None;
        isAnswered := false;
      }
    }

    /** submitAnswer: commit `index` and report whether it is the key. */
    method SubmitAnswer(index: int) returns (report: Report)
      modifies this
      ensures Valid()
      ensures selectedOption == Some(index) && tempSelectedOption == Some(index) && isAnswered
      ensures ShowNextButton()
      ensures question == old(question)
      ensures report.index == index
      ensures report.isCorrect <==> index == question.correctOptionIndex
    {
      selectedOption := Some(index);
      tempSelectedOption := Some(index);
      isAnswered := true;
      var isCorrect := index == question.correctOptionIndex;
      report := Report(index, isCorrect);
    }

    /**
     * handleOptionClick: once answered a click does nothing and reports nothing; in
     * confirmation mode it only (re)places the tentative pick; otherwise it submits.
     */
    method OptionClick(index: int) returns (report: Option<Report>)
      requires Valid()
      modifies this
      ensures Valid()
      ensures question == old(question)
      ensures old(isAnswered) ==>
        && report.None? && isAnswered
        && selectedOption == old(selectedOption) && tempSelectedOption == old(tempSelectedOption)
      ensures !old(isAnswered) && requireConfirmation ==>
        && report.None? && !isAnswered
        && selectedOption == old(selectedOption) && tempSelectedOption == Some(index)
      ensures !old(isAnswered) && !requireConfirmation ==>
        && report == Some(Report(index, index == question.correctOptionIndex))
        && isAnswered && selectedOption == Some(index) && tempSelectedOption == Some(index)
    {
      if isAnswered {
        return None;
      }
      if requireConfirmation {
        tempSelectedOption := Some(index);
        report := None;
      } else {
        var r := SubmitAnswer(index);
        report := Some(r);
      }
    }

    /** handleConfirm: submit the tentative pick if there is one; otherwise do nothing. */
    method Confirm() returns (report: Option<Report>)
      requires Valid()
      modifies this
      ensures Valid()
      ensures question == old(question)
      ensures old(tempSelectedOption).None? ==>
        && report.None? && isAnswered == old(isAnswered)
        && selectedOption == old(selectedOption) && tempSelectedOption == old(tempSelectedOption)
      ensures old(tempSelectedOption).Some? ==>
        var t := old(tempSelectedOption).value;
        && report == Some(Report(t, t == question.correctOptionIndex))
        && isAnswered && selectedOption == Some(t) && tempSelectedOption == Some(t)
    {
      if tempSelectedOption.Some? {
        var r := SubmitAnswer(tempSelectedOption.value);
        report := Some(r);
      } else {
        report := None;
      }
    }

    /** The confirm button (QuizScreen.tsx:261): shown while a tentative pick awaits confirmation,
        never together with the Next button. */
    predicate ShowConfirmButton(): (b: bool)
      reads this
      ensures b ==> !ShowNextButton()
    {
      !isAnswered && requireConfirmation && tempSelectedOption.Some?
    }

    /** The Next button (QuizScreen.tsx:315-326): shown only once the question is answered, so
        the screen offers no way forward from an unanswered question. */
    predicate ShowNextButton(): (b: bool)
      reads this
      ensures b && Valid() ==> selectedOption.Some?
    {
      isAnswered
    }

    /**
     * getOptionStyles as a classification: answered, the key is Correct, the committed
     * wrong choice is Wrong and the rest are Dimmed; unanswered, the tentative pick is
     * Highlighted in confirmation mode and the rest are Plain.
     */
    function Look(index: int): (look: OptionLook)
      reads this
      ensures look == Correct <==> isAnswered && index == question.correctOptionIndex
      ensures look == Wrong <==>
        isAnswered && selectedOption == Some(index) && index != question.correctOptionIndex
      ensures look == Dimmed ==> isAnswered
      ensures look == Highlighted <==>
        !isAnswered && requireConfirmation && tempSelectedOption == Some(index)
    {
      if isAnswered then
        if index == question.correctOptionIndex then Correct
        else if Some(index) == selectedOption && index != question.correctOptionIndex then Wrong
        else Dimmed
      else if requireConfirmation && Some(index) == tempSelectedOption then Highlighted
      else Plain
    }
  }

  /**
   * After a well-formed question is answered exactly one of its four options shows as
   * Correct, and a Wrong option shows up exactly when the committed answer missed the key.
   */
  lemma AnsweredLooks(v: View)
    requires v.Valid() && v.isAnswered && WellFormedQuestion(v.question)
    ensures v.Look(v.question.correctOptionIndex) == Correct
    ensures forall i :: 0 <= i < 4 && i != v.question.correctOptionIndex ==> v.Look(i) != Correct
    ensures (exists i :: 0 <= i < 4 && v.Look(i) == Wrong) <==>
      (0 <= v.selectedOption.value < 4 && v.selectedOption.value != v.question.correctOptionIndex)
    ensures forall i :: 0 <= i < 4 ==> v.Look(i) != Highlighted && v.Look(i) != Plain
  {
    var s := v.selectedOption.value;
    if 0 <= s < 4 && s != v.question.correctOptionIndex {
      assert v.Look(s) == Wrong;
    }
  }

  /** While the confirm button is shown, the tentative pick is the only option highlighted and
      no option shows a verdict yet. */
  lemma ConfirmButtonShowsPick(v: View)
    requires v.Valid() && v.ShowConfirmButton()
    ensures v.Look(v.tempSelectedOption.value) == Highlighted
    ensures forall i :: v.Look(i) != Correct && v.Look(i) != Wrong && v.Look(i) != Dimmed
  {
  }

  /**
   * On a screen restored from the session, the Next button is shown exactly when the session
   * has recorded an answer for the question on show, and the screen shows that answer.
   */
  lemma NextButtonFollowsSession(v: View, s: QuizState)
    requires AtQuestion(s) && v.Valid()
    requires v.selectedOption == s.answers[s.currentQuestionIndex]
    ensures v.ShowNextButton() <==> s.answers[s.currentQuestionIndex].Some?
    ensures v.ShowNextButton() ==>
      var a := s.answers[s.currentQuestionIndex].value;
      v.Look(a) == (if a == v.question.correctOptionIndex then Correct else Wrong)
  {
  }

  /** The Previous button (QuizScreen.tsx:305): shown from the second question on. */
  predicate ShowPrevButton(questionNumber: int) {
    questionNumber > 1
  }

  /** The caption of the Next button (QuizScreen.tsx:315-320), which is shown once answered. */
  function NextButtonCaption(questionNumber: int, totalQuestions: int): NextCaption {
    if questionNumber == totalQuestions then ViewResult else NextQuestion
  }

  /**
   * The buttons tell the truth about the session: on the screen of an unfinished session
   * (question number = index + 1), Next is captioned "Ver Resultado" exactly when it will
   * finish the quiz, and Previous is shown exactly when it will move.
   */
  lemma ButtonsMatchNavigation(s: QuizState)
    requires AtQuestion(s) && !s.isFinished
    ensures NextButtonCaption(s.currentQuestionIndex + 1, |s.questions|) == ViewResult
      <==> Advanced(s).isFinished
    ensures ShowPrevButton(s.currentQuestionIndex + 1)
      <==> Retreated(s).currentQuestionIndex != s.currentQuestionIndex
  {
  }

  /**
   * getDifficultyColor: gray without a label (absent or empty); otherwise the first of
   * 'iniciante', 'intermedi', 'avan' found in the lower-cased label picks green, yellow or
   * red, and a label with none of them is gray.
   */
  function DifficultyColor(diff: Option<string>): (c: BadgeColor)
    ensures diff.None? ==> c == Gray
    ensures c == Green <==> diff.Some? && Includes(ToLower(diff.value), "iniciante")
    ensures c == Yellow <==> diff.Some? && !Includes(ToLower(diff.value), "iniciante")
                                        && Includes(ToLower(diff.value), "intermedi")
    ensures c == Red <==> diff.Some? && !Includes(ToLower(diff.value), "iniciante")
                                     && !Includes(ToLower(diff.value), "intermedi")
                                     && Includes(ToLower(diff.value), "avan")
  {
    if diff.None? || diff.value == "" then Gray
    else
      var d := ToLower(diff.value);
      if Includes(d, "iniciante") then Green
      else if Includes(d, "intermedi") then Yellow
      else if Includes(d, "avan") then Red
      else Gray
  }

  /** A label that starts with a capital A-Z followed by no capital
      lower-cases to the lower-case letter followed by the same code points. */
  lemma LowerCapitalized(c: char, rest: string)
    requires 'A' <= c <= 'Z' && forall i :: 0 <= i < |rest| ==> !IsCapital(rest[i])
    ensures ToLower([c] + rest) == [(c as int + 32) as char] + rest
  {
    var s := [c] + rest;
    assert s[0] == c && s[1..] == rest;
    assert LowerChar(c) == [(c as int + 32) as char];
    ToLowerUnchanged(rest);
    assert ToLower(s) == LowerChar(s[0]) + ToLower(s[1..]);
  }

  /** The badge of a label that starts with a capital A-Z and has no other capital is decided
      by the lower-cased label d alone. */
  lemma CapitalizedColor(c: char, tail: string, d: string)
    requires 'A' <= c <= 'Z' && forall i :: 0 <= i < |tail| ==> !IsCapital(tail[i])
    requires d == [(c as int + 32) as char] + tail
    ensures DifficultyColor(Some([c] + tail)) ==
      if Includes(d, "iniciante") then Green
      else if Includes(d, "intermedi") then Yellow
      else if Includes(d, "avan") then Red
      else Gray
  {
    LowerCapitalized(c, tail);
  }

  /** The beginner label is green. */
  lemma BeginnerIsGreen()
    ensures DifficultyColor(Some(DifficultyLabel(Iniciante))) == Green
  {
    assert DifficultyLabel(Iniciante) == ['I'] + "niciante";
    CapitalizedColor('I', "niciante", "iniciante");
    assert Includes("iniciante", "iniciante");
  }

  /** The intermediate label is yellow. */
  lemma IntermediateIsYellow()
    ensures DifficultyColor(Some(DifficultyLabel(Intermediario))) == Yellow
  {
    var d := "intermedi\U{E1}rio";
    assert DifficultyLabel(Intermediario) == ['I'] + d[1..];
    YellowWord(d);
  }

  /** A capitalised "intermediário" is yellow: its lower-cased form d holds "intermedi" and
      not "iniciante". */
  lemma YellowWord(d: string)
    requires d == "intermedi\U{E1}rio"
    ensures DifficultyColor(Some(['I'] + d[1..])) == Yellow
  {
    CapitalizedColor('I', d[1..], d);
    NotBeginnerWord(d);
    assert d[..9] == "intermedi";
  }

  /** 'iniciante' does not occur in a 13-code-point word that starts "inter". */
  lemma NotBeginnerWord(d: string)
    requires |d| == 13 && d[..5] == "inter"
    ensures !Includes(d, "iniciante")
  {
    IncludesMeansOccurs(d, "iniciante");
    forall i | 0 <= i <= 4 ensures !OccursAt(d, "iniciante", i) {
      if i == 0 {
        assert d[2] == "inter"[2];
        assert d[i..i + 9][2] != "iniciante"[2];
      } else {
        assert d[i] == "inter"[i];
        assert d[i..i + 9][0] != "iniciante"[0];
      }
    }
  }

  /** The advanced label is red. */
  lemma AdvancedIsRed()
    ensures DifficultyColor(Some(DifficultyLabel(Avancado))) == Red
  {
    var d := "avan\U{E7}ado";
    assert DifficultyLabel(Avancado) == ['A'] + d[1..];
    CapitalizedColor('A', d[1..], d);
    assert d[..4] == "avan";
  }

  /** The label the provider gives mixed-level questions without a level of their own is gray. */
  lemma GeneralIsGray()
    ensures DifficultyColor(Some("Geral")) == Gray
  {
    var d := "geral";
    assert "Geral" == ['G'] + d[1..];
    CapitalizedColor('G', d[1..], d);
    IncludesMeansOccurs(d, "avan");
    forall i | 0 <= i <= 1 ensures !OccursAt(d, "avan", i) {
      assert d[i + 1] != "avan"[1];
    }
  }
}
