/**
 * The result screen (components/ResultScreen.tsx): the closing message, the celebration,
 * the labels it shows and shares, the printed answer key, and the ranking form that lets a
 * result be saved once.
 */
module ResultScreen {
  import opened Types
  import opened JsText

  /** The four closing messages, from the most to the least urgent. */
  datatype Tier = OutOfLives | Excellent | VeryGood | KeepGoing

  /**
   * The percentage the screen computes, in exact arithmetic. The floating-point quotient
   * agrees with it on every comparison the screen makes, since total is at most 30.
   */
  function Percentage(score: int, total: int): real
    requires total > 0
  {
    (score as real / total as real) * 100.0
  }

  /**
   * The message if-chain (ResultScreen.tsx:61-73) with integer comparisons: game over comes
   * first; then a full score; then at least 60 percent; otherwise the encouragement. With no
   * questions the quotient is not a number, so neither score tier applies.
   */
  function MessageTier(isGameOver: bool, score: int, total: int): (t: Tier)
    ensures t == OutOfLives <==> isGameOver
    ensures t == Excellent ==> total > 0 && score == total
    ensures t == VeryGood ==> total > 0 && 100 * score >= 60 * total
  {
    if isGameOver then OutOfLives
    else if total > 0 && score == total then Excellent
    else if total > 0 && 100 * score >= 60 * total then VeryGood
    else KeepGoing
  }

  /** The integer tiers are the percentage tiers: Excellent exactly at 100 percent, and
      VeryGood exactly from 60 percent up to, but not including, 100 percent. */
  lemma MessageTierMatchesPercentage(isGameOver: bool, score: int, total: int)
    requires !isGameOver && total > 0
    ensures MessageTier(isGameOver, score, total) == Excellent <==> Percentage(score, total) == 100.0
    ensures MessageTier(isGameOver, score, total) == VeryGood <==>
      Percentage(score, total) != 100.0 && Percentage(score, total) >= 60.0
  {
    var t := total as real;
    var s := score as real;
    var q := s / t;
    assert q * t == s;
    PercentCompare(q * 100.0, t, s);
    assert (100 * score) as real == s * 100.0;
    assert (60 * total) as real == 60.0 * t;
  }

  /** For a positive t, p = 100 s / t compares with 100 and 60 as 100 s compares with 100 t
      and 60 t. */
  lemma PercentCompare(p: real, t: real, s: real)
    requires t > 0.0 && p * t == s * 100.0
    ensures p == 100.0 <==> s == t
    ensures p >= 60.0 <==> s * 100.0 >= 60.0 * t
  {
    assert (p - 100.0) * t == s * 100.0 - 100.0 * t;
    assert (p - 60.0) * t == s * 100.0 - 60.0 * t;
    if p > 100.0 {
      assert (p - 100.0) * t > 0.0;
    } else if p < 100.0 {
      assert (100.0 - p) * t > 0.0;
    }
    if p >= 60.0 {
      assert (p - 60.0) * t >= 0.0;
    } else {
      assert (60.0 - p) * t > 0.0;
    }
  }

  /** A better score never earns a worse message. */
  lemma MessageTierMonotone(score1: int, score2: int, total: int)
    requires 0 <= score1 <= score2 <= total
    ensures MessageTier(false, score2, total) == KeepGoing ==> MessageTier(false, score1, total) == KeepGoing
    ensures MessageTier(false, score1, total) == Excellent ==> MessageTier(false, score2, total) == Excellent
  {
  }

  /** The confetti effect (ResultScreen.tsx:35): not game over and at least 60 percent. */
  predicate Celebrates(isGameOver: bool, score: int, total: int): (b: bool)
    ensures b ==> !isGameOver && score > 0
  {
    !isGameOver && total > 0 && 100 * score >= 60 * total
  }

  /** Confetti falls exactly with the two best messages. */
  lemma CelebratesWithBestTiers(isGameOver: bool, score: int, total: int)
    requires 0 <= score <= total
    ensures Celebrates(isGameOver, score, total) <==>
      MessageTier(isGameOver, score, total) in {Excellent, VeryGood}
  {
  }

  /** The topic line of the shared text: the bank's name for a saved-pool quiz. */
  function ShareTopicLabel(config: QuizConfig): (s: string)
    ensures config.topic.Listed? ==> s == TopicLabel(config.topic.topic)
  {
    if config.topic == SavedPool then "Banco de Quest\U{F5}es" else TopicLabel(config.topic.topic)
  }

  /** The difficulty line of the shared text: "mixed (saved)" for a saved-pool quiz. */
  function ShareDifficultyLabel(config: QuizConfig): (s: string)
    ensures config.topic.Listed? ==> s == DifficultyLabel(config.difficulty)
  {
    if config.topic == SavedPool then "Misto (Salvas)" else DifficultyLabel(config.difficulty)
  }

  /** The subtitle under the heading (ResultScreen.tsx:195). */
  function Subtitle(config: QuizConfig): (s: string)
    ensures config.topic.Listed? ==>
      s == TopicLabel(config.topic.topic) + " \U{2022} " + DifficultyLabel(config.difficulty)
  {
    if config.topic == SavedPool then "Perguntas Salvas"
    else TopicLabel(config.topic.topic) + " \U{2022} " + DifficultyLabel(config.difficulty)
  }

  /** A saved-pool result is never labelled as a listed topic or a listed difficulty, so the
      shared text and the subtitle tell the two kinds of quiz apart. */
  lemma SavedPoolLabelsStandApart(config: QuizConfig, t: Topic, d: Difficulty)
    requires config.topic == SavedPool
    ensures ShareTopicLabel(config) != TopicLabel(t)
    ensures ShareDifficultyLabel(config) != DifficultyLabel(d)
    ensures Subtitle(config) != TopicLabel(t) + " \U{2022} " + DifficultyLabel(d)
  {
    var sub := TopicLabel(t) + " \U{2022} " + DifficultyLabel(d);
    assert TopicLabel(t)[0] != 'P' by {
      match t
      case Diversos =>
      case Biblia =>
      case Liturgia =>
      case Objetos =>
      case Catecismo =>
      case Santos =>
      case Oracoes =>
    }
    assert sub[0] == TopicLabel(t)[0];
  }

  /** One line of the printed answer key (ResultScreen.tsx:166): the key's letter and text. */
  function AnswerKey(q: Question): (key: (char, string))
    requires WellFormedQuestion(q)
    ensures 'a' <= key.0 <= 'd'
    ensures key.0 as int - 'a' as int == q.correctOptionIndex
    ensures key.1 == q.options[q.correctOptionIndex]
  {
    (OptionLetter(q.correctOptionIndex), q.options[q.correctOptionIndex])
  }

  /** Distinct options get distinct letters, so the printed letter names one option. */
  lemma AnswerKeyLetterNamesOption(q1: Question, q2: Question)
    requires WellFormedQuestion(q1) && WellFormedQuestion(q2)
    ensures AnswerKey(q1).0 == AnswerKey(q2).0 <==> q1.correctOptionIndex == q2.correctOptionIndex
  {
  }

  /** What the form hands to onSaveScore: the fields as typed, untrimmed. */
  datatype Submission = Submission(name: string, group: string, region: string)

  class View {
    const score: int
    const total: int
    const config: QuizConfig
    const isGameOver: bool
    var name: string
    var group: string
    var region: string
    var saved: bool

    /** The screen as first rendered: empty fields, nothing saved. */
    constructor (score: int, total: int, config: QuizConfig, isGameOver: bool)
      ensures this.score == score && this.total == total
      ensures this.config == config && this.isGameOver == isGameOver
      ensures name == [] && group == [] && region == [] && !saved
    {
      this.score := score;
      this.total := total;
      this.config := config;
      this.isGameOver := isGameOver;
      name := [];
      group := [];
      region := [];
      saved := false;
    }

    /** The ranking form (ResultScreen.tsx:205): only for an unsaved, finished (not lost)
        quiz on a listed topic that scored at least a point. */
    predicate ShowRankingForm(): (b: bool)
      reads this
      ensures b ==> !saved && config.topic.Listed?
    {
      !saved && !isGameOver && score > 0 && config.topic != SavedPool
    }

    /** Typing into the three inputs. */
    method Edit(newName: string, newGroup: string, newRegion: string)
      modifies this
      ensures name == newName && group == newGroup && region == newRegion
      ensures saved == old(saved)
    {
      name := newName;
      group := newGroup;
      region := newRegion;
    }

    /**
     * handleSave, reachable through the form: with a name and a region that are not blank
     * the fields go to onSaveScore as typed (the group may be empty) and the screen is marked
     * saved, which hides the form, so a result is saved at most once; otherwise nothing happens.
     */
    method HandleSave() returns (submission: Option<Submission>)
      requires ShowRankingForm()
      modifies this
      ensures name == old(name) && group == old(group) && region == old(region)
      ensures submission.Some? <==> Trim(name) != [] && Trim(region) != []
      ensures submission.Some? ==> submission.value == Submission(name, group, region)
      ensures saved <==> submission.Some?
      ensures ShowRankingForm() <==> submission.None?
    {
      if Trim(name) != [] && Trim(region) != [] {
        submission := Some(Submission(name, group, region));
        saved := true;
      } else {
        submission := None;
      }
    }
  }
}
