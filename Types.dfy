/** The records and enumerations the quiz passes between its screens (types.ts). */
module Types {

  datatype Option<+T> = None | Some(value: T)

  /** The four difficulty levels offered by the setup screen. */
  datatype Difficulty = Iniciante | Intermediario | Avancado | Mista

  /** The seven subject areas offered by the setup screen. */
  datatype Topic = Diversos | Biblia | Liturgia | Objetos | Catecismo | Santos | Oracoes

  /** A quiz is either about a listed topic or drawn from the saved-question pool ('SAVED'). */
  datatype QuizTopic = Listed(topic: Topic) | SavedPool

  /** The string value each Difficulty member carries. */
  function DifficultyLabel(d: Difficulty): string {
    match d
    case Iniciante => "Iniciante"
    case Intermediario => "Intermedi\U{E1}rio"
    case Avancado => "Avan\U{E7}ado"
    case Mista => "Mista"
  }

  /** The string value each Topic member carries. */
  function TopicLabel(t: Topic): string {
    match t
    case Diversos => "Diversos (Misto)"
    case Biblia => "B\U{ED}blia Sagrada"
    case Liturgia => "Liturgia e Missa"
    case Objetos => "Objetos Lit\U{FA}rgicos"
    case Catecismo => "Catecismo (Doutrina)"
    case Santos => "Vida dos Santos"
    case Oracoes => "Ora\U{E7}\U{F5}es e Devo\U{E7}\U{F5}es"
  }

  /** Distinct enumeration members carry distinct strings, so a label identifies its member. */
  lemma LabelsIdentifyMembers(d1: Difficulty, d2: Difficulty, t1: Topic, t2: Topic)
    ensures DifficultyLabel(d1) == DifficultyLabel(d2) <==> d1 == d2
    ensures TopicLabel(t1) == TopicLabel(t2) <==> t1 == t2
  {
  }

  /** A multiple-choice question. The optional fields are absent when the provider left them out. */
  datatype Question = Question(
    id: string,
    questionText: string,
    options: seq<string>,
    correctOptionIndex: int,
    explanation: string,
    imageKeyword: string,
    moreInfoUrl: Option<string>,
    category: Option<string>,
    difficulty: Option<string>)

  /** The shape the declaration documents: four options (A-D) and a key in 0..3. */
  predicate WellFormedQuestion(q: Question) {
    |q.options| == 4 && 0 <= q.correctOptionIndex <= 3
  }

  datatype QuizConfig = QuizConfig(
    difficulty: Difficulty,
    topic: QuizTopic,
    numberOfQuestions: int,
    lives: int,
    avoidRepeats: bool,
    confirmAnswer: bool)

  /** The run state of one quiz: answers[k] is the option chosen for question k, if any. */
  datatype QuizState = QuizState(
    questions: seq<Question>,
    currentQuestionIndex: int,
    score: int,
    lives: int,
    answers: seq<Option<int>>,
    isFinished: bool,
    isGameOver: bool)

  /** One leaderboard row; only `group` is optional. The date is an opaque formatted string. */
  datatype LeaderboardEntry = LeaderboardEntry(
    name: string,
    group: Option<string>,
    region: string,
    score: int,
    date: string,
    difficulty: string)
}
