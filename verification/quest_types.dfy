/** The records of the quest platform's front end: quest metadata and quest content. */
module QuestTypes {
  import opened Options

  /** The instant `new Date(text)` yields for a stored timestamp string: a count of
      milliseconds since the epoch, or the Invalid Date an unparseable string gives. */
  datatype Instant = At(ms: int) | InvalidDate

  /** Quest metadata. The two window bounds are mandatory; the audit timestamps are optional
      and are kept as the strings the back end sends. */
  datatype Quest = Quest(
    id: string,
    title: string,
    description: string,
    activeFrom: Instant,
    activeTo: Instant,
    createdAt: Option<string>,
    updatedAt: Option<string>)

  /** The `q => q.id === id` callbacks of the pages. */
  function WithId(id: string): (matches: Quest -> bool)
    ensures forall q :: matches(q) <==> q.id == id
  {
    (q: Quest) => q.id == id
  }

  /** The closed set of question kinds. */
  datatype QuestionType = SingleChoice | MultipleChoice | Text

  /** The string literal each kind travels as. */
  function TypeName(t: QuestionType): (name: string)
    ensures ParseQuestionType(name) == Some(t)
  {
    match t
    case SingleChoice => "single_choice"
    case MultipleChoice => "multiple_choice"
    case Text => "text"
  }

  /** Reads a kind back from its literal; any other string is not a question kind. */
  function ParseQuestionType(name: string): (t: Option<QuestionType>)
    ensures t.Some? <==> name == "single_choice" || name == "multiple_choice" || name == "text"
  {
    if name == "single_choice" then Some(SingleChoice)
    else if name == "multiple_choice" then Some(MultipleChoice)
    else if name == "text" then Some(Text)
    else None
  }

  /** Parsing accepts only the literal `TypeName` produces. */
  lemma ParsedTypeNamesItself(name: string, t: QuestionType)
    requires ParseQuestionType(name) == Some(t)
    ensures TypeName(t) == name
  {
  }

  datatype QuestionOption = QuestionOption(id: string, text: string)

  /** `correct_answer` when present: one string, or a list of strings. */
  datatype CorrectAnswer = OneAnswer(answer: string) | ManyAnswers(answers: seq<string>)

  datatype Question = Question(
    id: string,
    kind: QuestionType,
    text: string,
    options: Option<seq<QuestionOption>>,
    correctAnswer: Option<CorrectAnswer>,
    points: int,
    explanation: Option<string>,
    order: int)

  /** Session settings; only the time limit is optional. */
  datatype QuestSettings = QuestSettings(
    shuffleQuestions: bool,
    showCorrectAnswers: bool,
    attemptsAllowed: int,
    timeLimitMinutes: Option<int>)

  datatype QuestContent = QuestContent(questions: seq<Question>, settings: QuestSettings)

  /** What the content fetch returns when the back end answers 404: no questions,
      no shuffling, answers shown, one attempt, no time limit. */
  const NotFoundContent: QuestContent :=
    QuestContent([], QuestSettings(false, true, 1, None))
}
