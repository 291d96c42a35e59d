/**
 * The enumerations and records of the interview engine: experience levels,
 * question types, questions (as generated and as answered), round results,
 * sessions and feedback.
 */
module Models {
  import opened Wrappers

  /** `ExperienceLevel`, a string-valued enumeration. */
  datatype ExperienceLevel = Entry | Mid | Senior {
    /** The enumeration value, which is also the key into the role topic table. */
    function Value(): string {
      match this
      case Entry => "entry"
      case Mid => "mid"
      case Senior => "senior"
    }
  }

  /** Validation of an incoming level string: exactly the three values are accepted. */
  function ParseLevel(s: string): (r: Option<ExperienceLevel>)
    ensures r.Some? ==> r.value.Value() == s
  {
    if s == "entry" then Some(Entry)
    else if s == "mid" then Some(Mid)
    else if s == "senior" then Some(Senior)
    else None
  }

  lemma ParseLevelValue(l: ExperienceLevel)
    ensures ParseLevel(l.Value()) == Some(l)
  {
  }

  /** `QuestionType`, a string-valued enumeration with seven tags. */
  datatype QuestionType =
    | Mcq | OneWord | Theory | CodeSnippet | OutputPrediction | FillBlank | CodingProblem
  {
    function Tag(): string {
      match this
      case Mcq => "mcq"
      case OneWord => "one_word"
      case Theory => "theory"
      case CodeSnippet => "code_snippet"
      case OutputPrediction => "output_prediction"
      case FillBlank => "fill_blank"
      case CodingProblem => "coding_problem"
    }
  }

  /** Validation of an incoming type string against the seven tags. */
  function ParseQuestionType(s: string): (r: Option<QuestionType>)
    ensures r.Some? ==> r.value.Tag() == s
  {
    if s == "mcq" then Some(Mcq)
    else if s == "one_word" then Some(OneWord)
    else if s == "theory" then Some(Theory)
    else if s == "code_snippet" then Some(CodeSnippet)
    else if s == "output_prediction" then Some(OutputPrediction)
    else if s == "fill_blank" then Some(FillBlank)
    else if s == "coding_problem" then Some(CodingProblem)
    else None
  }

  /** Every tag is accepted back as its own type, so the seven tags are distinct. */
  lemma ParseQuestionTypeTag(t: QuestionType)
    ensures ParseQuestionType(t.Tag()) == Some(t)
  {
  }

  /** A question as the generator hands it out (a dictionary without the
      answer-related fields). `options` is present for multiple choice only. */
  datatype QuestionDraft = QuestionDraft(
    id: string,
    qtype: QuestionType,
    text: string,
    topic: string,
    difficulty: string,
    options: Option<seq<string>>,
    correctAnswer: string)

  /** `Question`: a question as submitted and evaluated. */
  datatype Question = Question(
    id: string,
    roundNumber: int,
    qtype: QuestionType,
    text: string,
    topic: string,
    difficulty: string,
    options: Option<seq<string>>,
    correctAnswer: string,
    userAnswer: Option<string>,
    isCorrect: Option<bool>,
    timeSpent: Option<real>)

  /** `RoundResult` */
  datatype RoundResult = RoundResult(
    roundNumber: int,
    score: real,
    totalQuestions: nat,
    correctAnswers: nat,
    timeSpent: real,
    questions: seq<Question>,
    passed: bool)

  /** The ISO-8601 text of the clock reading taken when a session starts. */
  type Timestamp = string

  /** `InterviewSession` */
  datatype InterviewSession = InterviewSession(
    sessionId: string,
    targetRole: string,
    experienceLevel: ExperienceLevel,
    startTime: Timestamp,
    currentRound: int,
    completedRounds: seq<RoundResult>,
    isComplete: bool)

  /** A session as `InterviewSession(...)` creates it, with the model's defaults
      for the round, the history and the completion flag. */
  function NewSession(id: string, role: string, level: ExperienceLevel, start: Timestamp): (s: InterviewSession)
    ensures s.sessionId == id && s.targetRole == role && s.experienceLevel == level && s.startTime == start
    ensures s.currentRound == 1 && s.completedRounds == [] && !s.isComplete
  {
    InterviewSession(id, role, level, start, 1, [], false)
  }

  /** `Feedback` */
  datatype Feedback = Feedback(
    score: real,
    strongestTopics: seq<string>,
    weakestTopics: seq<string>,
    recommendations: seq<string>,
    timeSpent: map<string, real>,
    detailedAnalysis: string)
}
