/**
 * The interview engine: it keeps the active sessions and, per session, the
 * hashes of the questions already handed out; it builds each round's
 * question list without repeats, grades a submitted round and moves the
 * session on.
 *
 * Oracles: the session identifier (`uuid4`) and the start time are
 * parameters; the question hash (`md5(text).hexdigest()[:10]`) is the
 * engine's `questionHash` function; `draws(j)` is what the j-th generation
 * attempt of a round draws, `fallbacks(i)` what the i-th template question
 * draws, and `judge(i)` the generation service's reply to the grading
 * prompt for the i-th submitted answer (the empty string when the call
 * fails).
 */
module InterviewLogic {
  import opened Wrappers
  import opened PyStr
  import opened Models
  import opened Config
  import opened QuestionBank
  import opened Ranking
  import opened Evaluation

  // ================================================================ grading

  /** `_evaluate_with_llm_if_needed`: exact and whitespace rules go to the
      evaluator; theory and code-snippet answers are judged by the service's
      score (correct from 70 up), falling back to the evaluator when the reply
      is not an integer; coding answers need more than 30 visible characters. */
  function JudgeAnswer(q: Question, answer: string, judgeReply: string): (ok: bool)
    ensures q.qtype in {Mcq, OneWord, FillBlank, OutputPrediction} ==> ok == EvaluateAnswer(q, answer)
    ensures q.qtype == CodingProblem && ok ==> EvaluateAnswer(q, answer)
  {
    match q.qtype
    case Theory => (match ParseInt(Strip(judgeReply)) case Some(n) => n >= 70 case None => EvaluateAnswer(q, answer))
    case CodeSnippet => (match ParseInt(Strip(judgeReply)) case Some(n) => n >= 70 case None => EvaluateAnswer(q, answer))
    case CodingProblem => |Strip(answer)| > 30
    case _ => EvaluateAnswer(q, answer)
  }

  lemma DigitsHaveNoSpace(s: string)
    requires forall i :: 0 <= i < |s| ==> !IsSpace(s[i])
    requires s != ""
    ensures Strip(s) == s
  {
    StripCharacterization("", s, "");
    assert "" + s + "" == s;
  }

  /** A theory or code-snippet answer the service scores `n` is correct exactly
      when n ≥ 70, and a failed call (empty reply) leaves the verdict to the
      evaluator. */
  lemma JudgeUsesServiceScore(q: Question, answer: string, n: int)
    requires q.qtype == Theory || q.qtype == CodeSnippet
    ensures JudgeAnswer(q, answer, IntToString(n)) <==> n >= 70
    ensures JudgeAnswer(q, answer, "") == EvaluateAnswer(q, answer)
  {
    var s := IntToString(n);
    forall i | 0 <= i < |s| ensures !IsSpace(s[i]) {
      if n >= 0 {
        assert IsDigit(s[i]);
      } else if i > 0 {
        assert s[i] == NatToString(-n)[i - 1];
        assert IsDigit(s[i]);
      }
    }
    DigitsHaveNoSpace(s);
    IntToStringRoundTrip(n);
    assert Strip("") == "";
  }

  /** The engine is stricter than the evaluator on coding problems (more than
      30 against more than 20 visible characters): what it accepts the
      evaluator accepts, and an answer of 25 letters shows the converse fails. */
  lemma CodingJudgeStricter(q: Question, answer: string, judgeReply: string)
    requires q.qtype == CodingProblem
    ensures JudgeAnswer(q, answer, judgeReply) ==> EvaluateAnswer(q, answer)
    ensures var a := seq(25, _ => 'x');
            EvaluateAnswer(q, a) && !JudgeAnswer(q, a, judgeReply)
  {
    var a := seq(25, _ => 'x');
    DigitsHaveNoSpace(a);
  }

  /** An optional key of a submitted answer: left out of the dictionary,
      present with the value `None`, or present with a value. The request
      layer fills every key, sending `None` for a field the client omits. */
  datatype Field<T> = Absent | Null | Given(value: T)

  /** `q_data.get(key, default)`: the default only when the key is absent;
      a key present with `None` reads as `None`. */
  function GetKey<T>(f: Field<T>, default: T): (r: Option<T>)
    ensures r.None? <==> f.Null?
    ensures f.Absent? ==> r == Some(default)
    ensures f.Given? ==> r == Some(f.value)
  {
    match f
    case Absent => Some(default)
    case Null => None
    case Given(v) => Some(v)
  }

  /** One submitted answer, as the client sends it; keys read with `.get`
      are optional. `options` reads as `None` whether absent or `None`. */
  datatype Answer = Answer(
    questionId: string,
    qtype: string,
    questionText: string,
    topic: Field<string>,
    difficulty: Field<string>,
    options: Option<seq<string>>,
    correctAnswer: string,
    userAnswer: string,
    timeSpent: Field<real>)

  /** An answer the `Question` constructor accepts: its type names a question
      type, and its topic and difficulty, typed `str`, are not `None`. For
      any other answer the constructor raises. */
  predicate Admissible(a: Answer) {
    ParseQuestionType(a.qtype).Some? && !a.topic.Null? && !a.difficulty.Null?
  }

  /** The question recorded for an admissible answer: the `.get` defaults
      fill the absent keys, and the verdict comes from `JudgeAnswer` with the
      service's reply `judgeReply`. */
  function AnsweredQuestion(a: Answer, round: int, judgeReply: string): (q: Question)
    requires Admissible(a)
    ensures q.roundNumber == round && q.qtype.Tag() == a.qtype && q.id == a.questionId
    ensures Some(q.topic) == GetKey(a.topic, "Unknown") && Some(q.difficulty) == GetKey(a.difficulty, "medium")
    ensures q.userAnswer == Some(a.userAnswer) && q.isCorrect.Some? && q.timeSpent == GetKey(a.timeSpent, 0.0)
  {
    var q := Question(a.questionId, round, ParseQuestionType(a.qtype).value, a.questionText,
                      GetKey(a.topic, "Unknown").value, GetKey(a.difficulty, "medium").value, a.options,
                      a.correctAnswer, Some(a.userAnswer), None, GetKey(a.timeSpent, 0.0));
    q.(isCorrect := Some(JudgeAnswer(q, a.userAnswer, judgeReply)))
  }

  /** The `ValidationError` the `Question` constructor raises; its detail
      text is not modelled. */
  const InvalidAnswer := "ValidationError: invalid answer"

  /** The graded questions of a submission, one per answer and in order (the
      i-th answer judged with `judge(i)`), or a rejection when any answer is
      not admissible. */
  function GradedQuestions(answers: seq<Answer>, round: int, judge: nat -> string): (r: Result<seq<Question>>)
    ensures r.Success? <==> forall i :: 0 <= i < |answers| ==> Admissible(answers[i])
    ensures r.Failure? ==> r.error == InvalidAnswer
    ensures r.Success? ==> |r.value| == |answers|
  {
    if forall i :: 0 <= i < |answers| ==> Admissible(answers[i]) then
      Success(seq(|answers|, i requires 0 <= i < |answers| => AnsweredQuestion(answers[i], round, judge(i))))
    else Failure(InvalidAnswer)
  }

  /** The grading loop of `submit_round`. */
  method GradeAnswers(answers: seq<Answer>, round: int, judge: nat -> string) returns (r: Result<seq<Question>>)
    ensures r == GradedQuestions(answers, round, judge)
  {
    var questions: seq<Question> := [];
    for i := 0 to |answers|
      invariant |questions| == i
      invariant forall j :: 0 <= j < i ==> Admissible(answers[j]) && questions[j] == AnsweredQuestion(answers[j], round, judge(j))
    {
      var a := answers[i];
      var t := ParseQuestionType(a.qtype);
      var topic := GetKey(a.topic, "Unknown");
      var difficulty := GetKey(a.difficulty, "medium");
      if t.None? || topic.None? || difficulty.None? {
        assert !Admissible(answers[i]);
        return Failure(InvalidAnswer);
      }
      var q := Question(a.questionId, round, t.value, a.questionText, topic.value, difficulty.value, a.options,
                        a.correctAnswer, Some(a.userAnswer), None, GetKey(a.timeSpent, 0.0));
      q := q.(isCorrect := Some(JudgeAnswer(q, a.userAnswer, judge(i))));
      questions := questions + [q];
    }
    var spec := GradedQuestions(answers, round, judge);
    assert spec.Success?;
    assert forall j :: 0 <= j < |answers| ==> spec.value[j] == questions[j];
    assert spec.value == questions;
    r := Success(questions);
  }

  // ================================================================ template questions

  /** The engine's topic choice: a random topic of the role and level, or
      `General` when there is none. */
  function PickTopic(role: string, level: string, pick: nat): (t: string)
    ensures t in TopicsFor(role, level)
  {
    var topics := TopicsFor(role, level);
    if |topics| > 0 then Choice(topics, pick) else "General"
  }

  /** The random outcomes one template question consumes. */
  datatype FallbackDraw = FallbackDraw(topicPick: nat, typePick: nat, uid: string)

  /** `_generate_fallback_question`: a template question of the round's kind,
      always of medium difficulty. */
  function FallbackQuestion(round: int, role: string, level: string, d: FallbackDraw): QuestionDraft {
    var topic := PickTopic(role, level, d.topicPick);
    if round == 1 then
      if Choice(Round1Types, d.typePick) == Mcq then FallbackMcq(topic, "medium", d.uid)
      else FallbackOneWord(topic, "medium", d.uid)
    else if round == 2 then
      match Choice(Round2Types, d.typePick)
      case Theory => FallbackTheory(topic, "medium", d.uid)
      case CodeSnippet => FallbackCodeSnippet(topic, "medium", d.uid)
      case OutputPrediction => FallbackCodeSnippet(topic, "medium", d.uid)
      case _ => FallbackFillBlank(topic, "medium", d.uid)
    else FallbackCodingProblem(topic, "medium", d.uid)
  }

  /** A template question is recognisable by its identifier, has medium
      difficulty, is on one of the role's topics and is of the round's kind:
      multiple choice or one-word in round 1; theory, code snippet or
      fill-in-the-blank in round 2 (an output-prediction draw yields the
      code-snippet template); a coding problem in any other round. */
  lemma FallbackQuestionShape(round: int, role: string, level: string, d: FallbackDraw)
    ensures var q := FallbackQuestion(round, role, level, d);
            && IsTemplateId(q.id) && q.difficulty == "medium" && q.topic in TopicsFor(role, level)
            && (round == 1 ==> q.qtype in {Mcq, OneWord})
            && (round == 2 ==> q.qtype in {Theory, CodeSnippet, FillBlank})
            && (round != 1 && round != 2 ==> q.qtype == CodingProblem)
  {
    var topic := PickTopic(role, level, d.topicPick);
    var q := FallbackQuestion(round, role, level, d);
    if round == 1 {
      if Choice(Round1Types, d.typePick) == Mcq {
        assert q == FallbackMcq(topic, "medium", d.uid);
      } else {
        assert q == FallbackOneWord(topic, "medium", d.uid);
      }
    } else if round == 2 {
      FallbackRound2Shape(role, level, d);
    } else {
      assert q == FallbackCodingProblem(topic, "medium", d.uid);
    }
  }

  lemma FallbackRound2Shape(role: string, level: string, d: FallbackDraw)
    ensures var q := FallbackQuestion(2, role, level, d);
            && IsTemplateId(q.id) && q.difficulty == "medium" && q.topic in TopicsFor(role, level)
            && q.qtype in {Theory, CodeSnippet, FillBlank}
  {
    var topic := PickTopic(role, level, d.topicPick);
    var q := FallbackQuestion(2, role, level, d);
    var t := Choice(Round2Types, d.typePick);
    if t == Theory {
      assert q == FallbackTheory(topic, "medium", d.uid);
    } else if t == CodeSnippet || t == OutputPrediction {
      assert q == FallbackCodeSnippet(topic, "medium", d.uid);
    } else {
      assert q == FallbackFillBlank(topic, "medium", d.uid);
    }
  }

  /** One generation attempt of the engine with the draw `d`: a topic picked
      by the engine, then `generate_question` for that topic. */
  function RoundAttempt(round: int, role: string, level: string, d: Draw): QuestionDraft {
    GeneratedQuestion(round, role, level, PickTopic(role, level, d.topicPick), d)
  }

  /** The engine's generation attempts for a session of `role` at `level`:
      the j-th uses the draw `draws(j)`. */
  function Attempts(round: int, role: string, level: string, draws: nat -> Draw): nat -> QuestionDraft {
    (j: nat) => RoundAttempt(round, role, level, draws(j))
  }

  /** The round's template questions: the i-th is built from `fallbacks(i)`. */
  function Templates(round: int, role: string, level: string, fallbacks: nat -> FallbackDraw): nat -> QuestionDraft {
    (i: nat) => FallbackQuestion(round, role, level, fallbacks(i))
  }

  /** What an attempt yields: a question of the round's kind on one of the
      role's topics, and never one with a template identifier. */
  lemma RoundAttemptShape(round: int, role: string, level: string, d: Draw)
    ensures var q := RoundAttempt(round, role, level, d);
            && !IsTemplateId(q.id)
            && q.topic in TopicsFor(role, level)
            && (round == 1 ==> q.qtype in {Mcq, OneWord})
            && (round == 2 ==> q.qtype in {Theory, CodeSnippet, FillBlank})
            && (round != 1 && round != 2 ==> q.qtype == CodingProblem && q.difficulty == "easy")
  {
    var topic := PickTopic(role, level, d.topicPick);
    GeneratedQuestionShape(round, role, level, topic, d);
    GeneratedIsNotTemplate(round, role, level, topic, d);
  }

  // ================================================================ responses

  datatype StartResponse = StartResponse(
    sessionId: string,
    message: string,
    currentRound: int,
    totalQuestions: nat,
    questions: seq<QuestionDraft>)

  datatype SubmitResponse =
    | SessionNotFound(error: string)
      /** An answer could not be turned into a question: the source raises. */
    | Rejected(error: string)
    | RoundFailed(round: int, score: real, passingScore: int, feedback: Feedback)
    | InterviewCompleted(round: int, score: real, feedback: Feedback, message: string)
    | NextRound(currentRound: int, previousScore: real, questions: seq<QuestionDraft>, message: string)

  datatype SessionStatus = SessionStatus(
    sessionId: string,
    targetRole: string,
    experienceLevel: ExperienceLevel,
    currentRound: int,
    isComplete: bool,
    completedRounds: nat,
    startTime: Timestamp)

  predicate NoDuplicates(s: seq<string>) {
    forall i, j :: 0 <= i < j < |s| ==> s[i] != s[j]
  }

  /** What every stored round result satisfies. */
  predicate WellFormedResult(r: RoundResult) {
    && r.roundNumber in RoundSettings
    && 0.0 <= r.score <= 100.0
    && r.totalQuestions == |r.questions|
    && r.correctAnswers <= r.totalQuestions
  }

  /** What every stored session satisfies: its round is 1, 2 or 3, its results
      are well formed, and once past round 1 it has answered at least one
      question (so the overall score of a completed interview is defined). */
  predicate ValidSession(s: InterviewSession) {
    && s.currentRound in RoundSettings
    && (forall i :: 0 <= i < |s.completedRounds| ==> WellFormedResult(s.completedRounds[i]))
    && (s.currentRound > 1 ==> SumTotals(s.completedRounds) > 0)
  }

  lemma SumTotalsAppend(rs: seq<RoundResult>, r: RoundResult)
    ensures SumTotals(rs + [r]) == SumTotals(rs) + r.totalQuestions
  {
    assert (rs + [r])[..|rs|] == rs;
  }

  /** The result `submit_round` records for the graded questions `qs` of
      `round`: well formed, passed exactly when the score reaches the round's
      passing score, and a passed round 1 or 2 had at least one question. */
  function RoundResultOf(round: int, qs: seq<Question>, timeSpent: real): (r: RoundResult)
    requires round in RoundSettings
    ensures WellFormedResult(r) && r.roundNumber == round && r.questions == qs && r.timeSpent == timeSpent
    ensures r.passed <==> r.score >= PassingScore(round) as real
    ensures r.passed && round != 3 ==> r.totalQuestions > 0
  {
    var score := Score(NumCorrect(qs), |qs|);
    ScoreReaches(NumCorrect(qs), |qs|, PassingScore(round));
    RoundResult(round, score, |qs|, NumCorrect(qs), timeSpent, qs, score >= PassingScore(round) as real)
  }

  /** The session once `result`, the result of its current round, is
      recorded: the result is appended and exactly one outcome applies. A
      failed round ends the interview at that round; a passed round 3
      completes it; any other passed round moves to the next round. The
      session's identity never changes and a complete session stays
      complete (nothing stops a complete session from being graded again). */
  function AfterRound(before: InterviewSession, result: RoundResult): (after: InterviewSession)
    ensures after.completedRounds == before.completedRounds + [result]
    ensures after.sessionId == before.sessionId && after.targetRole == before.targetRole
    ensures after.experienceLevel == before.experienceLevel && after.startTime == before.startTime
    ensures before.isComplete ==> after.isComplete
    ensures !result.passed ==> after.isComplete && after.currentRound == before.currentRound
    ensures result.passed && before.currentRound == 3 ==> after.isComplete && after.currentRound == 3
    ensures result.passed && before.currentRound != 3 ==>
              after.currentRound == before.currentRound + 1 && after.isComplete == before.isComplete
  {
    var recorded := before.(completedRounds := before.completedRounds + [result]);
    if !result.passed || before.currentRound == 3 then recorded.(isComplete := true)
    else recorded.(currentRound := before.currentRound + 1)
  }

  /** Recording a graded round keeps a session valid: its round stays within
      1..3 and a session that moved past round 1 has answered questions. */
  lemma AfterRoundValid(before: InterviewSession, qs: seq<Question>, timeSpent: real)
    requires ValidSession(before)
    ensures ValidSession(AfterRound(before, RoundResultOf(before.currentRound, qs, timeSpent)))
  {
    var result := RoundResultOf(before.currentRound, qs, timeSpent);
    SumTotalsAppend(before.completedRounds, result);
  }

  /** The response to a recorded round: failure feedback on a failed round,
      completion feedback (overall score within 0..100) on a passed round 3,
      and otherwise the next round's full question list. */
  ghost predicate RoundResponse(before: InterviewSession, result: RoundResult, resp: SubmitResponse) {
    var round := before.currentRound;
    var completed := before.completedRounds + [result];
    && round in RoundSettings
    && (!result.passed ==>
          && resp.RoundFailed? && resp.round == round && resp.score == result.score
          && resp.passingScore == PassingScore(round)
          && resp.feedback == FailureFeedback(result, round))
    && (result.passed && round == 3 ==>
          && resp.InterviewCompleted? && resp.score == result.score
          && SumTotals(completed) > 0
          && resp.feedback == CompletionFeedback(completed)
          && 0.0 <= resp.feedback.score <= 100.0
          && resp.message == CompletedMessage)
    && (result.passed && round != 3 ==>
          && resp.NextRound? && resp.currentRound == round + 1 && resp.previousScore == result.score
          && round + 1 in RoundSettings && |resp.questions| == TotalQuestions(round + 1)
          && resp.message == NextRoundMessage(round))
  }

  const CompletedMessage := "Congratulations! You passed all rounds!"

  /** `f"Round {n} passed! Moving to Round {n + 1}"` */
  function NextRoundMessage(round: int): string {
    "Round " + IntToString(round) + " passed! Moving to Round " + IntToString(round + 1)
  }

  /** The engine's invariant: every session has a hash history, no history
      holds a hash twice, and every session is valid. */
  predicate ValidState(sessions: map<string, InterviewSession>, history: map<string, seq<string>>) {
    && sessions.Keys == history.Keys
    && (forall id :: id in history ==> NoDuplicates(history[id]))
    && (forall id :: id in sessions ==> ValidSession(sessions[id]))
  }

  lemma SessionUpdateValid(sessions: map<string, InterviewSession>, history: map<string, seq<string>>,
                           id: string, s: InterviewSession)
    requires ValidState(sessions, history) && id in sessions && ValidSession(s)
    ensures ValidState(sessions[id := s], history)
  {
  }

  lemma HistoryUpdateValid(sessions: map<string, InterviewSession>, history: map<string, seq<string>>,
                           id: string, h: seq<string>)
    requires ValidState(sessions, history) && id in history && NoDuplicates(h)
    ensures ValidState(sessions, history[id := h])
  {
  }

  /** The padding loop of `_generate_unique_round_questions`: `count`
      template questions, the i-th being `template(i)`. */
  method TemplateQuestions(count: nat, template: nat -> QuestionDraft) returns (qs: seq<QuestionDraft>)
    ensures |qs| == count
    ensures forall i :: 0 <= i < count ==> qs[i] == template(i)
  {
    qs := [];
    for i := 0 to count
      invariant |qs| == i
      invariant forall j :: 0 <= j < i ==> qs[j] == template(j)
    {
      qs := qs + [template(i)];
    }
  }

  /** The response when a round ends the interview: failure feedback on a
      failed round, completion feedback on a passed round 3. */
  method ClosingResponse(before: InterviewSession, result: RoundResult) returns (resp: SubmitResponse)
    requires ValidSession(before)
    requires result == RoundResultOf(before.currentRound, result.questions, result.timeSpent)
    requires !result.passed || before.currentRound == 3
    ensures RoundResponse(before, result, resp)
  {
    var round := before.currentRound;
    var completed := before.completedRounds + [result];
    if !result.passed {
      var feedback := GenerateFeedback(completed, Some(round));
      resp := RoundFailed(round, result.score, PassingScore(round), feedback.value);
    } else {
      SumTotalsAppend(before.completedRounds, result);
      assert forall i :: 0 <= i < |completed| ==> WellFormedResult(completed[i]);
      var feedback := GenerateFeedback(completed, None);
      OverallScoreBounds(completed, 0.0, 100.0);
      resp := InterviewCompleted(round, result.score, feedback.value, CompletedMessage);
    }
  }

  // ================================================================ the engine

  class InterviewEngine {
    var activeSessions: map<string, InterviewSession>
    var questionHistory: map<string, seq<string>>
    /** `_get_question_hash` */
    const questionHash: string -> string

    ghost predicate Valid()
      reads this
    {
      ValidState(activeSessions, questionHistory)
    }

    constructor(questionHash: string -> string)
      ensures Valid()
      ensures activeSessions == map[] && questionHistory == map[] && this.questionHash == questionHash
    {
      activeSessions := map[];
      questionHistory := map[];
      this.questionHash := questionHash;
    }

    function Hashes(qs: seq<QuestionDraft>): (hs: seq<string>)
      ensures |hs| == |qs| && forall i :: 0 <= i < |qs| ==> hs[i] == questionHash(qs[i].text)
    {
      seq(|qs|, i requires 0 <= i < |qs| => questionHash(qs[i].text))
    }

    /** The session's hash history after a submission answered with `resp`,
        given the history `before` it: unchanged unless the next round was
        handed out, and then grown by the hashes of a prefix of that round's
        questions (the kept ones; the templates after them are not hashed). */
    ghost predicate HistoryAfter(before: map<string, seq<string>>, sessionId: string, resp: SubmitResponse)
      reads this
    {
      if resp.NextRound? then
        && sessionId in before && sessionId in questionHistory
        && exists k :: 0 <= k <= |resp.questions|
             && questionHistory[sessionId] == before[sessionId] + Hashes(resp.questions[..k])
      else questionHistory == before
    }

    /** The `j`-th attempt, which yielded `q`, was passed over because its
        hash was already known: it is in the history `h0` the round started
        from, or it is the hash of a question kept by an earlier attempt
        (`kept[i]`, drawn by attempt `picked[i]`). */
    ghost predicate SeenBefore(h0: seq<string>, kept: seq<QuestionDraft>, picked: seq<nat>, q: QuestionDraft, j: nat) {
      || questionHash(q.text) in h0
      || exists i :: 0 <= i < |kept| && i < |picked| && picked[i] < j && questionHash(kept[i].text) == questionHash(q.text)
    }

    /** Keeping one more question never undoes an earlier reason to pass over. */
    lemma SeenBeforeKept(h0: seq<string>, kept: seq<QuestionDraft>, picked: seq<nat>, q: QuestionDraft, j: nat,
                         next: QuestionDraft, p: nat)
      requires |kept| == |picked| && SeenBefore(h0, kept, picked, q, j)
      ensures SeenBefore(h0, kept + [next], picked + [p], q, j)
    {
      if questionHash(q.text) !in h0 {
        var i :| 0 <= i < |kept| && i < |picked| && picked[i] < j && questionHash(kept[i].text) == questionHash(q.text);
        assert (kept + [next])[i] == kept[i] && (picked + [p])[i] == picked[i];
      }
    }

    /** A hash found in the history after the kept questions were added is a
        reason to pass over any later attempt. */
    lemma SeenBeforeFound(h0: seq<string>, kept: seq<QuestionDraft>, picked: seq<nat>, q: QuestionDraft, j: nat)
      requires |kept| == |picked| && forall i :: 0 <= i < |picked| ==> picked[i] < j
      requires questionHash(q.text) in h0 + Hashes(kept)
      ensures SeenBefore(h0, kept, picked, q, j)
    {
      var h := questionHash(q.text);
      if h !in h0 {
        var k :| 0 <= k < |h0 + Hashes(kept)| && (h0 + Hashes(kept))[k] == h;
        var i := k - |h0|;
        assert Hashes(kept)[i] == h;
      }
    }

    /** The drawing loop of `_generate_unique_round_questions`: up to three
        attempts per question slot (`attempt(j)` is what the j-th attempt
        yields), keeping each question whose hash the session has not seen and
        recording that hash. `picked[i]` is the attempt that produced the i-th
        kept question. */
    method DrawUniqueQuestions(round: int, sessionId: string, attempt: nat -> QuestionDraft)
      returns (questions: seq<QuestionDraft>, attempts: nat, ghost picked: seq<nat>)
      requires round in RoundSettings && sessionId in questionHistory
      requires NoDuplicates(questionHistory[sessionId])
      modifies this
      ensures |questions| <= attempts <= 3 * TotalQuestions(round) && |questions| <= TotalQuestions(round)
      ensures |questions| < TotalQuestions(round) ==> attempts == 3 * TotalQuestions(round)
      ensures questionHistory == old(questionHistory)[sessionId := old(questionHistory[sessionId]) + Hashes(questions)]
      ensures NoDuplicates(questionHistory[sessionId])
      ensures activeSessions == old(activeSessions)
      ensures |picked| == |questions|
      ensures forall i :: 0 <= i < |questions| ==> picked[i] < attempts && questions[i] == attempt(picked[i])
      ensures forall i, k :: 0 <= i < k < |questions| ==> picked[i] < picked[k]
      ensures forall j :: 0 <= j < attempts && j !in picked ==>
                SeenBefore(old(questionHistory[sessionId]), questions, picked, attempt(j), j)
    {
      var total := TotalQuestions(round);
      questions := [];
      attempts := 0;
      picked := [];
      var maxAttempts := total * 3;
      ghost var h0 := old(questionHistory)[sessionId];
      assert h0 + [] == h0;
      assert old(questionHistory)[sessionId := h0] == old(questionHistory);
      while |questions| < total && attempts < maxAttempts
        invariant |questions| <= total && |questions| <= attempts <= maxAttempts
        invariant sessionId in questionHistory
        invariant questionHistory == old(questionHistory)[sessionId := h0 + Hashes(questions)]
        invariant NoDuplicates(questionHistory[sessionId])
        invariant activeSessions == old(activeSessions)
        invariant |picked| == |questions|
        invariant forall i :: 0 <= i < |questions| ==> picked[i] < attempts && questions[i] == attempt(picked[i])
        invariant forall i, k :: 0 <= i < k < |questions| ==> picked[i] < picked[k]
        invariant forall j :: 0 <= j < attempts && j !in picked ==> SeenBefore(h0, questions, picked, attempt(j), j)
        decreases maxAttempts - attempts
      {
        var question := attempt(attempts);
        var h := questionHash(question.text);
        if h !in questionHistory[sessionId] {
          assert Hashes(questions + [question]) == Hashes(questions) + [h];
          assert h0 + Hashes(questions) + [h] == h0 + (Hashes(questions) + [h]);
          forall j | 0 <= j < attempts && j !in picked + [attempts]
            ensures SeenBefore(h0, questions + [question], picked + [attempts], attempt(j), j)
          {
            SeenBeforeKept(h0, questions, picked, attempt(j), j, question, attempts);
          }
          questions := questions + [question];
          questionHistory := questionHistory[sessionId := questionHistory[sessionId] + [h]];
          picked := picked + [attempts];
        } else {
          SeenBeforeFound(h0, questions, picked, question, attempts);
        }
        attempts := attempts + 1;
      }
    }

    /** `_generate_unique_round_questions`: the drawn questions, then template
        questions (`template(i)` the i-th, never hashed) until the round has
        its full count. */
    method GenerateRoundQuestions(round: int, sessionId: string,
                                  attempt: nat -> QuestionDraft, template: nat -> QuestionDraft)
      returns (questions: seq<QuestionDraft>, accepted: nat, attempts: nat, ghost picked: seq<nat>)
      requires round in RoundSettings && sessionId in questionHistory
      requires NoDuplicates(questionHistory[sessionId])
      modifies this
      ensures |questions| == TotalQuestions(round)
      ensures accepted <= attempts <= 3 * TotalQuestions(round) && accepted <= |questions|
      ensures questionHistory == old(questionHistory)[sessionId := old(questionHistory[sessionId]) + Hashes(questions[..accepted])]
      ensures NoDuplicates(questionHistory[sessionId])
      ensures activeSessions == old(activeSessions)
      ensures |picked| == accepted
      ensures forall i :: 0 <= i < accepted ==> picked[i] < attempts && questions[i] == attempt(picked[i])
      ensures forall i, k :: 0 <= i < k < accepted ==> picked[i] < picked[k]
      ensures forall i :: accepted <= i < |questions| ==> questions[i] == template(i - accepted)
      ensures accepted < TotalQuestions(round) ==> attempts == 3 * TotalQuestions(round)
      ensures forall j :: 0 <= j < attempts && j !in picked ==>
                SeenBefore(old(questionHistory[sessionId]), questions[..accepted], picked, attempt(j), j)
    {
      var drawn;
      drawn, attempts, picked := DrawUniqueQuestions(round, sessionId, attempt);
      accepted := |drawn|;
      var templates := TemplateQuestions(TotalQuestions(round) - accepted, template);
      questions := drawn + templates;
      assert questions[..accepted] == drawn;
      assert forall i :: 0 <= i < accepted ==> questions[i] == drawn[i];
      assert forall i :: accepted <= i < |questions| ==> questions[i] == templates[i - accepted];
    }

    /** `_generate_unique_round_questions` for a session of `role` at `level`:
        every kept question is one of the first 3·total generation attempts,
        the rest are the round's template questions, and only the kept
        questions' hashes join the session's history. */
    method BuildRound(round: int, role: string, level: string, sessionId: string,
                      draws: nat -> Draw, fallbacks: nat -> FallbackDraw)
      returns (questions: seq<QuestionDraft>, accepted: nat, ghost picked: seq<nat>, ghost attempts: nat)
      requires round in RoundSettings && sessionId in questionHistory
      requires NoDuplicates(questionHistory[sessionId])
      modifies this
      ensures |questions| == TotalQuestions(round) && accepted <= |questions|
      ensures questionHistory == old(questionHistory)[sessionId := old(questionHistory[sessionId]) + Hashes(questions[..accepted])]
      ensures NoDuplicates(questionHistory[sessionId])
      ensures activeSessions == old(activeSessions)
      ensures |picked| == accepted
      ensures forall i :: 0 <= i < accepted ==>
                picked[i] < 3 * TotalQuestions(round) && questions[i] == Attempts(round, role, level, draws)(picked[i])
      ensures forall i, k :: 0 <= i < k < accepted ==> picked[i] < picked[k]
      ensures forall i :: accepted <= i < |questions| ==> questions[i] == Templates(round, role, level, fallbacks)(i - accepted)
      ensures attempts <= 3 * TotalQuestions(round)
      ensures accepted < TotalQuestions(round) ==> attempts == 3 * TotalQuestions(round)
      ensures forall j :: 0 <= j < attempts && j !in picked ==>
                SeenBefore(old(questionHistory[sessionId]), questions[..accepted], picked, Attempts(round, role, level, draws)(j), j)
    {
      questions, accepted, attempts, picked :=
        GenerateRoundQuestions(round, sessionId, Attempts(round, role, level, draws), Templates(round, role, level, fallbacks));
    }

    /** A round's question list as the session handlers see it: the full
        count, with the kept questions' hashes appended to the session's
        history and nothing else changed. */
    method RoundQuestions(round: int, role: string, level: string, sessionId: string,
                          draws: nat -> Draw, fallbacks: nat -> FallbackDraw)
      returns (questions: seq<QuestionDraft>, accepted: nat)
      requires round in RoundSettings && sessionId in questionHistory
      requires NoDuplicates(questionHistory[sessionId])
      modifies this
      ensures |questions| == TotalQuestions(round) && accepted <= |questions|
      ensures questionHistory == old(questionHistory)[sessionId := old(questionHistory[sessionId]) + Hashes(questions[..accepted])]
      ensures NoDuplicates(questionHistory[sessionId])
      ensures activeSessions == old(activeSessions)
    {
      ghost var picked, attempts;
      questions, accepted, picked, attempts := BuildRound(round, role, level, sessionId, draws, fallbacks);
    }

    /** `start_interview`: store a fresh session at round 1 with an empty
        hash history, then build round 1. */
    method StartInterview(sessionId: string, role: string, level: ExperienceLevel, start: Timestamp,
                          draws: nat -> Draw, fallbacks: nat -> FallbackDraw)
      returns (resp: StartResponse)
      requires Valid()
      modifies this
      ensures Valid()
      ensures activeSessions == old(activeSessions)[sessionId := NewSession(sessionId, role, level, start)]
      ensures questionHistory.Keys == old(questionHistory).Keys + {sessionId}
      ensures forall id :: id in old(questionHistory) && id != sessionId ==> questionHistory[id] == old(questionHistory)[id]
      ensures |questionHistory[sessionId]| <= |resp.questions|
      ensures questionHistory[sessionId] == Hashes(resp.questions[..|questionHistory[sessionId]|])
      ensures resp.sessionId == sessionId && resp.currentRound == 1
      ensures resp.totalQuestions == |resp.questions| == 20
      ensures resp.message == "Interview started for " + role + " (" + level.Value() + ")"
    {
      var session := NewSession(sessionId, role, level, start);
      activeSessions := activeSessions[sessionId := session];
      questionHistory := questionHistory[sessionId := []];
      var questions, accepted := RoundQuestions(1, role, level.Value(), sessionId, draws, fallbacks);
      resp := StartResponse(sessionId, "Interview started for " + role + " (" + level.Value() + ")", 1,
                            |questions|, questions);
    }

    /** `submit_round`: grade the answers, then record the round and move the
        session on. An unknown session is reported and nothing changes; a
        submission with an answer the `Question` constructor refuses (an
        unknown type, or a `None` topic or difficulty) is rejected and nothing
        changes. A session that is already complete is graded like any other. */
    method SubmitRound(sessionId: string, answers: seq<Answer>, timeSpent: real, judge: nat -> string,
                       draws: nat -> Draw, fallbacks: nat -> FallbackDraw)
      returns (resp: SubmitResponse)
      requires Valid()
      modifies this
      ensures Valid()
      ensures sessionId !in old(activeSessions) ==>
                resp == SessionNotFound("Session not found")
                && activeSessions == old(activeSessions) && questionHistory == old(questionHistory)
      ensures sessionId in old(activeSessions) ==>
                (resp.Rejected? <==> exists i :: 0 <= i < |answers| && !Admissible(answers[i]))
      ensures resp.Rejected? ==> activeSessions == old(activeSessions) && questionHistory == old(questionHistory)
      ensures activeSessions.Keys == old(activeSessions).Keys
      ensures forall id :: id in old(activeSessions) && id != sessionId ==>
                activeSessions[id] == old(activeSessions)[id] && questionHistory[id] == old(questionHistory)[id]
      ensures sessionId in old(activeSessions) && !resp.Rejected? ==>
                var before := old(activeSessions)[sessionId];
                var graded := GradedQuestions(answers, before.currentRound, judge);
                graded.Success?
                && before.currentRound in RoundSettings
                && var result := RoundResultOf(before.currentRound, graded.value, timeSpent);
                   activeSessions[sessionId] == AfterRound(before, result)
                   && RoundResponse(before, result, resp)
      ensures HistoryAfter(old(questionHistory), sessionId, resp)
    {
      if sessionId !in activeSessions {
        return SessionNotFound("Session not found");
      }
      var round := activeSessions[sessionId].currentRound;
      var graded := GradeAnswers(answers, round, judge);
      if graded.Failure? {
        return Rejected(graded.error);
      }
      var questions := graded.value;
      var results := CalculateRoundScore(questions);
      var result := RoundResult(round, results.score, |questions|, results.correctCount, timeSpent, questions,
                                results.score >= PassingScore(round) as real);
      assert result == RoundResultOf(round, questions, timeSpent);
      resp := FinishRound(sessionId, questions, timeSpent, result, draws, fallbacks);
    }

    /** The rest of `submit_round` once the round is graded: store the
        session with the round recorded, then answer with feedback or with the
        next round's questions. */
    method FinishRound(sessionId: string, ghost qs: seq<Question>, ghost timeSpent: real, result: RoundResult,
                       draws: nat -> Draw, fallbacks: nat -> FallbackDraw)
      returns (resp: SubmitResponse)
      requires Valid() && sessionId in activeSessions
      requires result == RoundResultOf(activeSessions[sessionId].currentRound, qs, timeSpent)
      modifies this
      ensures Valid()
      ensures activeSessions == old(activeSessions)[sessionId := AfterRound(old(activeSessions)[sessionId], result)]
      ensures activeSessions.Keys == old(activeSessions).Keys
      ensures forall id :: id in old(activeSessions) && id != sessionId ==>
                activeSessions[id] == old(activeSessions)[id] && questionHistory[id] == old(questionHistory)[id]
      ensures !resp.Rejected? && RoundResponse(old(activeSessions)[sessionId], result, resp)
      ensures HistoryAfter(old(questionHistory), sessionId, resp)
    {
      var before := activeSessions[sessionId];
      var round := before.currentRound;
      var after := AfterRound(before, result);
      AfterRoundValid(before, qs, timeSpent);
      SessionUpdateValid(activeSessions, questionHistory, sessionId, after);
      activeSessions := activeSessions[sessionId := after];
      if result.passed && round != 3 {
        var next, accepted := RoundQuestions(round + 1, after.targetRole, after.experienceLevel.Value(), sessionId, draws, fallbacks);
        HistoryUpdateValid(activeSessions, old(questionHistory), sessionId, questionHistory[sessionId]);
        resp := NextRound(round + 1, result.score, next, NextRoundMessage(round));
        assert questionHistory[sessionId] == old(questionHistory)[sessionId] + Hashes(resp.questions[..accepted]);
        assert HistoryAfter(old(questionHistory), sessionId, resp);
      } else {
        resp := ClosingResponse(before, result);
      }
      forall id | id in old(activeSessions) && id != sessionId
        ensures activeSessions[id] == old(activeSessions)[id] && questionHistory[id] == old(questionHistory)[id]
      {
      }
    }

    /** `get_session_status` */
    function GetSessionStatus(sessionId: string): (r: Result<SessionStatus>)
      reads this
      ensures r.Failure? <==> sessionId !in activeSessions
      ensures r.Failure? ==> r.error == "Session not found"
    {
      if sessionId !in activeSessions then Failure("Session not found")
      else
        var s := activeSessions[sessionId];
        Success(SessionStatus(sessionId, s.targetRole, s.experienceLevel, s.currentRound, s.isComplete,
                              |s.completedRounds|, s.startTime))
    }

    /** The status of a stored session reports a round of 1, 2 or 3, and a
        session past round 1 has completed rounds behind it. */
    lemma StatusInRange(sessionId: string)
      requires Valid() && sessionId in activeSessions
      ensures var r := GetSessionStatus(sessionId);
              r.Success? && 1 <= r.value.currentRound <= 3
              && (r.value.currentRound > 1 ==> r.value.completedRounds > 0)
    {
    }
  }
}
