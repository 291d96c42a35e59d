# Interview engine — a Dafny model

This project models the core of a mock technical-interview service. A
candidate starts a session for a role (for example `Software Engineer`) and an
experience level (`entry`, `mid` or `senior`). The session runs through three
rounds:

- round 1 asks 20 multiple-choice and one-word questions;
- round 2 asks 15 theory, code-snippet, output-prediction and
  fill-in-the-blank questions (an output-prediction question comes back
  typed as a code snippet, because its reply goes through the code-snippet
  parser);
- round 3 asks 3 coding problems.

A question generator asks a language-model service for each question and
parses its free-text reply. A failed call yields an empty reply, and the
parsers turn that into a placeholder question; this is still a generated
question and is hashed like any other. The engine makes at most 3·total
generation attempts per round, shared by all its slots, so one slot may use
more than three. When those attempts have not produced enough unseen questions, fixed template questions fill the
remaining slots. The engine remembers a hash of every kept generated question
per session, so a session is never handed the same generated question twice. It grades a submitted round,
records the round result and then does one of three things:

- it ends the interview with failure feedback;
- it completes the interview with overall feedback;
- it hands out the next round's questions.

The files:

- `wrappers.dfy`: the `Option` and `Result` types.
- `pystr.dfy`: the Python string operations the core relies on (`strip`,
  `lower`, `split`, `find`, `replace`, `int()`, whitespace removal), each with
  its characterising lemmas.
- `models.dfy`: the records and enumerations.
- `config.dfy`: the round settings and the role topic table.
- `parsers.dfy`: the reply parsers. The line-by-line parsers are loops proved
  against fold functions, with lemmas stating which line wins.
- `question_bank.dfy`: the round and type dispatch of question generation,
  and the template questions.
- `ranking.dfy`: per-topic tallies and the stable score ranking.
- `evaluation.dfy`: answer checking, the round score and the two feedback modes.
- `interview_logic.dfy`: the engine, a class whose fields are the session
  map and the hash-history map, with grading and session progression.

Randomness, identifiers, clocks, the hash function and the language-model
service are not computed. They are parameters:

- a `Draw` or `FallbackDraw` carries the random picks, the service reply and
  the identifier suffix of one question;
- `judge(i)` is the service's reply to the grading prompt for answer `i`;
- the engine's `questionHash` stands for the MD5-prefix hash;
- the session identifier and the start time are arguments.

A failed service call is modelled as an empty reply. Every path the code
takes on an empty reply is then covered.

## Model

| member | source | states |
|---|---|---|
| Models.ParseLevelValue | models.py:6-9 | each experience level's string value parses back to that level |
| Models.ParseQuestionTypeTag | models.py:11-18 | each question type's tag parses back to that type; `ParseQuestionType` accepts only the seven tags |
| Models.NewSession | models.py:42-49 | definition: a new session has the given id, role, level and start time, round 1, no results, and is not complete |
| Config.TotalQuestions | config.py:11-15 | rounds 1, 2 and 3 have 20, 15 and 3 questions; every round has at least one |
| Config.PassingScore | config.py:11-15 | the passing score is 70 for rounds 1 and 2 and 0 exactly for round 3 |
| Config.RoundSettingsDomain | config.py:11-15 | settings exist for exactly rounds 1, 2 and 3 |
| Config.RoleTopicsComplete | config.py:22-46 | each configured role has a non-empty topic list for each of the three levels |
| Config.TopicsFor | interview_logic.py:62 | definition: the topic list is the table's entry for a known role and level, else `["General"]`; it is never empty |
| PyStr.StripCharacterization | evaluation.py:12 | `strip` removes exactly the leading and trailing whitespace: padding a core without edge whitespace strips back to that core |
| PyStr.StripIdempotent | question_bank.py:260 | stripping twice is stripping once |
| PyStr.StripPadding | evaluation.py:12 | adding whitespace around a string does not change what it strips to |
| PyStr.LowerStrip | evaluation.py:12 | lower-casing and stripping commute |
| PyStr.RemoveSpaceAppend | evaluation.py:16-17 | removing whitespace distributes over concatenation |
| PyStr.RemoveSpaceEmpty | evaluation.py:16-17 | removing whitespace leaves nothing exactly when the text is all whitespace |
| PyStr.JoinSplit | question_bank.py:336-338 | joining the parts of a split with the separator gives back the string |
| PyStr.SplitJoin | question_bank.py:336-338 | splitting a join of separator-free parts gives back the parts |
| PyStr.SplitFirstIs | question_bank.py:329-333 | splitting at the first occurrence of a marker yields the text before and after it |
| PyStr.IntToStringRoundTrip | interview_logic.py:234 | `int()` reads back every integer's decimal form |
| PyStr.NatToStringInjective | evaluation.py:114 | different numbers have different decimal forms |
| ReplyParsers.Lines | question_bank.py:253 | splitting a stripped reply into lines yields at least one line |
| ReplyParsers.ParseMcqResponse | question_bank.py:250-290 | the multiple-choice parsing loop returns the question defined by the fold over the reply's lines |
| ReplyParsers.McqFromReply | question_bank.py:250-290 | a parsed multiple-choice question has type mcq, id `mcq_<uid>`, the given topic and difficulty, and at most four options |
| ReplyParsers.McqLastQuestionLine | question_bank.py:258-268 | the last `Question:`/`Q:` line with text decides the question |
| ReplyParsers.McqPlaceholder | question_bank.py:273-276 | without a recognised question, the first line and the placeholder options are used, and the answer `Option A` is one of them |
| ReplyParsers.McqAnswerStripped | question_bank.py:265-266 | the multiple-choice answer never carries surrounding whitespace |
| ReplyParsers.ParseOneWordResponse | question_bank.py:292-324 | the one-word parsing loop returns the question defined by the fold over the reply's lines |
| ReplyParsers.OneWordFromReply | question_bank.py:292-324 | a parsed one-word question has type one_word, id `one_<uid>`, the given topic and difficulty, and no options |
| ReplyParsers.OneWordFirstShortLine | question_bank.py:299-307 | a short visible line becomes the answer only while no answer is set, and stays the answer when later lines do not carry `Correct Answer:` |
| ReplyParsers.OneWordPlaceholder | question_bank.py:309-311 | without a recognised question, the first line is the question and `Python` the answer |
| ReplyParsers.OneWordAnswerStripped | question_bank.py:302-307 | the one-word answer never carries surrounding whitespace |
| ReplyParsers.ParseFillBlankResponse | question_bank.py:393-422 | the fill-in-the-blank parsing loop returns the question defined by the fold over the reply's lines |
| ReplyParsers.FillBlankFromReply | question_bank.py:393-422 | a parsed fill-in-the-blank question has type fill_blank, id `fill_<uid>`, the given topic and difficulty, and no options |
| ReplyParsers.FillBlankQuestion | question_bank.py:399-409 | the question is the stripped last line mentioning a blank, or else the first line of the stripped reply |
| ReplyParsers.BlankLineVisible | question_bank.py:401-402 | a line mentioning a blank is never blank itself |
| ReplyParsers.TheoryFromReply | question_bank.py:326-351 | a parsed theory question has id `theory_<uid>`, no options, and as answer the first 500 characters of the parsed answer: all of it when it has at most 500, exactly 500 otherwise |
| ReplyParsers.TheoryWithMarker | question_bank.py:329-333 | with a `Correct Answer:` marker, the question is the stripped text before its first occurrence (without `Question:`) and the answer the stripped text after it |
| ReplyParsers.TheoryWithoutMarker | question_bank.py:335-338 | without the marker, the question is a single line, and the question and the answer rejoined by a newline are the stripped reply |
| ReplyParsers.TheorySingleLine | question_bank.py:335-338 | without the marker, a reply of one stripped line (the empty reply included) is the question, with the answer `Detailed explanation` |
| ReplyParsers.CodeSnippetFromReply | question_bank.py:353-387 | a parsed code-snippet question has type code_snippet, id `code_<uid>`, the given topic and difficulty, and no options |
| ReplyParsers.CodeSnippetAnswerOneLine | question_bank.py:372-374 | the code-snippet answer is a single line |
| ReplyParsers.IndentedLinesMembers | question_bank.py:365 | the fallback code keeps exactly the reply's lines that start with a space or a tab: every kept line is such a line, every such line is kept, and nothing is kept exactly when no line is indented |
| ReplyParsers.IndentedLinesAppend | question_bank.py:365 | the filter works line by line and keeps the lines' order: filtering a concatenation concatenates the filtered parts |
| ReplyParsers.SnippetFromFence | question_bank.py:358-363 | a reply that opens with a fence and a language word shows exactly the code up to the first closing fence |
| ReplyParsers.SnippetWithoutFence | question_bank.py:364-366 | a reply without a fence shows its indented lines joined by newlines, or `print('Hello World')` when no line is indented |
| ReplyParsers.CodingFromReply | question_bank.py:424-455 | a parsed coding problem has type coding_problem, id `coding_<uid>`, the given topic and difficulty, and no options |
| ReplyParsers.CodingWithMarker | question_bank.py:428-432 | with a `Correct Answer:` marker, problem and solution are the stripped text before and after its first occurrence |
| QuestionBank.ResolveTopic | question_bank.py:48-51 | the caller's topic is kept; without one, the topic is one of the role's topics for the level |
| QuestionBank.PromptDifficulty | question_bank.py:54-59 | round 1 asks for easy or medium, round 2 for medium or hard |
| QuestionBank.CodingDifficulty | question_bank.py:214-217 | definition: a coding problem is easy exactly when the recorded hash count is a multiple of 3 |
| QuestionBank.ParseReply | question_bank.py:71-208 | each type goes to its parser, output prediction through the code-snippet parser, and no parsed id is a template id |
| QuestionBank.GenerateQuestion | question_bank.py:44-69 | generating a question returns the question defined by the round, topic and type dispatch for the draw |
| QuestionBank.GeneratedQuestionShape | question_bank.py:44-248 | for `GeneratedQuestion`: round 1 gives easy or medium mcq or one-word questions; round 2 gives medium or hard theory, code-snippet or fill-in-the-blank questions; later rounds give easy coding problems; the given topic is kept, and without one the topic is one of the role's topics |
| QuestionBank.OutputPredictionIsCodeSnippet | question_bank.py:389-391 | an output-prediction draw yields a question typed code_snippet with a `code_` id |
| QuestionBank.GeneratedIsNotTemplate | question_bank.py:44-69 | for `GeneratedQuestion`: a generated question never has a template (`fb_`) id |
| QuestionBank.FallbackMcq | question_bank.py:458-482 | the mcq template has id `fb_mcq_<uid>`, four options containing its answer, and answer `DROP` exactly for topic `SQL` |
| QuestionBank.FallbackOneWord | question_bank.py:484-492 | the one-word template names the topic in its text and expects `Concept` |
| QuestionBank.FallbackTheory | question_bank.py:494-502 | the theory template asks about the topic and its answer starts with the topic |
| QuestionBank.FallbackCodeSnippet | question_bank.py:504-512 | the code-snippet template shows `print(2 + 2 * 2)` and expects `6` |
| QuestionBank.FallbackFillBlank | question_bank.py:514-522 | the fill-in-the-blank template's text mentions a blank and it expects `pass` |
| QuestionBank.FallbackCodingProblem | question_bank.py:524-532 | the coding template asks for a palindrome check, with its one-line solution as the answer, id `fb_coding_<uid>`, the given topic and difficulty |
| Ranking.TallyTopics | evaluation.py:43-50 | the topic-counting loop computes the per-topic statistics of the questions |
| Ranking.TopicStatsCount | evaluation.py:43-50 | the statistics list each topic once, in order of first appearance, with its question count and its correct count |
| Ranking.StatsWellFormed | evaluation.py:43-50 | every listed topic has at least one question and no more correct answers than questions |
| Ranking.TopicScores | evaluation.py:53-55 | each topic's score is its percentage of correct answers |
| Ranking.SortByScoreCorrect | evaluation.py:57-58 | the ranking is in score order and is a permutation of the topic scores |
| Ranking.SortByScoreStable | evaluation.py:57-58 | topics with equal scores keep their order of first appearance |
| Ranking.Top3Correct | evaluation.py:57-58 | at most three topics are listed, as many as exist up to three, and no listed topic ranks below one left off |
| Evaluation.EvaluateAnswer | evaluation.py:8-33 | an accepted exact-match answer, once stripped, is as long as the reference; the keyword rule never accepts against a blank reference; an accepted coding answer is longer than 20 characters |
| Evaluation.BlankOutputPrediction | evaluation.py:14-18 | a blank output prediction is correct exactly when the reference answer is blank too |
| Evaluation.ExactMatchTolerance | evaluation.py:10-12 | mcq, one-word and fill-in-the-blank verdicts ignore surrounding whitespace and the answer's letter case |
| Evaluation.ExactMatchAcceptsReference | evaluation.py:10-12 | a stripped reference answer is accepted as its own answer, in any case |
| Evaluation.BlankExactAnswer | evaluation.py:10-12 | a blank exact-match answer is correct exactly when the reference answer is empty |
| Evaluation.OutputPredictionIgnoresSpace | evaluation.py:14-18 | inserting whitespace anywhere in an output prediction leaves the verdict unchanged |
| Evaluation.KeywordThreshold | evaluation.py:20-30 | the keyword rule holds exactly when there are key terms and 5·matches ≥ 3·key terms |
| Evaluation.KeyTermsShape | evaluation.py:26 | there are at most five key terms, and none exactly when the reference answer is blank |
| Evaluation.KeywordMonotone | evaluation.py:27-30 | an answer whose words include an accepted answer's words is accepted too |
| Evaluation.KeywordAcceptsReference | evaluation.py:20-30 | a reference answer that is not blank passes the keyword rule |
| Evaluation.NumCorrect | evaluation.py:38 | the number of correct answers is at most the number of questions |
| Evaluation.Score | evaluation.py:40 | the round score lies in 0..100 |
| Evaluation.ScoreReaches | evaluation.py:40 | the score reaches a whole threshold exactly when 100·correct ≥ threshold·total; an empty round scores 0 |
| Evaluation.PerfectScore | evaluation.py:40 | only a round with every answer correct scores 100 |
| Evaluation.CalculateRoundScore | evaluation.py:36-66 | the round score counts the questions and the correct answers, its score is the correct percentage in 0..100, and it lists the top three strongest and weakest topics |
| Evaluation.Recommend | evaluation.py:101-106 | the recommendation loop yields the advice lines of the weakest topics in order |
| Evaluation.RecommendationsCover | evaluation.py:101-106 | each weakest topic below 70 gets its advice, and every recommendation is the advice of such a topic |
| Evaluation.RoundKeyInjective | evaluation.py:114 | different rounds are timed under different keys |
| Evaluation.TallyMore | evaluation.py:125-132 | counting one more round's questions extends the statistics of the rounds before it |
| Evaluation.TallyRounds | evaluation.py:122-132 | the completion-mode counting loop computes the statistics of all rounds' questions |
| Evaluation.FailureModeFeedback | evaluation.py:71-115 | failure mode computes the failure feedback of the last round |
| Evaluation.CompletionModeFeedback | evaluation.py:117-165 | completion mode computes the completion feedback of all rounds |
| Evaluation.GenerateFeedback | evaluation.py:69-165 | failure mode fails exactly when there are no results; completion mode fails exactly when no question was answered; otherwise each mode returns its feedback |
| Evaluation.FailureFeedbackShape | evaluation.py:98-115 | failure feedback repeats the failed round's score, times only `round_<n>`, lists up to three topics each way, and recommends at most once per weakest topic |
| Evaluation.CompletionFeedbackShape | evaluation.py:147-164 | completion feedback has two recommendations and times `round_1` … `round_<n>` with each round's time, plus `total` |
| Evaluation.RoundTimesAt | evaluation.py:155 | round `k`'s entry holds that round's time |
| Evaluation.RoundKeysCard | evaluation.py:155 | there are as many round keys as rounds |
| Evaluation.OverallScoreBounds | evaluation.py:118-120 | the overall score lies between the lowest and the highest round score |
| InterviewLogic.JudgeAnswer | interview_logic.py:211-243 | mcq, one-word, fill-in-the-blank and output-prediction answers get exactly the evaluator's verdict; an accepted coding answer is one the evaluator accepts too |
| InterviewLogic.JudgeUsesServiceScore | interview_logic.py:217-239 | a theory or code-snippet answer scored `n` by the service is correct exactly when n ≥ 70; a failed call defers to the evaluator |
| InterviewLogic.CodingJudgeStricter | interview_logic.py:241-243 | the engine accepts a coding answer only when the evaluator would; a 25-character answer passes the evaluator but not the engine |
| InterviewLogic.GetKey | interview_logic.py:129-135 | `.get(key, default)` gives the default only for an absent key, the value for a given one, and `None` exactly for a key present with `None` |
| InterviewLogic.AnsweredQuestion | interview_logic.py:124-140 | a graded question has the submitted id, type and answer, the round number, the `.get` readings of topic, difficulty and time (a `None` time stays `None`), and a verdict |
| InterviewLogic.GradedQuestions | interview_logic.py:122-141 | grading succeeds exactly when every answer is admissible (known type, topic and difficulty not `None`), with one question per answer |
| InterviewLogic.GradeAnswers | interview_logic.py:122-141 | the grading loop returns the graded questions, or the rejection at the first answer that is not admissible (unknown type, or a `None` topic or difficulty) |
| InterviewLogic.PickTopic | interview_logic.py:62-63 | the engine's topic is one of the role's topics for the level |
| InterviewLogic.FallbackQuestionShape | interview_logic.py:88-110 | for `FallbackQuestion`: a template question has an `fb_` id, medium difficulty, one of the role's topics and the round's kind of question |
| InterviewLogic.RoundAttemptShape | interview_logic.py:60-68 | for `RoundAttempt`: a generation attempt yields a question of the round's kind on one of the role's topics, never with a template id |
| InterviewLogic.RoundResultOf | interview_logic.py:143-156 | the recorded result is well formed and passed exactly when the score reaches the round's passing score |
| InterviewLogic.AfterRound | interview_logic.py:158-193 | the result is appended and exactly one outcome applies: a fail completes the session at the same round, a round-3 pass completes it, any other pass moves to the next round; a complete session is not guarded |
| InterviewLogic.AfterRoundValid | interview_logic.py:158-193 | recording a graded round keeps the session valid (round within 1..3) |
| InterviewLogic.SumTotalsAppend | interview_logic.py:158 | appending a result adds its question count to the total |
| InterviewLogic.TemplateQuestions | interview_logic.py:80-84 | the padding loop adds exactly the missing number of template questions |
| InterviewLogic.ClosingResponse | interview_logic.py:160-190 | a failed round answers with failure feedback and the passing score; a passed round 3 answers with completion feedback whose score lies in 0..100 |
| InterviewLogic.InterviewEngine.constructor | interview_logic.py:13-18 | the engine starts with no sessions and no history |
| InterviewLogic.InterviewEngine.Hashes | interview_logic.py:20-22 | definition: each question is hashed by its text |
| InterviewLogic.InterviewEngine.DrawUniqueQuestions | interview_logic.py:55-77 | at most 3·total attempts are made and at most total questions kept; fewer are kept only after every attempt; each kept question is the attempt `picked[i]`, in attempt order; every attempt not kept was passed over only because its hash was already in the history or belonged to a question kept earlier (`SeenBefore`); the history grows by exactly the kept questions' hashes and stays free of duplicates |
| InterviewLogic.InterviewEngine.GenerateRoundQuestions | interview_logic.py:52-86 | a round has exactly its total number of questions: the kept ones, then templates that are not hashed; templates appear only after all 3·total attempts were spent, and every attempt not kept repeats a known hash (`SeenBefore`) |
| InterviewLogic.InterviewEngine.BuildRound | interview_logic.py:52-86 | the kept questions are generation attempts (`Attempts`, the j-th from `draws(j)`) within the first 3·total draws, in draw order; every draw not kept repeats a hash already in the history or kept earlier in the round (`SeenBefore`); templates are used only after all 3·total draws; the rest are the round's template questions (`Templates`), in order |
| InterviewLogic.InterviewEngine.RoundQuestions | interview_logic.py:52-86 | a round's question list has its full count and only the kept questions' hashes join the history |
| InterviewLogic.InterviewEngine.StartInterview | interview_logic.py:24-50 | a new session at round 1 is stored with a fresh history; 20 questions are returned, with the message naming role and level |
| InterviewLogic.InterviewEngine.SubmitRound | interview_logic.py:112-209 | an unknown session is reported and nothing changes; an answer with an unknown type or a `None` topic or difficulty rejects the submission and nothing changes; otherwise the session records the graded result with exactly one outcome and the response matches it, with the message `Round n passed! Moving to Round n+1` on a pass before round 3; the session's hash history is unchanged unless the next round is handed out, and then grows by the hashes of a prefix of that round's questions; other sessions never change |
| InterviewLogic.InterviewEngine.FinishRound | interview_logic.py:158-209 | the session is stored with the round recorded; the response is feedback, or the next round's full question list with the `Round n passed! Moving to Round n+1` message; the history grows only on the next-round path, by the hashes of a prefix of the handed-out questions |
| InterviewLogic.InterviewEngine.GetSessionStatus | interview_logic.py:282-297 | the status fails with "Session not found" exactly for an unknown session |
| InterviewLogic.InterviewEngine.StatusInRange | interview_logic.py:282-297 | a stored session reports a round of 1, 2 or 3, and one past round 1 has completed rounds |

## Left out

- Floating point: scores, times and percentages are exact rationals. Python's binary floats are not modelled, and neither are `round(score, 2)` on the round score (evaluation.py:61) and the overall score (evaluation.py:159). A round pass is decided on the exact score, where the source compares the rounded one.
- The service call `_call_deepseek` (question_bank.py:14-42) and every prompt text: the service is an oracle whose reply is a parameter.
- `uuid4`, `datetime.now`, `random.choice` and MD5: these are parameters. `random.choice` is the list entry at the drawn index modulo the length.
- `_generate_llm_feedback` (interview_logic.py:245-280): it is a free-text service call. The model's `detailed_analysis` is always empty, and the response messages carry no analysis.
- The `Failed Round … Score: x%` message formats a float (interview_logic.py:174) and is not part of `RoundFailed`.
- `AnswerReview` (evaluation.py:86-93, 135-142): models.py does not define it, so evaluation.py's import fails as written. `Feedback` also has no `correct_answers` field. The model leaves the answer reviews out and keeps the rest of the feedback.
- The `except` branches of the parsers: for a string reply they are not reachable, so they are not modelled. The engine's `except` around the judge prompt is modelled: a reply that `int()` cannot read falls back to the evaluator.
- `PyStr.Lower`: lower-cases ASCII letters only. Python's full Unicode case mapping is not modelled.
- `PyStr.ParseInt`: reads an optional sign and ASCII digits. Underscores and non-ASCII digits, which `int()` also accepts, are not modelled.
- `start_interview` takes the level as a string that the session record validates into the enumeration. The model takes an `ExperienceLevel` directly, so the validation error for an unknown level is not modelled.
- `DIFFICULTY_PROGRESSION`, `MAX_QUESTION_GENERATION_ATTEMPTS`, `ENABLE_LLM_EVALUATION`, the service address, model name and timeout (config.py:6-19, 48-59): the core never reads them. The round time limit is carried in `RoundSetting` and is never enforced.
- Other roles' topics: config.py lists only two roles. Any other role gets `["General"]`.
- The web layers (app.py, frontend.py, run_simple_server.py) are not part of this model. Neither is concurrency between requests.
- InterviewLogic.InterviewEngine.RoundQuestions: its contract states the count and the history the questions leave, not where they come from. Which draws are kept, why the others are passed over and when templates are used are stated on `BuildRound`, which it calls. Stating them here as well made the session handlers that call it too costly to verify.
- InterviewLogic.InterviewEngine.StartInterview: its contract states the count of the returned questions and the history they leave. Which draws the questions come from is stated on `BuildRound`.
- InterviewLogic.InterviewEngine.FinishRound: its contract states the next round's count, the message and the history the questions leave. Which draws the next round's questions come from is stated on `BuildRound`.
- InterviewLogic.InterviewEngine.SubmitRound: its next-round path is `FinishRound`'s, with the same gap: which draws the next round's questions come from is stated on `BuildRound`.
- ReplyParsers.IsWordChar: treats ASCII letters, digits and `_` as word characters. Python's `\w`, used after the opening fence (question_bank.py:358) and in the coding parser (question_bank.py:436), also matches Unicode letters and digits. `ReplyParsers.FenceAt` inherits this, so a fence tagged with a non-ASCII language word is not recognised in the model.
- Sessions are values in the engine's map, replaced on update. The source mutates a shared session object in place; no other holder of that object is modelled.

Where the code and its documentation differ, the model follows the code:

- A blank answer to an exact-match question is accepted when the reference answer is empty (`Evaluation.BlankExactAnswer`).
- A blank output prediction is accepted when the reference answer is whitespace only (`Evaluation.BlankOutputPrediction`).
- Nothing stops a completed session from being submitted again: it is graded and recorded like any other (`InterviewLogic.AfterRound`).
- Round 2 never yields a question typed output prediction, because its reply goes through the code-snippet parser (`QuestionBank.OutputPredictionIsCodeSnippet`).
- The generator never records a hash (question_bank.py:12), so its count stays 0. Round-3 problems are therefore always easy (`QuestionBank.CodingDifficulty`, `QuestionBank.GeneratedQuestionShape`).
- The engine accepts a coding answer above 30 visible characters, the evaluator above 20 (`InterviewLogic.CodingJudgeStricter`).
- The `.get` defaults `Unknown` and `medium` apply only to keys left out of an answer. The request layer (app.py:31-32, 73) sends every key and gives an omitted topic or difficulty the value `None`, which `Question` refuses, so such a submission is rejected (`InterviewLogic.GradedQuestions`, `InterviewLogic.InterviewEngine.SubmitRound`).
