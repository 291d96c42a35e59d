/**
 * Question generation: which kind of question and which difficulty each
 * round asks for, how the reply of the generation service is parsed, and
 * the fixed template questions used when generation is abandoned.
 *
 * The generation service, `random.choice` and `uuid4` are oracles: a `Draw`
 * carries the index each random choice lands on, the service's reply (the
 * empty string when the call fails) and the identifier suffix.
 */
module QuestionBank {
  import opened Wrappers
  import opened PyStr
  import opened Models
  import Config
  import opened ReplyParsers

  /** The generator's record of question hashes: created empty and never
      added to, so it stays empty for the life of the generator. */
  const GeneratedQuestions: set<string> := {}

  /** `random.choice(items)`, the oracle's pick reduced to a valid index. */
  function Choice<T>(items: seq<T>, pick: nat): (r: T)
    requires |items| > 0
    ensures r in items
  {
    items[pick % |items|]
  }

  /** The random outcomes one call of `generate_question` consumes. */
  datatype Draw = Draw(topicPick: nat, difficultyPick: nat, typePick: nat, reply: string, uid: string)

  const Round1Types: seq<QuestionType> := [Mcq, OneWord]
  const Round2Types: seq<QuestionType> := [Theory, CodeSnippet, OutputPrediction, FillBlank]

  /** The topic asked about: the caller's, or else a random one of the role's
      topics for the level (an empty topic counts as absent). */
  function ResolveTopic(role: string, level: string, topic: string, pick: nat): (t: string)
    ensures topic != "" ==> t == topic
    ensures topic == "" ==> t in Config.TopicsFor(role, level)
  {
    if topic != "" then topic else Choice(Config.TopicsFor(role, level), pick)
  }

  /** The difficulty `generate_question` chooses before it dispatches. */
  function PromptDifficulty(round: int, pick: nat): (d: string)
    ensures round == 1 ==> d == "easy" || d == "medium"
    ensures round == 2 ==> d == "medium" || d == "hard"
  {
    if round == 1 then Choice(["easy", "medium"], pick)
    else if round == 2 then Choice(["medium", "hard"], pick)
    else if |GeneratedQuestions| % 3 == 0 then "medium" else "hard"
  }

  /** The difficulty the coding-problem generator substitutes for the one it
      is given, from the number of hashes the generator has recorded. */
  function CodingDifficulty(recorded: nat): (d: string)
    ensures d == "easy" <==> recorded % 3 == 0
  {
    if recorded % 3 == 0 then "easy" else "medium"
  }

  /** The parser each question type's reply goes through; output prediction
      reuses the code-snippet parser. */
  function ParseReply(qtype: QuestionType, reply: string, topic: string, difficulty: string, uid: string): (q: QuestionDraft)
    ensures q.qtype == (if qtype == OutputPrediction then CodeSnippet else qtype)
    ensures q.topic == topic && q.difficulty == difficulty
    ensures !IsTemplateId(q.id)
  {
    match qtype
    case Mcq => McqFromReply(reply, topic, difficulty, uid)
    case OneWord => OneWordFromReply(reply, topic, difficulty, uid)
    case Theory => TheoryFromReply(reply, topic, difficulty, uid)
    case CodeSnippet => CodeSnippetFromReply(reply, topic, difficulty, uid)
    case OutputPrediction => CodeSnippetFromReply(reply, topic, difficulty, uid)
    case FillBlank => FillBlankFromReply(reply, topic, difficulty, uid)
    case CodingProblem => CodingFromReply(reply, topic, difficulty, uid)
  }

  /** The question `generate_question(round, role, level, topic)` returns for the draw `d`. */
  function GeneratedQuestion(round: int, role: string, level: string, topic: string, d: Draw): QuestionDraft {
    var t := ResolveTopic(role, level, topic, d.topicPick);
    var difficulty := PromptDifficulty(round, d.difficultyPick);
    if round == 1 then ParseReply(Choice(Round1Types, d.typePick), d.reply, t, difficulty, d.uid)
    else if round == 2 then ParseReply(Choice(Round2Types, d.typePick), d.reply, t, difficulty, d.uid)
    else CodingFromReply(d.reply, t, CodingDifficulty(|GeneratedQuestions|), d.uid)
  }

  /** `generate_question`, running the line-by-line parsers as loops. */
  method GenerateQuestion(round: int, role: string, level: string, topic: string, d: Draw)
    returns (q: QuestionDraft)
    ensures q == GeneratedQuestion(round, role, level, topic, d)
  {
    var t := ResolveTopic(role, level, topic, d.topicPick);
    var difficulty := PromptDifficulty(round, d.difficultyPick);
    var qtype := CodingProblem;
    if round == 1 {
      qtype := Choice(Round1Types, d.typePick);
    } else if round == 2 {
      qtype := Choice(Round2Types, d.typePick);
    } else {
      difficulty := CodingDifficulty(|GeneratedQuestions|);
    }
    match qtype
    case Mcq => q := ParseMcqResponse(d.reply, t, difficulty, d.uid);
    case OneWord => q := ParseOneWordResponse(d.reply, t, difficulty, d.uid);
    case FillBlank => q := ParseFillBlankResponse(d.reply, t, difficulty, d.uid);
    case _ => q := ParseReply(qtype, d.reply, t, difficulty, d.uid);
  }

  /** What each round generates: round 1 multiple-choice or one-word
      questions at easy or medium difficulty, round 2 theory, code-snippet or
      fill-in-the-blank questions at medium or hard difficulty (an output
      prediction draw yields a code-snippet question), and every later round
      an easy coding problem. The topic is the caller's when given. */
  lemma GeneratedQuestionShape(round: int, role: string, level: string, topic: string, d: Draw)
    ensures var q := GeneratedQuestion(round, role, level, topic, d);
            && (round == 1 ==> q.qtype in {Mcq, OneWord} && q.difficulty in {"easy", "medium"})
            && (round == 2 ==> q.qtype in {Theory, CodeSnippet, FillBlank} && q.difficulty in {"medium", "hard"})
            && (round != 1 && round != 2 ==> q.qtype == CodingProblem && q.difficulty == "easy")
            && (topic != "" ==> q.topic == topic)
            && (topic == "" ==> q.topic in Config.TopicsFor(role, level))
  {
    var q := GeneratedQuestion(round, role, level, topic, d);
    if round == 1 {
      var qtype := Choice(Round1Types, d.typePick);
      assert qtype == Mcq || qtype == OneWord;
    } else if round == 2 {
      var qtype := Choice(Round2Types, d.typePick);
      assert qtype in {Theory, CodeSnippet, OutputPrediction, FillBlank};
    }
  }

  /** Round 2 never produces a question typed as output prediction. */
  lemma OutputPredictionIsCodeSnippet(role: string, level: string, topic: string, d: Draw)
    requires Choice(Round2Types, d.typePick) == OutputPrediction
    ensures GeneratedQuestion(2, role, level, topic, d).qtype == CodeSnippet
    ensures GeneratedQuestion(2, role, level, topic, d).id == "code_" + d.uid
  {
  }

  // ================================================================ templates

  /** The fixed texts of the template questions. */
  const SqlMcqText := "Which SQL command is used to remove a table from database?"
  const PythonMcqText := "What is the time complexity of accessing an element in a Python dictionary?"
  const CodeSnippetText := "What is the output?\n\n```python\nprint(2 + 2 * 2)\n```"
  const CodingText := "Write a function to check if a string is a palindrome"
  const CodingAnswer := "def is_palindrome(s):\n    return s == s[::-1]"
  const OneWordLead := "Name a key concept in "
  const TheoryLead := "Explain the importance of "
  const TheoryTail := " in software development"
  const TheoryAnswerTail := " is important because..."
  const FillBlankText := "To create a class in Python, use: class MyClass: _____"


  /** `_create_fallback_mcq`: the SQL question for topic `SQL`, the Python question for any other. */
  function FallbackMcq(topic: string, difficulty: string, uid: string): (q: QuestionDraft)
    ensures q.id == "fb_mcq_" + uid && IsTemplateId(q.id) && q.qtype == Mcq && q.topic == topic && q.difficulty == difficulty
    ensures q.options.Some? && |q.options.value| == 4 && q.correctAnswer in q.options.value
    ensures topic == "SQL" <==> q.correctAnswer == "DROP"
  {
    if topic == "SQL" then
      QuestionDraft("fb_mcq_" + uid, Mcq, SqlMcqText, topic, difficulty,
                    Some(["DELETE", "REMOVE", "DROP", "TRUNCATE"]), "DROP")
    else
      QuestionDraft("fb_mcq_" + uid, Mcq, PythonMcqText,
                    topic, difficulty, Some(["O(1)", "O(n)", "O(log n)", "O(n\U{b2})"]), "O(1)")
  }

  function FallbackOneWord(topic: string, difficulty: string, uid: string): (q: QuestionDraft)
    ensures q.id == "fb_one_" + uid && IsTemplateId(q.id) && q.qtype == OneWord && q.topic == topic && q.difficulty == difficulty
    ensures q.options.None? && q.text == OneWordLead + topic && q.correctAnswer == "Concept"
  {
    QuestionDraft("fb_one_" + uid, OneWord, OneWordLead + topic, topic, difficulty, None, "Concept")
  }

  function FallbackTheory(topic: string, difficulty: string, uid: string): (q: QuestionDraft)
    ensures q.id == "fb_theory_" + uid && IsTemplateId(q.id) && q.qtype == Theory && q.topic == topic && q.difficulty == difficulty
    ensures q.options.None? && q.text == TheoryLead + topic + TheoryTail && topic <= q.correctAnswer
  {
    QuestionDraft("fb_theory_" + uid, Theory, TheoryLead + topic + TheoryTail,
                  topic, difficulty, None, topic + TheoryAnswerTail)
  }

  function FallbackCodeSnippet(topic: string, difficulty: string, uid: string): (q: QuestionDraft)
    ensures q.id == "fb_code_" + uid && IsTemplateId(q.id) && q.qtype == CodeSnippet && q.topic == topic && q.difficulty == difficulty
    ensures q.options.None? && q.text == CodeSnippetText && q.correctAnswer == "6"
  {
    QuestionDraft("fb_code_" + uid, CodeSnippet, CodeSnippetText,
                  topic, difficulty, None, "6")
  }

  function FallbackFillBlank(topic: string, difficulty: string, uid: string): (q: QuestionDraft)
    ensures q.id == "fb_fill_" + uid && IsTemplateId(q.id) && q.qtype == FillBlank && q.topic == topic && q.difficulty == difficulty
    ensures q.options.None? && q.text == FillBlankText && IsBlankLine(q.text) && q.correctAnswer == "pass"
  {
    assert OccursAt(FillBlankText, "_____", |FillBlankText| - 5);
    QuestionDraft("fb_fill_" + uid, FillBlank, FillBlankText, topic, difficulty, None, "pass")
  }

  function FallbackCodingProblem(topic: string, difficulty: string, uid: string): (q: QuestionDraft)
    ensures q.id == "fb_coding_" + uid && IsTemplateId(q.id) && q.qtype == CodingProblem && q.topic == topic && q.difficulty == difficulty
    ensures q.options.None? && q.text == CodingText && q.correctAnswer == CodingAnswer
  {
    QuestionDraft("fb_coding_" + uid, CodingProblem, CodingText,
                  topic, difficulty, None, CodingAnswer)
  }

  /** A template question's identifier starts with `fb_`; a parsed question's never does. */
  predicate IsTemplateId(id: string) {
    |id| >= 3 && id[0] == 'f' && id[1] == 'b' && id[2] == '_'
  }

  lemma GeneratedIsNotTemplate(round: int, role: string, level: string, topic: string, d: Draw)
    ensures !IsTemplateId(GeneratedQuestion(round, role, level, topic, d).id)
  {
    var t := ResolveTopic(role, level, topic, d.topicPick);
    var coding := CodingFromReply(d.reply, t, CodingDifficulty(|GeneratedQuestions|), d.uid);
    assert coding.id[1] != 'b';
  }
}
