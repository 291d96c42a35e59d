/**
 * The parsers that turn a free-text reply of the generation service into a
 * question (the `_parse_*_response` methods of the question generator).
 *
 * The multiple-choice, one-word and fill-in-the-blank parsers walk the reply
 * line by line, reassigning the question, answer and options as they go;
 * each is a method with that loop, specified by a function that folds one
 * step per line (`McqScanOf`, `OneWordScanOf`, `FillBlankScanOf`). The
 * theory, code-snippet and coding-problem parsers are expressions and are
 * functions.
 */
module ReplyParsers {
  import opened Wrappers
  import opened PyStr
  import opened Models

  const QuestionPrefix: string := "Question:"
  const ShortQuestionPrefix: string := "Q:"
  const OptionsPrefix: string := "Options:"
  const AnswerPrefix: string := "Correct Answer:"

  /** `response.strip().split('\n')` */
  function Lines(response: string): (lines: seq<string>)
    ensures |lines| >= 1
  {
    Split(Strip(response), '\n')
  }

  /** `response.split('\n')[0]` */
  function FirstLine(response: string): string {
    Split(response, '\n')[0]
  }

  predicate IsQuestionLine(line: string) {
    QuestionPrefix <= line || ShortQuestionPrefix <= line
  }

  /** Every line the parsers split at a colon starts with a prefix ending in one. */
  lemma ColonAfterPrefix(line: string)
    requires IsQuestionLine(line) || OptionsPrefix <= line || AnswerPrefix <= line
    ensures ':' in line
  {
    if QuestionPrefix <= line {
      assert line[|QuestionPrefix| - 1] == ':';
    } else if ShortQuestionPrefix <= line {
      assert line[|ShortQuestionPrefix| - 1] == ':';
    } else if OptionsPrefix <= line {
      assert line[|OptionsPrefix| - 1] == ':';
    } else {
      assert line[|AnswerPrefix| - 1] == ':';
    }
  }

  /** `line.split(':', 1)[1]`: what follows the first colon. */
  function AfterColon(line: string): (r: string)
    requires ':' in line
    ensures |r| < |line|
  {
    line[IndexOf(line, ':') + 1..]
  }

  /** `line.split(':', 1)[1].strip()` for a line with one of the known prefixes. */
  function FieldText(line: string): string
    requires IsQuestionLine(line) || OptionsPrefix <= line || AnswerPrefix <= line
  {
    ColonAfterPrefix(line);
    Strip(AfterColon(line))
  }

  /** `[x.strip() for x in items]` */
  function StripEach(items: seq<string>): (r: seq<string>)
    ensures |r| == |items|
    ensures forall i :: 0 <= i < |r| ==> r[i] == Strip(items[i])
  {
    if items == [] then [] else [Strip(items[0])] + StripEach(items[1..])
  }

  // ================================================================ multiple choice

  /** The loop variables of `_parse_mcq_response`. */
  datatype McqScan = McqScan(question: string, options: seq<string>, answer: string)

  /** One pass of that loop over `line`. */
  function McqStep(st: McqScan, line: string): McqScan {
    if IsQuestionLine(line) then st.(question := FieldText(line))
    else if OptionsPrefix <= line then st.(options := StripEach(Split(FieldText(line), ',')))
    else if AnswerPrefix <= line then st.(answer := FieldText(line))
    else if Strip(line) != "" && '?' in line && st.question == "" then st.(question := Strip(line))
    else if |Strip(line)| > 1 && Strip(line)[1] == ')' && |st.options| < 4 then st.(options := st.options + [Strip(line)])
    else st
  }

  /** The loop variables after the loop has visited `lines`. */
  function McqScanOf(lines: seq<string>): McqScan
    decreases |lines|
  {
    if lines == [] then McqScan("", [], "")
    else McqStep(McqScanOf(lines[..|lines| - 1]), lines[|lines| - 1])
  }

  const PlaceholderOptions: seq<string> := ["Option A", "Option B", "Option C", "Option D"]

  /** The question `_parse_mcq_response` returns for `response`. */
  function McqFromReply(response: string, topic: string, difficulty: string, uid: string): (q: QuestionDraft)
    ensures q.qtype == Mcq && q.id == "mcq_" + uid && q.topic == topic && q.difficulty == difficulty
    ensures q.options.Some? && |q.options.value| <= 4
  {
    var st := McqScanOf(Lines(response));
    var st' := if st.question == "" then McqScan(Strip(FirstLine(response)), PlaceholderOptions, "Option A") else st;
    QuestionDraft("mcq_" + uid, Mcq, st'.question, topic, difficulty, Some(Take(st'.options, 4)), st'.answer)
  }

  method ParseMcqResponse(response: string, topic: string, difficulty: string, uid: string)
    returns (q: QuestionDraft)
    ensures q == McqFromReply(response, topic, difficulty, uid)
  {
    var lines := Lines(response);
    var question, options, answer := "", [], "";
    var i := 0;
    while i < |lines|
      invariant i <= |lines|
      invariant McqScan(question, options, answer) == McqScanOf(lines[..i])
    {
      var line := lines[i];
      McqScanOfNext(lines, i);
      if QuestionPrefix <= line || ShortQuestionPrefix <= line {
        question := FieldText(line);
      } else if OptionsPrefix <= line {
        var optsText := FieldText(line);
        options := StripEach(Split(optsText, ','));
      } else if AnswerPrefix <= line {
        answer := FieldText(line);
      } else if Strip(line) != "" && '?' in line && question == "" {
        question := Strip(line);
      } else if |Strip(line)| > 1 && Strip(line)[1] == ')' && |options| < 4 {
        options := options + [Strip(line)];
      }
      i := i + 1;
    }
    assert lines[..i] == lines;
    if question == "" {
      question := Strip(FirstLine(response));
      options := PlaceholderOptions;
      answer := "Option A";
    }
    q := QuestionDraft("mcq_" + uid, Mcq, question, topic, difficulty, Some(Take(options, 4)), answer);
  }

  /** Visiting one more line is one more step of the fold. */
  lemma McqScanOfNext(lines: seq<string>, i: nat)
    requires i < |lines|
    ensures McqScanOf(lines[..i + 1]) == McqStep(McqScanOf(lines[..i]), lines[i])
  {
    assert lines[..i + 1][..i] == lines[..i];
  }

  /** The last `Question:`/`Q:` line with text decides the question: a later
      line with a question mark cannot override it. */
  lemma McqLastQuestionLine(lines: seq<string>, k: nat)
    requires k < |lines| && IsQuestionLine(lines[k]) && FieldText(lines[k]) != ""
    requires forall j :: k < j < |lines| ==> !IsQuestionLine(lines[j])
    ensures McqScanOf(lines).question == FieldText(lines[k])
  {
    McqQuestionKept(lines, k, |lines|);
    assert lines[..|lines|] == lines;
  }

  /** After the question line at `k`, each further prefix keeps its text. */
  lemma {:induction false} McqQuestionKept(lines: seq<string>, k: nat, m: nat)
    requires k < m <= |lines| && IsQuestionLine(lines[k]) && FieldText(lines[k]) != ""
    requires forall j :: k < j < |lines| ==> !IsQuestionLine(lines[j])
    ensures McqScanOf(lines[..m]).question == FieldText(lines[k])
    decreases m
  {
    var prefix := lines[..m - 1];
    assert lines[..m][..m - 1] == prefix;
    if k < m - 1 {
      McqQuestionKept(lines, k, m - 1);
      McqStepKeepsQuestion(McqScanOf(prefix), lines[m - 1]);
    } else {
      McqStepSetsQuestion(McqScanOf(prefix), lines[m - 1]);
    }
  }

  lemma McqStepSetsQuestion(st: McqScan, line: string)
    requires IsQuestionLine(line)
    ensures McqStep(st, line).question == FieldText(line)
  {
  }

  lemma McqStepKeepsQuestion(st: McqScan, line: string)
    requires !IsQuestionLine(line) && st.question != ""
    ensures McqStep(st, line).question == st.question
  {
  }

  /** When no question is recognised, the placeholder question is used and its
      answer is one of its options. */
  lemma McqPlaceholder(response: string, topic: string, difficulty: string, uid: string)
    requires McqScanOf(Lines(response)).question == ""
    ensures var q := McqFromReply(response, topic, difficulty, uid);
            q.text == Strip(FirstLine(response)) && q.options == Some(PlaceholderOptions)
            && q.correctAnswer == "Option A" && q.correctAnswer in q.options.value
  {
  }

  lemma {:induction false} McqScanAnswerStripped(lines: seq<string>)
    ensures Strip(McqScanOf(lines).answer) == McqScanOf(lines).answer
    decreases |lines|
  {
    if lines != [] {
      var last := lines[|lines| - 1];
      McqScanAnswerStripped(lines[..|lines| - 1]);
      if !IsQuestionLine(last) && !(OptionsPrefix <= last) && AnswerPrefix <= last {
        ColonAfterPrefix(last);
        StripIdempotent(AfterColon(last));
      }
    } else {
      assert Strip("") == "";
    }
  }

  /** The multiple-choice answer never carries surrounding whitespace. */
  lemma McqAnswerStripped(response: string, topic: string, difficulty: string, uid: string)
    ensures var q := McqFromReply(response, topic, difficulty, uid);
            Strip(q.correctAnswer) == q.correctAnswer
  {
    McqScanAnswerStripped(Lines(response));
    StripCharacterization("", "Option A", "");
    assert "" + "Option A" + "" == "Option A";
  }

  // ================================================================ one word

  /** The loop variables of `_parse_one_word_response`. */
  datatype OneWordScan = OneWordScan(question: string, answer: string)

  function OneWordStep(st: OneWordScan, line: string): OneWordScan {
    if IsQuestionLine(line) then st.(question := FieldText(line))
    else if AnswerPrefix <= line then st.(answer := FieldText(line))
    else if '?' in line && st.question == "" then st.(question := Strip(line))
    else if Strip(line) != "" && st.answer == "" && |SplitWhitespace(line)| < 5 then st.(answer := Strip(line))
    else st
  }

  function OneWordScanOf(lines: seq<string>): OneWordScan
    decreases |lines|
  {
    if lines == [] then OneWordScan("", "")
    else OneWordStep(OneWordScanOf(lines[..|lines| - 1]), lines[|lines| - 1])
  }

  /** The question `_parse_one_word_response` returns for `response`. */
  function OneWordFromReply(response: string, topic: string, difficulty: string, uid: string): (q: QuestionDraft)
    ensures q.qtype == OneWord && q.id == "one_" + uid && q.topic == topic && q.difficulty == difficulty
    ensures q.options.None?
  {
    var st := OneWordScanOf(Lines(response));
    var st' := if st.question == "" then OneWordScan(Strip(FirstLine(response)), "Python") else st;
    QuestionDraft("one_" + uid, OneWord, st'.question, topic, difficulty, None, st'.answer)
  }

  method ParseOneWordResponse(response: string, topic: string, difficulty: string, uid: string)
    returns (q: QuestionDraft)
    ensures q == OneWordFromReply(response, topic, difficulty, uid)
  {
    var lines := Lines(response);
    var question, answer := "", "";
    var i := 0;
    while i < |lines|
      invariant i <= |lines|
      invariant OneWordScan(question, answer) == OneWordScanOf(lines[..i])
    {
      var line := lines[i];
      assert lines[..i + 1][..i] == lines[..i];
      assert OneWordScanOf(lines[..i + 1]) == OneWordStep(OneWordScan(question, answer), line);
      if QuestionPrefix <= line || ShortQuestionPrefix <= line {
        question := FieldText(line);
      } else if AnswerPrefix <= line {
        answer := FieldText(line);
      } else if '?' in line && question == "" {
        question := Strip(line);
      } else if Strip(line) != "" && answer == "" && |SplitWhitespace(line)| < 5 {
        answer := Strip(line);
      }
      i := i + 1;
    }
    assert lines[..i] == lines;
    if question == "" {
      question := Strip(FirstLine(response));
      answer := "Python";
    }
    q := QuestionDraft("one_" + uid, OneWord, question, topic, difficulty, None, answer);
  }

  /** Without a recognised question the answer falls back to `Python`. */
  lemma OneWordPlaceholder(response: string, topic: string, difficulty: string, uid: string)
    requires OneWordScanOf(Lines(response)).question == ""
    ensures var q := OneWordFromReply(response, topic, difficulty, uid);
            q.text == Strip(FirstLine(response)) && q.correctAnswer == "Python"
  {
  }

  /** A line after which an answer already found stands: it is not a
      `Correct Answer:` line, or it is also a question line. */
  predicate KeepsAnswer(line: string) {
    !(AnswerPrefix <= line) || IsQuestionLine(line)
  }

  /** A short line is taken as the answer only while no answer is set: with a
      question found and no `Correct Answer:` line, the answer is the first
      non-blank line of fewer than five words that is not itself taken as the
      question. */
  lemma OneWordFirstShortLine(lines: seq<string>, k: nat)
    requires k < |lines|
    requires OneWordScanOf(lines[..k]).answer == ""
    requires !IsQuestionLine(lines[k]) && !(AnswerPrefix <= lines[k])
    requires !('?' in lines[k] && OneWordScanOf(lines[..k]).question == "")
    requires Strip(lines[k]) != "" && |SplitWhitespace(lines[k])| < 5
    requires forall j {:trigger KeepsAnswer(lines[j])} :: k < j < |lines| ==> KeepsAnswer(lines[j])
    ensures OneWordScanOf(lines).answer == Strip(lines[k])
  {
    assert lines[..k + 1][..k] == lines[..k];
    OneWordStepSetsAnswer(OneWordScanOf(lines[..k]), lines[k]);
    OneWordAnswerStays(lines, k + 1, Strip(lines[k]));
  }

  /** Once a prefix has a non-empty answer, lines that keep it keep it to the end. */
  lemma {:induction false} OneWordAnswerStays(lines: seq<string>, m0: nat, answer: string)
    requires 1 <= m0 <= |lines| && answer != ""
    requires OneWordScanOf(lines[..m0]).answer == answer
    requires forall j {:trigger KeepsAnswer(lines[j])} :: m0 <= j < |lines| ==> KeepsAnswer(lines[j])
    ensures OneWordScanOf(lines).answer == answer
    decreases |lines|
  {
    var n := |lines|;
    if m0 < n {
      var prefix := lines[..n - 1];
      assert prefix[..m0] == lines[..m0];
      forall j | m0 <= j < |prefix| ensures KeepsAnswer(prefix[j]) {
        assert prefix[j] == lines[j];
      }
      OneWordAnswerStays(prefix, m0, answer);
      assert KeepsAnswer(lines[n - 1]);
      OneWordPrefixKeepsAnswer(lines, n);
      assert lines[..n] == lines;
    } else {
      assert lines[..m0] == lines;
    }
  }

  lemma OneWordPrefixKeepsAnswer(lines: seq<string>, m: nat)
    requires 1 <= m <= |lines| && OneWordScanOf(lines[..m - 1]).answer != ""
    requires KeepsAnswer(lines[m - 1])
    ensures OneWordScanOf(lines[..m]).answer == OneWordScanOf(lines[..m - 1]).answer
  {
    assert lines[..m][..m - 1] == lines[..m - 1];
    OneWordStepKeepsAnswer(OneWordScanOf(lines[..m - 1]), lines[m - 1]);
  }

  lemma OneWordStepSetsAnswer(st: OneWordScan, line: string)
    requires st.answer == "" && !IsQuestionLine(line) && !(AnswerPrefix <= line)
    requires !('?' in line && st.question == "")
    requires Strip(line) != "" && |SplitWhitespace(line)| < 5
    ensures OneWordStep(st, line).answer == Strip(line)
  {
  }

  lemma OneWordStepKeepsAnswer(st: OneWordScan, line: string)
    requires st.answer != "" && KeepsAnswer(line)
    ensures OneWordStep(st, line).answer == st.answer
  {
  }

  lemma {:induction false} OneWordScanAnswerStripped(lines: seq<string>)
    ensures Strip(OneWordScanOf(lines).answer) == OneWordScanOf(lines).answer
    decreases |lines|
  {
    if lines != [] {
      var last := lines[|lines| - 1];
      OneWordScanAnswerStripped(lines[..|lines| - 1]);
      if !IsQuestionLine(last) && AnswerPrefix <= last {
        ColonAfterPrefix(last);
        StripIdempotent(AfterColon(last));
      } else {
        StripIdempotent(last);
      }
    } else {
      assert Strip("") == "";
    }
  }

  /** The one-word answer never carries surrounding whitespace. */
  lemma OneWordAnswerStripped(response: string, topic: string, difficulty: string, uid: string)
    ensures var q := OneWordFromReply(response, topic, difficulty, uid);
            Strip(q.correctAnswer) == q.correctAnswer
  {
    OneWordScanAnswerStripped(Lines(response));
    StripCharacterization("", "Python", "");
    assert "" + "Python" + "" == "Python";
  }

  // ================================================================ fill in the blank

  /** `'_____' in line or 'blank' in line.lower()` */
  predicate IsBlankLine(line: string) {
    Contains(line, "_____") || Contains(Lower(line), "blank")
  }

  /** The loop variables of `_parse_fill_blank_response`. */
  datatype FillBlankScan = FillBlankScan(question: string, answer: string)

  function FillBlankStep(st: FillBlankScan, line: string): FillBlankScan {
    if IsBlankLine(line) then st.(question := Strip(line))
    else if AnswerPrefix <= line then st.(answer := FieldText(line))
    else if Strip(line) != "" && st.answer == "" then st.(answer := Strip(line))
    else st
  }

  function FillBlankScanOf(lines: seq<string>): FillBlankScan
    decreases |lines|
  {
    if lines == [] then FillBlankScan("", "")
    else FillBlankStep(FillBlankScanOf(lines[..|lines| - 1]), lines[|lines| - 1])
  }

  /** The question `_parse_fill_blank_response` returns for `response`. */
  function FillBlankFromReply(response: string, topic: string, difficulty: string, uid: string): (q: QuestionDraft)
    ensures q.qtype == FillBlank && q.id == "fill_" + uid && q.topic == topic && q.difficulty == difficulty
    ensures q.options.None?
  {
    var lines := Lines(response);
    var st := FillBlankScanOf(lines);
    var question := if st.question == "" then lines[0] else st.question;
    QuestionDraft("fill_" + uid, FillBlank, question, topic, difficulty, None, st.answer)
  }

  method ParseFillBlankResponse(response: string, topic: string, difficulty: string, uid: string)
    returns (q: QuestionDraft)
    ensures q == FillBlankFromReply(response, topic, difficulty, uid)
  {
    var lines := Lines(response);
    var question, answer := "", "";
    var i := 0;
    while i < |lines|
      invariant i <= |lines|
      invariant FillBlankScan(question, answer) == FillBlankScanOf(lines[..i])
    {
      var line := lines[i];
      assert lines[..i + 1][..i] == lines[..i];
      assert FillBlankScanOf(lines[..i + 1]) == FillBlankStep(FillBlankScan(question, answer), line);
      if Contains(line, "_____") || Contains(Lower(line), "blank") {
        question := Strip(line);
      } else if AnswerPrefix <= line {
        answer := FieldText(line);
      } else if Strip(line) != "" && answer == "" {
        answer := Strip(line);
      }
      i := i + 1;
    }
    assert lines[..i] == lines;
    if question == "" {
      question := lines[0];
    }
    q := QuestionDraft("fill_" + uid, FillBlank, question, topic, difficulty, None, answer);
  }

  /** A line that mentions a blank always has visible text. */
  lemma BlankLineVisible(line: string)
    requires IsBlankLine(line)
    ensures Strip(line) != ""
  {
    if Contains(line, "_____") {
      var k := Find(line, "_____").value;
      assert OccursAt(line, "_____", k);
      assert line[k] == line[k..k + 5][0] == '_';
      assert !IsSpace(line[k]);
    } else {
      var k := Find(Lower(line), "blank").value;
      assert OccursAt(Lower(line), "blank", k);
      assert Lower(line)[k] == Lower(line)[k..k + 5][0] == 'b';
      assert LowerChar(line[k]) == 'b';
      assert !IsSpace(line[k]);
    }
  }

  /** The question is the last line mentioning a blank ... */
  lemma FillBlankLastBlankLine(lines: seq<string>, k: nat)
    requires k < |lines| && IsBlankLine(lines[k])
    requires forall j :: k < j < |lines| ==> !IsBlankLine(lines[j])
    ensures FillBlankScanOf(lines).question == Strip(lines[k])
  {
    FillBlankQuestionKept(lines, k, |lines|);
    assert lines[..|lines|] == lines;
  }

  /** From the blank line at `k` on, each prefix keeps it as the question. */
  lemma {:induction false} FillBlankQuestionKept(lines: seq<string>, k: nat, m: nat)
    requires k < m <= |lines| && IsBlankLine(lines[k])
    requires forall j :: k < j < |lines| ==> !IsBlankLine(lines[j])
    ensures FillBlankScanOf(lines[..m]).question == Strip(lines[k])
    decreases m
  {
    assert lines[..m][..m - 1] == lines[..m - 1];
    if k < m - 1 {
      FillBlankQuestionKept(lines, k, m - 1);
    }
  }

  /** ... and without such a line no question is found. */
  lemma {:induction false} FillBlankNoBlankLine(lines: seq<string>)
    requires forall j :: 0 <= j < |lines| ==> !IsBlankLine(lines[j])
    ensures FillBlankScanOf(lines).question == ""
    decreases |lines|
  {
    if lines != [] {
      FillBlankNoBlankLine(lines[..|lines| - 1]);
    }
  }

  /** The fill-in-the-blank question: the stripped last blank line, or else the
      first line of the stripped reply. */
  lemma FillBlankQuestion(response: string, topic: string, difficulty: string, uid: string)
    ensures var lines := Lines(response);
            var q := FillBlankFromReply(response, topic, difficulty, uid);
            (forall j :: 0 <= j < |lines| ==> !IsBlankLine(lines[j])) ==> q.text == lines[0]
    ensures var lines := Lines(response);
            var q := FillBlankFromReply(response, topic, difficulty, uid);
            forall k :: 0 <= k < |lines| && IsBlankLine(lines[k])
                        && (forall j :: k < j < |lines| ==> !IsBlankLine(lines[j]))
                        ==> q.text == Strip(lines[k])
  {
    var lines := Lines(response);
    if forall j :: 0 <= j < |lines| ==> !IsBlankLine(lines[j]) {
      FillBlankNoBlankLine(lines);
    }
    forall k | 0 <= k < |lines| && IsBlankLine(lines[k]) && (forall j :: k < j < |lines| ==> !IsBlankLine(lines[j]))
      ensures FillBlankFromReply(response, topic, difficulty, uid).text == Strip(lines[k])
    {
      FillBlankLastBlankLine(lines, k);
      BlankLineVisible(lines[k]);
    }
  }

  // ================================================================ theory

  /** Question and untruncated answer of `_parse_theory_response`. */
  function TheoryParts(response: string): (string, string) {
    match SplitFirst(response, AnswerPrefix)
    case Some((before, after)) => (Strip(ReplaceAll(before, QuestionPrefix, "")), Strip(after))
    case None =>
      var lines := Lines(response);
      (lines[0], if |lines| > 1 then Join(lines[1..], '\n') else "Detailed explanation")
  }

  /** The question `_parse_theory_response` returns: the answer keeps the
      first 500 characters of the parsed answer, all of it when it is shorter. */
  function TheoryFromReply(response: string, topic: string, difficulty: string, uid: string): (q: QuestionDraft)
    ensures q.qtype == Theory && q.id == "theory_" + uid && q.topic == topic && q.difficulty == difficulty
    ensures q.options.None? && |q.correctAnswer| <= 500
    ensures q.correctAnswer <= TheoryParts(response).1
    ensures |TheoryParts(response).1| <= 500 ==> q.correctAnswer == TheoryParts(response).1
    ensures |TheoryParts(response).1| >= 500 ==> |q.correctAnswer| == 500
  {
    var (question, answer) := TheoryParts(response);
    QuestionDraft("theory_" + uid, Theory, question, topic, difficulty, None, Take(answer, 500))
  }

  /** With a `Correct Answer:` marker the reply is cut at its first occurrence. */
  lemma TheoryWithMarker(before: string, after: string)
    requires forall j :: 0 <= j < |before| ==> !OccursAt(before + AnswerPrefix + after, AnswerPrefix, j)
    ensures TheoryParts(before + AnswerPrefix + after)
            == (Strip(ReplaceAll(before, QuestionPrefix, "")), Strip(after))
  {
    SplitFirstIs(before + AnswerPrefix + after, AnswerPrefix, before, after);
  }

  /** Without the marker the first line of the stripped reply is the question
      and the remaining lines, rejoined, are the answer. */
  lemma TheoryWithoutMarker(response: string)
    requires SplitFirst(response, AnswerPrefix).None?
    requires '\n' in Strip(response)
    ensures '\n' !in TheoryParts(response).0
    ensures TheoryParts(response).0 + "\n" + TheoryParts(response).1 == Strip(response)
  {
    var s := Strip(response);
    var lines := Lines(response);
    JoinSplit(s, '\n');
  }

  /** A single-line reply without the marker is the question, with the stock
      answer `Detailed explanation`; so is the empty reply of a failed call. */
  lemma TheorySingleLine(response: string)
    requires SplitFirst(response, AnswerPrefix).None?
    requires '\n' !in Strip(response)
    ensures TheoryParts(response) == (Strip(response), "Detailed explanation")
  {
  }

  // ================================================================ code snippet

  predicate IsWordChar(c: char) {
    ('a' <= c <= 'z') || ('A' <= c <= 'Z') || ('0' <= c <= '9') || c == '_'
  }

  /** Length of the run of word characters (`\w`) starting at `i`. */
  function WordRunFrom(s: string, i: nat): (n: nat)
    requires i <= |s|
    ensures i + n <= |s|
    decreases |s| - i
  {
    if i < |s| && IsWordChar(s[i]) then 1 + WordRunFrom(s, i + 1) else 0
  }

  /** A match of the fence pattern ```` ```(?:\w+)?\n(.*?)\n``` ```` (dot matching
      newlines) that starts at `i`: the captured block and the index just past
      the closing fence. */
  function FenceAt(s: string, i: nat): (r: Option<(string, nat)>)
    requires i <= |s|
    ensures r.Some? ==> i < r.value.1 <= |s|
  {
    if !OccursAt(s, "```", i) then None
    else
      var k := i + 3 + WordRunFrom(s, i + 3);
      if k < |s| && s[k] == '\n' then
        match FindFrom(s, "\n```", k + 1)
        case None => None
        case Some(j) => Some((s[k + 1..j], j + 4))
      else None
  }

  /** `re.findall` of the fence pattern from index `i` on. */
  function FencedBlocksFrom(s: string, i: nat): seq<string>
    requires i <= |s|
    decreases |s| - i
  {
    if i == |s| then []
    else
      match FenceAt(s, i)
      case Some((block, next)) => [block] + FencedBlocksFrom(s, next)
      case None => FencedBlocksFrom(s, i + 1)
  }

  function FencedBlocks(s: string): seq<string> {
    FencedBlocksFrom(s, 0)
  }

  /** The group of `re.search(marker + '(.*?)(?:\n|$)', s)`: the rest of the line
      after the first occurrence of `marker`. */
  function RestOfLineAfter(s: string, marker: string): (r: Option<string>)
    ensures r.Some? ==> '\n' !in r.value
  {
    match Find(s, marker)
    case None => None
    case Some(k) =>
      var t := s[k + |marker|..];
      Some(t[..IndexOf(t, '\n')])
  }

  /** `line.startswith((' ', '\t'))` */
  predicate IsIndented(line: string) {
    line != "" && (line[0] == ' ' || line[0] == '\t')
  }

  /** `[line for line in lines if line.startswith((' ', '\t'))]` */
  function IndentedLines(lines: seq<string>): (r: seq<string>)
    ensures |r| <= |lines|
  {
    if lines == [] then []
    else
      (if IsIndented(lines[0]) then [lines[0]] else []) + IndentedLines(lines[1..])
  }

  /** The filter keeps exactly the indented lines: everything it keeps is an
      indented line of the input, every indented line is kept, and nothing is
      kept exactly when no line is indented. */
  lemma {:induction false} IndentedLinesMembers(lines: seq<string>)
    ensures forall l :: l in IndentedLines(lines) ==> l in lines && IsIndented(l)
    ensures forall i :: 0 <= i < |lines| && IsIndented(lines[i]) ==> lines[i] in IndentedLines(lines)
    ensures IndentedLines(lines) == [] <==> forall i :: 0 <= i < |lines| ==> !IsIndented(lines[i])
    decreases |lines|
  {
    if lines != [] {
      IndentedLinesMembers(lines[1..]);
      forall i | 0 < i < |lines| && IsIndented(lines[i])
        ensures lines[i] in IndentedLines(lines)
      {
        assert lines[i] == lines[1..][i - 1];
      }
    }
  }

  /** The filter works line by line and keeps the lines' order. */
  lemma {:induction false} IndentedLinesAppend(a: seq<string>, b: seq<string>)
    ensures IndentedLines(a + b) == IndentedLines(a) + IndentedLines(b)
    decreases |a|
  {
    if a != [] {
      var head := if IsIndented(a[0]) then [a[0]] else [];
      assert (a + b)[0] == a[0] && (a + b)[1..] == a[1..] + b;
      assert IndentedLines(a + b) == head + IndentedLines(a[1..] + b);
      IndentedLinesAppend(a[1..], b);
    } else {
      assert a + b == b;
    }
  }

  /** The code shown with a code-snippet question. */
  function SnippetCode(response: string): string {
    var blocks := FencedBlocks(response);
    if blocks != [] then blocks[0]
    else
      var codeLines := IndentedLines(Lines(response));
      if codeLines != [] then Join(codeLines, '\n') else "print('Hello World')"
  }

  /** The run of word characters starting at `i` has length `n` when `n` word
      characters follow `i` and a character that is not one comes next. */
  lemma {:induction false} WordRunIs(s: string, i: nat, n: nat)
    requires i + n < |s| && !IsWordChar(s[i + n])
    requires forall t :: i <= t < i + n ==> IsWordChar(s[t])
    ensures WordRunFrom(s, i) == n
    decreases n
  {
    if n > 0 {
      WordRunIs(s, i + 1, n - 1);
    }
  }

  /** A reply opening with a fence (```` ``` ````, an optional language word, a
      newline, the code, a newline, ```` ``` ````) shows that code, provided the
      code holds no closing fence of its own. */
  lemma SnippetFromFence(w: string, code: string, rest: string)
    requires forall t :: 0 <= t < |w| ==> IsWordChar(w[t])
    requires forall j :: 0 <= j < |code| ==> !OccursAt(code, "\n```", j)
    ensures SnippetCode("```" + w + "\n" + code + "\n```" + rest) == code
  {
    var s := "```" + w + "\n" + code + "\n```" + rest;
    var k := 3 + |w|;
    var e := k + 1 + |code|;
    assert s[..3] == "```";
    forall t | 3 <= t < k ensures IsWordChar(s[t]) {
      assert s[t] == w[t - 3];
    }
    assert s[k] == '\n';
    WordRunIs(s, 3, |w|);
    assert s[e..e + 4] == "\n```";
    forall j | k + 1 <= j < e ensures !OccursAt(s, "\n```", j) {
      FenceFreeInside(s, code, k + 1, j);
    }
    assert OccursAt(s, "\n```", e);
    var found := FindFrom(s, "\n```", k + 1);
    assert found == Some(e);
    assert s[k + 1..e] == code;
    assert FenceAt(s, 0) == Some((code, e + 4));
  }

  /** Inside the code, the closing fence can only start where the code holds one. */
  lemma FenceFreeInside(s: string, code: string, c: nat, j: nat)
    requires c + |code| < |s| && s[c..c + |code|] == code && s[c + |code|] == '\n'
    requires forall j :: 0 <= j < |code| ==> !OccursAt(code, "\n```", j)
    requires c <= j < c + |code|
    ensures !OccursAt(s, "\n```", j)
  {
    var e := c + |code|;
    if j + 4 <= e {
      var w := code[j - c..j - c + 4];
      forall t | 0 <= t < 4
        ensures w[t] == s[j..j + 4][t]
      {
        assert w[t] == code[j - c + t] == s[c..e][j - c + t] == s[j + t];
      }
      assert w == s[j..j + 4];
      assert !OccursAt(code, "\n```", j - c);
    } else if j + 4 <= |s| {
      assert s[j..j + 4][e - j] == s[e];
    }
  }

  /** Without any ```` ``` ```` the reply has no fenced block ... */
  lemma {:induction false} NoFenceNoBlocks(s: string, i: nat)
    requires i <= |s|
    requires forall j :: 0 <= j < |s| ==> !OccursAt(s, "```", j)
    ensures FencedBlocksFrom(s, i) == []
    decreases |s| - i
  {
    if i < |s| {
      NoFenceNoBlocks(s, i + 1);
    }
  }

  /** ... so the code shown is its indented lines, one per line, or the
      `print('Hello World')` placeholder when no line is indented. */
  lemma SnippetWithoutFence(response: string)
    requires forall j :: 0 <= j < |response| ==> !OccursAt(response, "```", j)
    ensures var lines := Lines(response);
            (exists i :: 0 <= i < |lines| && IsIndented(lines[i]))
            ==> SnippetCode(response) == Join(IndentedLines(lines), '\n')
    ensures var lines := Lines(response);
            (forall i :: 0 <= i < |lines| ==> !IsIndented(lines[i]))
            ==> SnippetCode(response) == "print('Hello World')"
  {
    NoFenceNoBlocks(response, 0);
    IndentedLinesMembers(Lines(response));
  }

  /** The question `_parse_code_snippet_response` returns (also used for output prediction). */
  function CodeSnippetFromReply(response: string, topic: string, difficulty: string, uid: string): (q: QuestionDraft)
    ensures q.qtype == CodeSnippet && q.id == "code_" + uid && q.topic == topic && q.difficulty == difficulty
    ensures q.options.None?
  {
    var question := match RestOfLineAfter(response, QuestionPrefix)
      case Some(t) => Strip(t)
      case None => "What is the output of this code?";
    var answer := match RestOfLineAfter(response, AnswerPrefix)
      case Some(t) => Strip(t)
      case None => "Output would be...";
    QuestionDraft("code_" + uid, CodeSnippet, question + "\n\n```python\n" + SnippetCode(response) + "\n```",
                  topic, difficulty, None, answer)
  }

  /** The code-snippet answer is a single line. */
  lemma CodeSnippetAnswerOneLine(response: string, topic: string, difficulty: string, uid: string)
    ensures '\n' !in CodeSnippetFromReply(response, topic, difficulty, uid).correctAnswer
  {
    var a := CodeSnippetFromReply(response, topic, difficulty, uid).correctAnswer;
    match RestOfLineAfter(response, AnswerPrefix)
    case Some(t) =>
      if '\n' in a { StripChars(t, '\n'); }
    case None =>
  }

  // ================================================================ coding problem

  /** Problem text and solution of `_parse_coding_problem_response`. */
  function CodingParts(response: string): (string, string) {
    match SplitFirst(response, AnswerPrefix)
    case Some((before, after)) => (Strip(before), Strip(after))
    case None =>
      var blocks := FencedBlocks(response);
      if blocks != [] then
        var solution := blocks[|blocks| - 1];
        (Strip(ReplaceAll(response, "```\n" + solution + "\n```", "")), solution)
      else (response, "# Solution would be implemented here")
  }

  function CodingFromReply(response: string, topic: string, difficulty: string, uid: string): (q: QuestionDraft)
    ensures q.qtype == CodingProblem && q.id == "coding_" + uid && q.topic == topic && q.difficulty == difficulty
    ensures q.options.None?
  {
    var (problem, solution) := CodingParts(response);
    QuestionDraft("coding_" + uid, CodingProblem, problem, topic, difficulty, None, solution)
  }

  /** With a `Correct Answer:` marker, the problem is what precedes its first
      occurrence and the solution what follows, both stripped. */
  lemma CodingWithMarker(before: string, after: string)
    requires forall j :: 0 <= j < |before| ==> !OccursAt(before + AnswerPrefix + after, AnswerPrefix, j)
    ensures CodingParts(before + AnswerPrefix + after) == (Strip(before), Strip(after))
  {
    SplitFirstIs(before + AnswerPrefix + after, AnswerPrefix, before, after);
  }
}
