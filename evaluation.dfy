/**
 * The evaluator: whether one answer is correct, the score of a round, and the
 * feedback given when a round is failed or the interview is completed.
 *
 * Scores are exact rationals here, where the source computes binary
 * floating-point numbers and rounds them to two decimals.
 */
module Evaluation {
  import opened Wrappers
  import opened PyStr
  import opened Models
  import opened Ranking

  // ================================================================ one answer

  /** `set(reference.lower().split()[:5])` */
  function KeyTerms(reference: string): set<string> {
    set w | w in Take(SplitWhitespace(Lower(reference)), 5)
  }

  /** `set(answer.lower().split())` */
  function AnswerTerms(answer: string): set<string> {
    set w | w in SplitWhitespace(Lower(answer))
  }

  /** The keyword rule: at least 60% of the key terms occur among the answer's
      words; with no key terms the answer is wrong. */
  predicate KeywordMatch(reference: string, answer: string) {
    var key := KeyTerms(reference);
    key != {} && (|key * AnswerTerms(answer)| as real / |key| as real) >= 0.6
  }

  predicate IsExactMatchType(t: QuestionType) {
    t == Mcq || t == OneWord || t == FillBlank
  }

  /** `Evaluator.evaluate_answer`. An accepted exact-match answer, once
      stripped, is as long as the reference; the keyword rule never accepts
      against a blank reference; an accepted coding answer is longer than 20
      characters. */
  function EvaluateAnswer(q: Question, answer: string): (ok: bool)
    ensures IsExactMatchType(q.qtype) && ok ==> |Strip(answer)| == |q.correctAnswer|
    ensures (q.qtype == Theory || q.qtype == CodeSnippet) && ok ==> !AllSpace(q.correctAnswer)
    ensures q.qtype == CodingProblem && ok ==> |answer| > 20
  {
    KeyTermsShape(q.correctAnswer);
    match q.qtype
    case Mcq => Lower(Strip(answer)) == Lower(q.correctAnswer)
    case OneWord => Lower(Strip(answer)) == Lower(q.correctAnswer)
    case FillBlank => Lower(Strip(answer)) == Lower(q.correctAnswer)
    case OutputPrediction => RemoveSpace(answer) == RemoveSpace(q.correctAnswer)
    case Theory => KeywordMatch(q.correctAnswer, answer)
    case CodeSnippet => KeywordMatch(q.correctAnswer, answer)
    case CodingProblem => |Strip(answer)| > 20
  }

  /** Multiple choice, one-word and fill-in-the-blank answers are compared
      without regard to letter case or surrounding whitespace: padding or
      re-casing an answer never changes the verdict. */
  lemma ExactMatchTolerance(q: Question, pre: string, answer: string, post: string)
    requires IsExactMatchType(q.qtype)
    requires AllSpace(pre) && AllSpace(post)
    ensures EvaluateAnswer(q, pre + answer + post) == EvaluateAnswer(q, answer)
    ensures EvaluateAnswer(q, Lower(answer)) == EvaluateAnswer(q, answer)
  {
    StripPadding(pre, answer, post);
    LowerStrip(answer);
    LowerStrip(Lower(answer));
    LowerIdempotent(Strip(answer));
  }

  /** A stripped reference answer is accepted as its own answer, in any letter case. */
  lemma ExactMatchAcceptsReference(q: Question)
    requires IsExactMatchType(q.qtype) && Strip(q.correctAnswer) == q.correctAnswer
    ensures EvaluateAnswer(q, q.correctAnswer)
    ensures EvaluateAnswer(q, Lower(q.correctAnswer))
  {
    ExactMatchTolerance(q, "", q.correctAnswer, "");
  }

  /** A blank answer to an exact-match question is correct exactly when the
      reference answer is empty. */
  lemma BlankExactAnswer(q: Question, answer: string)
    requires IsExactMatchType(q.qtype) && AllSpace(answer)
    ensures EvaluateAnswer(q, answer) <==> q.correctAnswer == ""
  {
    assert Strip(answer) == "";
    assert |Lower(q.correctAnswer)| == |q.correctAnswer|;
  }

  /** Output predictions ignore every whitespace character: inserting
      whitespace anywhere leaves the verdict unchanged. */
  lemma OutputPredictionIgnoresSpace(q: Question, a: string, gap: string, b: string)
    requires q.qtype == OutputPrediction && AllSpace(gap)
    ensures EvaluateAnswer(q, a + gap + b) == EvaluateAnswer(q, a + b)
  {
    RemoveSpaceAppend(a + gap, b);
    RemoveSpaceAppend(a, gap);
    RemoveSpaceAppend(a, b);
    RemoveSpaceFixed(gap);
  }

  /** A blank output prediction is correct exactly when the reference answer
      is blank too. */
  lemma BlankOutputPrediction(q: Question, answer: string)
    requires q.qtype == OutputPrediction && AllSpace(answer)
    ensures EvaluateAnswer(q, answer) <==> AllSpace(q.correctAnswer)
  {
    RemoveSpaceEmpty(answer);
    RemoveSpaceEmpty(q.correctAnswer);
  }

  /** The 60% threshold is the integer condition 5·matches ≥ 3·|key terms|. */
  lemma KeywordThreshold(reference: string, answer: string)
    ensures var key := KeyTerms(reference);
            KeywordMatch(reference, answer) <==> key != {} && 5 * |key * AnswerTerms(answer)| >= 3 * |key|
  {
    var key := KeyTerms(reference);
    if key != {} {
      RatioThreshold(|key * AnswerTerms(answer)|, |key|);
    }
  }

  lemma RatioThreshold(m: nat, k: nat)
    requires k > 0
    ensures m as real / k as real >= 0.6 <==> 5 * m >= 3 * k
  {
    var mr, kr := m as real, k as real;
    var x := mr / kr;
    assert x * kr == mr;
    assert (5 * m) as real == 5.0 * mr && (3 * k) as real == 3.0 * kr;
    if x >= 0.6 {
      assert (x - 0.6) * kr >= 0.0;
      assert 5.0 * mr >= 3.0 * kr;
    } else {
      assert (0.6 - x) * kr > 0.0;
      assert 5.0 * mr < 3.0 * kr;
    }
  }

  lemma {:induction false} SetOfSeqCard(s: seq<string>)
    ensures |set w | w in s| <= |s|
    decreases |s|
  {
    if s != [] {
      var p := s[..|s| - 1];
      SetOfSeqCard(p);
      assert (set w | w in s) == (set w | w in p) + {s[|s| - 1]};
    }
  }

  /** There are at most five key terms, and none exactly when the reference
      answer is blank. */
  lemma KeyTermsShape(reference: string)
    ensures |KeyTerms(reference)| <= 5
    ensures KeyTerms(reference) == {} <==> AllSpace(reference)
  {
    var words := Take(SplitWhitespace(Lower(reference)), 5);
    SetOfSeqCard(words);
    assert AllSpace(Lower(reference)) == AllSpace(reference) by {
      forall i | 0 <= i < |reference| ensures IsSpace(Lower(reference)[i]) == IsSpace(reference[i]) {
      }
    }
    if words != [] {
      assert words[0] in KeyTerms(reference);
    }
  }

  /** An answer whose words include another accepted answer's words is accepted too. */
  lemma KeywordMonotone(reference: string, a: string, b: string)
    requires AnswerTerms(a) <= AnswerTerms(b)
    requires KeywordMatch(reference, a)
    ensures KeywordMatch(reference, b)
  {
    var key := KeyTerms(reference);
    var ma := key * AnswerTerms(a);
    var mb := key * AnswerTerms(b);
    assert mb == ma + (mb - ma);
    KeywordThreshold(reference, a);
    KeywordThreshold(reference, b);
  }

  /** A reference answer that is not blank satisfies the keyword rule. */
  lemma KeywordAcceptsReference(reference: string)
    requires !AllSpace(reference)
    ensures KeywordMatch(reference, reference)
  {
    KeyTermsShape(reference);
    var key := KeyTerms(reference);
    assert key * AnswerTerms(reference) == key;
    KeywordThreshold(reference, reference);
  }

  // ================================================================ one round

  function NumCorrect(qs: seq<Question>): (n: nat)
    ensures n <= |qs|
    decreases |qs|
  {
    if qs == [] then 0 else NumCorrect(qs[..|qs| - 1]) + (if Correct(qs[|qs| - 1]) then 1 else 0)
  }

  /** `correct / total * 100`, and 0 for an empty round. */
  function Score(correct: nat, total: nat): (s: real)
    ensures correct <= total ==> 0.0 <= s <= 100.0
  {
    if total > 0 then (correct as real / total as real) * 100.0 else 0.0
  }

  /** A score reaches a whole-number threshold exactly when the integer
      inequality 100·correct ≥ threshold·total holds (an empty round scores 0). */
  lemma ScoreReaches(correct: nat, total: nat, threshold: int)
    ensures Score(correct, total) >= threshold as real
            <==> if total > 0 then 100 * correct >= threshold * total else threshold <= 0
  {
    if total > 0 {
      var c := correct as real;
      var t := total as real;
      assert (c / t) * t == c;
      var s := Score(correct, total);
      assert s * t == 100.0 * c;
      if s >= threshold as real {
        assert s * t >= (threshold as real) * t;
      } else {
        assert s * t < (threshold as real) * t;
      }
    }
  }

  /** Only a round with every answer correct scores 100. */
  lemma PerfectScore(correct: nat, total: nat)
    requires correct <= total && total > 0
    ensures Score(correct, total) == 100.0 <==> correct == total
  {
    ScoreReaches(correct, total, 100);
  }

  /** The topics sorted by accuracy, best first when `descending`, cut to three. */
  function RankedScores(qs: seq<Question>, descending: bool): seq<Scored> {
    StatsWellFormed(qs);
    Top3(TopicScores(TopicStats(qs)), descending)
  }

  datatype RoundScore = RoundScore(score: real, correctCount: nat, total: nat,
                                   strongest: seq<string>, weakest: seq<string>)

  /** `Evaluator.calculate_round_score` */
  method CalculateRoundScore(qs: seq<Question>) returns (r: RoundScore)
    ensures r.total == |qs| && r.correctCount == NumCorrect(qs) && r.correctCount <= r.total
    ensures r.score == Score(NumCorrect(qs), |qs|) && 0.0 <= r.score <= 100.0
    ensures r.strongest == Names(RankedScores(qs, true))
    ensures r.weakest == Names(RankedScores(qs, false))
  {
    var correct := NumCorrect(qs);
    var total := |qs|;
    var score := if total > 0 then (correct as real / total as real) * 100.0 else 0.0;
    var stats := TallyTopics(qs);
    StatsWellFormed(qs);
    var scores: seq<Scored> := [];
    for i := 0 to |stats|
      invariant scores == TopicScores(stats)[..i]
    {
      scores := scores + [(stats[i].topic, (stats[i].correct as real / stats[i].total as real) * 100.0)];
    }
    assert scores == TopicScores(stats);
    var strongest := Take(SortByScore(scores, true), 3);
    var weakest := Take(SortByScore(scores, false), 3);
    r := RoundScore(score, correct, total, Names(strongest), Names(weakest));
  }

  // ================================================================ feedback

  /** The advice for one of the weakest topics, if its score is below 70. */
  function Advice(x: Scored): Option<string> {
    if x.1 < 50.0 then Some("Focus on " + x.0 + " fundamentals")
    else if x.1 < 70.0 then Some("Practice more " + x.0 + " problems")
    else None
  }

  /** The advice for each of `weakest`, in order. */
  function Recommendations(weakest: seq<Scored>): seq<string>
    decreases |weakest|
  {
    if weakest == [] then []
    else
      var last := weakest[|weakest| - 1];
      Recommendations(weakest[..|weakest| - 1]) + (if last.1 < 70.0 then [Advice(last).value] else [])
  }

  method Recommend(weakest: seq<Scored>) returns (recs: seq<string>)
    ensures recs == Recommendations(weakest)
  {
    recs := [];
    for i := 0 to |weakest|
      invariant recs == Recommendations(weakest[..i])
    {
      assert weakest[..i + 1][..i] == weakest[..i];
      var topic, score := weakest[i].0, weakest[i].1;
      if score < 50.0 {
        recs := recs + ["Focus on " + topic + " fundamentals"];
      } else if score < 70.0 {
        recs := recs + ["Practice more " + topic + " problems"];
      }
    }
    assert weakest[..|weakest|] == weakest;
  }

  /** Each topic below 70 gets its advice line and nothing else is recommended. */
  lemma {:induction false} RecommendationsCover(weakest: seq<Scored>)
    ensures |Recommendations(weakest)| <= |weakest|
    ensures forall i :: 0 <= i < |weakest| && weakest[i].1 < 70.0 ==> Advice(weakest[i]).value in Recommendations(weakest)
    ensures forall line :: line in Recommendations(weakest) ==>
              exists i :: 0 <= i < |weakest| && Advice(weakest[i]) == Some(line)
    decreases |weakest|
  {
    if weakest != [] {
      var p := weakest[..|weakest| - 1];
      RecommendationsCover(p);
      forall i | 0 <= i < |p| ensures weakest[i] == p[i] { }
    }
  }

  /** `f"round_{n}"` */
  function RoundKey(n: int): string {
    "round_" + IntToString(n)
  }

  /** Different rounds are timed under different keys. */
  lemma RoundKeyInjective(m: int, n: int)
    ensures RoundKey(m) == RoundKey(n) <==> m == n
  {
    if RoundKey(m) == RoundKey(n) {
      assert RoundKey(m)[6..] == IntToString(m);
      assert RoundKey(n)[6..] == IntToString(n);
      IntToStringRoundTrip(m);
      IntToStringRoundTrip(n);
    }
  }

  /** The feedback for a failed round, from its result. */
  function FailureFeedback(failed: RoundResult, failedRound: int): Feedback {
    var strongest := RankedScores(failed.questions, true);
    var weakest := RankedScores(failed.questions, false);
    Feedback(failed.score, Names(strongest), Names(weakest), Recommendations(weakest),
             map[RoundKey(failedRound) := failed.timeSpent], "")
  }

  /** The questions of all rounds, in order. */
  function AllQuestions(results: seq<RoundResult>): seq<Question>
    decreases |results|
  {
    if results == [] then [] else AllQuestions(results[..|results| - 1]) + results[|results| - 1].questions
  }

  function SumTotals(results: seq<RoundResult>): nat
    decreases |results|
  {
    if results == [] then 0 else SumTotals(results[..|results| - 1]) + results[|results| - 1].totalQuestions
  }

  /** `sum(r.score * r.total_questions for r in results)` */
  function WeightedSum(results: seq<RoundResult>): real
    decreases |results|
  {
    if results == [] then 0.0
    else WeightedSum(results[..|results| - 1]) + results[|results| - 1].score * results[|results| - 1].totalQuestions as real
  }

  function TotalTime(results: seq<RoundResult>): real
    decreases |results|
  {
    if results == [] then 0.0 else TotalTime(results[..|results| - 1]) + results[|results| - 1].timeSpent
  }

  /** The overall score: the rounds' scores weighted by their question counts. */
  function OverallScore(results: seq<RoundResult>): real
    requires SumTotals(results) > 0
  {
    WeightedSum(results) / SumTotals(results) as real
  }

  /** `{f"round_{i+1}": r.time_spent for i, r in enumerate(results)}` */
  function RoundTimes(results: seq<RoundResult>): map<string, real>
    decreases |results|
  {
    if results == [] then map[]
    else RoundTimes(results[..|results| - 1])[RoundKey(|results|) := results[|results| - 1].timeSpent]
  }

  /** The per-round times with the `total` entry added. */
  function CompletionTimes(results: seq<RoundResult>): map<string, real> {
    RoundTimes(results)["total" := TotalTime(results)]
  }

  /** The feedback for a completed interview. */
  function CompletionFeedback(results: seq<RoundResult>): Feedback
    requires SumTotals(results) > 0
  {
    var qs := AllQuestions(results);
    var strongest := RankedScores(qs, true);
    var weakest := RankedScores(qs, false);
    var recs := ["Your strongest area is " + (if strongest != [] then strongest[0].0 else "multiple areas"),
                 "Consider practicing " + (if weakest != [] then weakest[0].0 else "various topics")];
    Feedback(OverallScore(results), Names(strongest), Names(weakest), recs, CompletionTimes(results), "")
  }

  /** The inner counting loop of completion mode: count the questions of one
      more round on top of the statistics of the rounds before it. */
  method TallyMore(stats: seq<TopicStat>, ghost done: seq<Question>, qs: seq<Question>) returns (next: seq<TopicStat>)
    requires stats == TopicStats(done)
    ensures next == TopicStats(done + qs)
  {
    next := stats;
    assert done + qs[..0] == done;
    for j := 0 to |qs|
      invariant next == TopicStats(done + qs[..j])
    {
      assert (done + qs[..j + 1])[..|done| + j] == done + qs[..j];
      next := TallyQuestion(next, qs[j]);
    }
    assert qs[..|qs|] == qs;
  }

  /** The counting loop of completion mode, over the questions of every round. */
  method TallyRounds(results: seq<RoundResult>) returns (stats: seq<TopicStat>)
    ensures stats == TopicStats(AllQuestions(results))
  {
    stats := [];
    for i := 0 to |results|
      invariant stats == TopicStats(AllQuestions(results[..i]))
    {
      assert results[..i + 1][..i] == results[..i];
      stats := TallyMore(stats, AllQuestions(results[..i]), results[i].questions);
    }
    assert results[..|results|] == results;
  }

  /** Failure mode of `generate_feedback`, given the last round result. */
  method FailureModeFeedback(failed: RoundResult, failedRound: int) returns (f: Feedback)
    ensures f == FailureFeedback(failed, failedRound)
  {
    var stats := TallyTopics(failed.questions);
    StatsWellFormed(failed.questions);
    var scores := TopicScores(stats);
    var strongest := Take(SortByScore(scores, true), 3);
    var weakest := Take(SortByScore(scores, false), 3);
    var recs := Recommend(weakest);
    f := Feedback(failed.score, Names(strongest), Names(weakest), recs,
                  map[RoundKey(failedRound) := failed.timeSpent], "");
  }

  /** Completion mode of `generate_feedback`. */
  method CompletionModeFeedback(results: seq<RoundResult>) returns (f: Feedback)
    requires SumTotals(results) > 0
    ensures f == CompletionFeedback(results)
  {
    var overall := WeightedSum(results) / SumTotals(results) as real;
    var stats := TallyRounds(results);
    StatsWellFormed(AllQuestions(results));
    var scores := TopicScores(stats);
    var strongest := Take(SortByScore(scores, true), 3);
    var weakest := Take(SortByScore(scores, false), 3);
    var recs := ["Your strongest area is " + (if strongest != [] then strongest[0].0 else "multiple areas"),
                 "Consider practicing " + (if weakest != [] then weakest[0].0 else "various topics")];
    f := Feedback(overall, Names(strongest), Names(weakest), recs, CompletionTimes(results), "");
  }

  /** `Evaluator.generate_feedback`. It fails where the source raises: with no
      round results in failure mode, and with no questions at all otherwise. */
  method GenerateFeedback(results: seq<RoundResult>, failedRound: Option<int>) returns (r: Result<Feedback>)
    ensures failedRound.Some? ==> (r.Success? <==> results != [])
    ensures failedRound.Some? && results != [] ==>
              r.value == FailureFeedback(results[|results| - 1], failedRound.value)
    ensures failedRound.None? ==> (r.Success? <==> SumTotals(results) > 0)
    ensures failedRound.None? && SumTotals(results) > 0 ==> r.value == CompletionFeedback(results)
  {
    if failedRound.Some? {
      if results == [] {
        return Failure("IndexError: list index out of range");
      }
      var f := FailureModeFeedback(results[|results| - 1], failedRound.value);
      r := Success(f);
    } else {
      if SumTotals(results) == 0 {
        return Failure("ZeroDivisionError: division by zero");
      }
      var f := CompletionModeFeedback(results);
      r := Success(f);
    }
  }

  // ---------------------------------------------------------------- properties of the feedback

  /** Failure feedback repeats the failed round's score, times only that round
      under `round_<n>`, and lists up to three topics each way. */
  lemma FailureFeedbackShape(failed: RoundResult, failedRound: int)
    ensures var f := FailureFeedback(failed, failedRound);
            && f.score == failed.score
            && f.timeSpent.Keys == {RoundKey(failedRound)} && f.timeSpent[RoundKey(failedRound)] == failed.timeSpent
            && |f.strongestTopics| <= 3 && |f.weakestTopics| <= 3
            && |f.recommendations| <= |f.weakestTopics|
  {
    RecommendationsCover(RankedScores(failed.questions, false));
  }

  /** Completion feedback times every round under `round_1` … `round_<n>`
      plus a `total` entry, and always gives two recommendations. */
  lemma CompletionFeedbackShape(results: seq<RoundResult>)
    requires SumTotals(results) > 0
    ensures var f := CompletionFeedback(results);
            && |f.recommendations| == 2
            && f.timeSpent.Keys == (set n | 1 <= n <= |results| :: RoundKey(n)) + {"total"}
            && (forall k :: 1 <= k <= |results| ==> f.timeSpent[RoundKey(k)] == results[k - 1].timeSpent)
            && f.timeSpent["total"] == TotalTime(results)
            && |f.timeSpent| == |results| + 1
  {
    CompletionTimesKeys(results);
    CompletionTimesValues(results);
    var f := CompletionFeedback(results);
    assert f.timeSpent == CompletionTimes(results);
  }

  lemma CompletionTimesKeys(results: seq<RoundResult>)
    ensures var t := CompletionTimes(results);
            && t.Keys == (set n | 1 <= n <= |results| :: RoundKey(n)) + {"total"}
            && |t| == |results| + 1
  {
    var keys := set n | 1 <= n <= |results| :: RoundKey(n);
    RoundTimesKeys(results);
    RoundKeysCard(|results|);
    TotalNotRoundKey(results);
    var t := CompletionTimes(results);
    assert t.Keys == keys + {"total"};
    assert |t.Keys| == |keys| + 1;
  }

  lemma CompletionTimesValues(results: seq<RoundResult>)
    ensures var t := CompletionTimes(results);
            && (forall k :: 1 <= k <= |results| ==> RoundKey(k) in t && t[RoundKey(k)] == results[k - 1].timeSpent)
            && t["total"] == TotalTime(results)
  {
    var r := RoundTimes(results);
    forall k | 1 <= k <= |results|
      ensures RoundKey(k) in CompletionTimes(results)
      ensures CompletionTimes(results)[RoundKey(k)] == results[k - 1].timeSpent
    {
      RoundTimesAt(results, k);
      assert RoundKey(k)[0] == 'r';
      assert RoundKey(k) != "total";
      assert CompletionTimes(results) == r["total" := TotalTime(results)];
    }
  }

  lemma TotalNotRoundKey(results: seq<RoundResult>)
    ensures "total" !in set n | 1 <= n <= |results| :: RoundKey(n)
  {
    forall n | 1 <= n <= |results| ensures RoundKey(n) != "total" {
      assert RoundKey(n)[0] == 'r';
    }
  }

  lemma RoundTimesEntries(results: seq<RoundResult>)
    ensures RoundTimes(results).Keys == set n | 1 <= n <= |results| :: RoundKey(n)
    ensures forall k :: 1 <= k <= |results| ==> RoundTimes(results)[RoundKey(k)] == results[k - 1].timeSpent
  {
    RoundTimesKeys(results);
    forall k | 1 <= k <= |results|
      ensures RoundTimes(results)[RoundKey(k)] == results[k - 1].timeSpent
    {
      RoundTimesAt(results, k);
    }
  }

  lemma {:induction false} RoundTimesKeys(results: seq<RoundResult>)
    ensures RoundTimes(results).Keys == set n | 1 <= n <= |results| :: RoundKey(n)
    decreases |results|
  {
    if results != [] {
      var n := |results|;
      RoundTimesKeys(results[..n - 1]);
      assert (set k | 1 <= k <= n :: RoundKey(k)) == (set k | 1 <= k <= n - 1 :: RoundKey(k)) + {RoundKey(n)};
    }
  }

  /** Round `k`'s entry holds that round's time. */
  lemma {:induction false} RoundTimesAt(results: seq<RoundResult>, k: nat)
    requires 1 <= k <= |results|
    ensures RoundKey(k) in RoundTimes(results)
    ensures RoundTimes(results)[RoundKey(k)] == results[k - 1].timeSpent
    decreases |results|
  {
    var n := |results|;
    var p := results[..n - 1];
    assert RoundTimes(results) == RoundTimes(p)[RoundKey(n) := results[n - 1].timeSpent];
    if k < n {
      RoundKeyInjective(k, n);
      RoundTimesAt(p, k);
      assert p[k - 1] == results[k - 1];
    }
  }


  lemma {:induction false} RoundKeysCard(n: nat)
    ensures |set k | 1 <= k <= n :: RoundKey(k)| == n
    decreases n
  {
    if n > 0 {
      RoundKeysCard(n - 1);
      var prev := set k | 1 <= k <= n - 1 :: RoundKey(k);
      assert (set k | 1 <= k <= n :: RoundKey(k)) == prev + {RoundKey(n)};
      forall k | 1 <= k <= n - 1 ensures RoundKey(k) != RoundKey(n) {
        RoundKeyInjective(k, n);
      }
    }
  }

  lemma ScaleBounds(lo: real, x: real, hi: real, n: real)
    requires lo <= x <= hi && n >= 0.0
    ensures lo * n <= x * n <= hi * n
  {
  }

  lemma Distribute(c: real, a: real, b: real)
    ensures c * (a + b) == c * a + c * b
  {
  }

  lemma QuotientBounds(w: real, t: real, lo: real, hi: real)
    requires t > 0.0 && lo * t <= w <= hi * t
    ensures lo <= w / t <= hi
  {
  }

  /** One more round keeps the weighted sum between the bounds. */
  lemma StepBounds(lo: real, hi: real, t: real, w: real, x: real, n: real)
    requires lo * t <= w <= hi * t && lo <= x <= hi && n >= 0.0
    ensures lo * (t + n) <= w + x * n <= hi * (t + n)
  {
    ScaleBounds(lo, x, hi, n);
    Distribute(lo, t, n);
    Distribute(hi, t, n);
  }

  lemma {:induction false} WeightedSumBounds(results: seq<RoundResult>, lo: real, hi: real)
    requires forall i :: 0 <= i < |results| ==> lo <= results[i].score <= hi
    ensures lo * SumTotals(results) as real <= WeightedSum(results) <= hi * SumTotals(results) as real
    decreases |results|
  {
    if results != [] {
      var p := results[..|results| - 1];
      var last := results[|results| - 1];
      assert forall i :: 0 <= i < |p| ==> p[i] == results[i];
      WeightedSumBounds(p, lo, hi);
      var n := last.totalQuestions as real;
      var tp := SumTotals(p) as real;
      var w := WeightedSum(p);
      assert SumTotals(results) as real == tp + n;
      assert WeightedSum(results) == w + last.score * n;
      StepBounds(lo, hi, tp, w, last.score, n);
    }
  }

  /** The overall score lies between the lowest and the highest round score. */
  lemma OverallScoreBounds(results: seq<RoundResult>, lo: real, hi: real)
    requires SumTotals(results) > 0
    requires forall i :: 0 <= i < |results| ==> lo <= results[i].score <= hi
    ensures lo <= OverallScore(results) <= hi
  {
    WeightedSumBounds(results, lo, hi);
    QuotientBounds(WeightedSum(results), SumTotals(results) as real, lo, hi);
  }
}
