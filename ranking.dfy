/**
 * Per-topic statistics of answered questions and the strongest / weakest
 * topic rankings built from them.
 *
 * The evaluator counts questions per topic in a dictionary that keeps its
 * topics in order of first appearance; here that dictionary is a sequence
 * of `TopicStat`s in the same order. Rankings use Python's `sorted`, which
 * is stable, also with `reverse=True`: topics with equal scores keep their
 * order of first appearance.
 */
module Ranking {
  import opened Wrappers
  import opened PyStr
  import opened Models

  /** `q.is_correct` is truthy. */
  predicate Correct(q: Question) {
    q.isCorrect == Some(true)
  }

  datatype TopicStat = TopicStat(topic: string, total: nat, correct: nat)

  function Topics(stats: seq<TopicStat>): (ts: seq<string>)
    ensures |ts| == |stats| && forall i :: 0 <= i < |stats| ==> ts[i] == stats[i].topic
  {
    seq(|stats|, i requires 0 <= i < |stats| => stats[i].topic)
  }

  function QuestionTopics(qs: seq<Question>): (ts: seq<string>)
    ensures |ts| == |qs| && forall i :: 0 <= i < |qs| ==> ts[i] == qs[i].topic
  {
    seq(|qs|, i requires 0 <= i < |qs| => qs[i].topic)
  }

  /** Where `topic` sits in the statistics, or `|stats|` when it is absent. */
  function IndexOfTopic(stats: seq<TopicStat>, topic: string): (k: nat)
    ensures k <= |stats|
    ensures k < |stats| ==> stats[k].topic == topic
    ensures forall i :: 0 <= i < k ==> stats[i].topic != topic
  {
    if stats == [] then 0
    else if stats[0].topic == topic then 0
    else 1 + IndexOfTopic(stats[1..], topic)
  }

  /** The statistics after counting one more question. */
  function Tally(stats: seq<TopicStat>, q: Question): seq<TopicStat> {
    var k := IndexOfTopic(stats, q.topic);
    var bump := if Correct(q) then 1 else 0;
    if k == |stats| then stats + [TopicStat(q.topic, 1, bump)]
    else stats[k := TopicStat(q.topic, stats[k].total + 1, stats[k].correct + bump)]
  }

  /** The per-topic statistics of `qs`, counted in order. */
  function TopicStats(qs: seq<Question>): seq<TopicStat>
    decreases |qs|
  {
    if qs == [] then [] else Tally(TopicStats(qs[..|qs| - 1]), qs[|qs| - 1])
  }

  /** One pass of the evaluator's counting loop: add the topic when it is new,
      then count the question and, when it was answered correctly, the
      correct answer. */
  method TallyQuestion(stats: seq<TopicStat>, q: Question) returns (next: seq<TopicStat>)
    ensures next == Tally(stats, q)
  {
    next := stats;
    var k := IndexOfTopic(next, q.topic);
    if k == |next| {
      next := next + [TopicStat(q.topic, 0, 0)];
    }
    next := next[k := next[k].(total := next[k].total + 1)];
    if Correct(q) {
      next := next[k := next[k].(correct := next[k].correct + 1)];
    }
  }

  /** The per-topic counting loop over one list of questions. */
  method TallyTopics(qs: seq<Question>) returns (stats: seq<TopicStat>)
    ensures stats == TopicStats(qs)
  {
    stats := [];
    for i := 0 to |qs|
      invariant stats == TopicStats(qs[..i])
    {
      assert qs[..i + 1][..i] == qs[..i];
      stats := TallyQuestion(stats, qs[i]);
    }
    assert qs[..|qs|] == qs;
  }

  // ---------------------------------------------------------------- reference definitions

  /** The items of `s` in order of first appearance. */
  function Dedup(s: seq<string>): seq<string>
    decreases |s|
  {
    if s == [] then []
    else
      var d := Dedup(s[..|s| - 1]);
      if s[|s| - 1] in d then d else d + [s[|s| - 1]]
  }

  predicate Distinct(s: seq<string>) {
    forall i, j :: 0 <= i < j < |s| ==> s[i] != s[j]
  }

  function CountTopic(qs: seq<Question>, topic: string): nat
    decreases |qs|
  {
    if qs == [] then 0
    else CountTopic(qs[..|qs| - 1], topic) + (if qs[|qs| - 1].topic == topic then 1 else 0)
  }

  function CountCorrect(qs: seq<Question>, topic: string): nat
    decreases |qs|
  {
    if qs == [] then 0
    else CountCorrect(qs[..|qs| - 1], topic) + (if qs[|qs| - 1].topic == topic && Correct(qs[|qs| - 1]) then 1 else 0)
  }

  lemma {:induction false} DedupMembers(s: seq<string>)
    ensures forall x :: x in Dedup(s) <==> x in s
    ensures Distinct(Dedup(s))
    decreases |s|
  {
    if s != [] {
      var p := s[..|s| - 1];
      DedupMembers(p);
      assert s == p + [s[|s| - 1]];
    }
  }

  lemma {:induction false} CountAbsent(qs: seq<Question>, topic: string)
    requires topic !in QuestionTopics(qs)
    ensures CountTopic(qs, topic) == 0 && CountCorrect(qs, topic) == 0
    decreases |qs|
  {
    if qs != [] {
      var p := qs[..|qs| - 1];
      assert QuestionTopics(p) == QuestionTopics(qs)[..|qs| - 1];
      CountAbsent(p, topic);
    }
  }

  lemma CountCorrectBound(qs: seq<Question>, topic: string)
    ensures CountCorrect(qs, topic) <= CountTopic(qs, topic)
  {
  }

  /** The statistics list each topic of the questions once, in order of first
      appearance, with the number of its questions and of its correctly
      answered questions. */
  lemma {:induction false} TopicStatsCount(qs: seq<Question>)
    ensures Topics(TopicStats(qs)) == Dedup(QuestionTopics(qs))
    ensures forall i :: 0 <= i < |TopicStats(qs)| ==>
              TopicStats(qs)[i].total == CountTopic(qs, TopicStats(qs)[i].topic)
              && TopicStats(qs)[i].correct == CountCorrect(qs, TopicStats(qs)[i].topic)
    decreases |qs|
  {
    if qs != [] {
      var p := qs[..|qs| - 1];
      var q := qs[|qs| - 1];
      TopicStatsCount(p);
      var before := TopicStats(p);
      var after := TopicStats(qs);
      assert QuestionTopics(p) == QuestionTopics(qs)[..|qs| - 1];
      assert after == Tally(before, q);
      var k := IndexOfTopic(before, q.topic);
      DedupMembers(QuestionTopics(p));
      if k == |before| {
        assert q.topic !in Topics(before);
        CountAbsent(p, q.topic);
        assert Topics(after) == Topics(before) + [q.topic];
      } else {
        assert q.topic in Topics(before);
        assert Topics(after) == Topics(before);
      }
    }
  }

  /** Every topic's statistics have at least one question and no more correct
      answers than questions, and the topics are distinct. */
  lemma StatsWellFormed(qs: seq<Question>)
    ensures Distinct(Topics(TopicStats(qs)))
    ensures forall i :: 0 <= i < |TopicStats(qs)| ==>
              0 < TopicStats(qs)[i].total && TopicStats(qs)[i].correct <= TopicStats(qs)[i].total
    ensures forall t :: t in Topics(TopicStats(qs)) <==> t in QuestionTopics(qs)
  {
    TopicStatsCount(qs);
    DedupMembers(QuestionTopics(qs));
    var stats := TopicStats(qs);
    forall i | 0 <= i < |stats|
      ensures 0 < stats[i].total && stats[i].correct <= stats[i].total
    {
      assert Topics(stats)[i] == stats[i].topic;
      CountPresent(qs, stats[i].topic);
      CountCorrectBound(qs, stats[i].topic);
    }
  }

  lemma {:induction false} CountPresent(qs: seq<Question>, topic: string)
    requires topic in QuestionTopics(qs)
    ensures CountTopic(qs, topic) > 0
    decreases |qs|
  {
    var p := qs[..|qs| - 1];
    if qs[|qs| - 1].topic != topic {
      assert QuestionTopics(qs) == QuestionTopics(p) + [qs[|qs| - 1].topic];
      CountPresent(p, topic);
    }
  }

  // ---------------------------------------------------------------- scores and ordering

  /** A topic with its percentage of correct answers. */
  type Scored = (string, real)

  function Accuracy(st: TopicStat): (pct: real)
    requires st.total > 0
    ensures st.correct <= st.total ==> 0.0 <= pct <= 100.0
  {
    (st.correct as real / st.total as real) * 100.0
  }

  predicate Counted(stats: seq<TopicStat>) {
    forall i :: 0 <= i < |stats| ==> stats[i].total > 0
  }

  /** `{topic: correct / total * 100 for topic, stats in ...}` in dictionary order. */
  function TopicScores(stats: seq<TopicStat>): (scores: seq<Scored>)
    requires Counted(stats)
    ensures |scores| == |stats|
    ensures forall i :: 0 <= i < |stats| ==> scores[i] == (stats[i].topic, Accuracy(stats[i]))
  {
    seq(|stats|, i requires 0 <= i < |stats| => (stats[i].topic, Accuracy(stats[i])))
  }

  function Names(xs: seq<Scored>): (ns: seq<string>)
    ensures |ns| == |xs| && forall i :: 0 <= i < |xs| ==> ns[i] == xs[i].0
  {
    seq(|xs|, i requires 0 <= i < |xs| => xs[i].0)
  }

  /** `a` belongs strictly before `b`: a higher score when descending, a lower one otherwise. */
  predicate Ahead(a: Scored, b: Scored, descending: bool) {
    if descending then a.1 > b.1 else a.1 < b.1
  }

  /** Adjacent items are in order. */
  predicate Ordered(s: seq<Scored>, descending: bool) {
    forall i :: 0 < i < |s| ==> !Ahead(s[i], s[i - 1], descending)
  }

  /** `x` goes in front of the first item it is strictly ahead of, so after any
      item with the same score. */
  function Insert(s: seq<Scored>, x: Scored, descending: bool): (r: seq<Scored>)
    ensures |r| == |s| + 1
    ensures r[0] == x || (s != [] && r[0] == s[0])
  {
    if s == [] then [x]
    else if Ahead(x, s[0], descending) then [x] + s
    else [s[0]] + Insert(s[1..], x, descending)
  }

  /** `sorted(xs, key=score, reverse=descending)`. */
  function SortByScore(xs: seq<Scored>, descending: bool): (r: seq<Scored>)
    ensures |r| == |xs|
    decreases |xs|
  {
    if xs == [] then []
    else Insert(SortByScore(xs[..|xs| - 1], descending), xs[|xs| - 1], descending)
  }

  /** The items with score `v`, in order. */
  function WithScore(s: seq<Scored>, v: real): seq<Scored> {
    if s == [] then []
    else (if s[0].1 == v then [s[0]] else []) + WithScore(s[1..], v)
  }

  lemma {:induction false} InsertOrdered(s: seq<Scored>, x: Scored, descending: bool)
    requires Ordered(s, descending)
    ensures Ordered(Insert(s, x, descending), descending)
    ensures multiset(Insert(s, x, descending)) == multiset(s) + multiset{x}
    decreases |s|
  {
    if s != [] && !Ahead(x, s[0], descending) {
      var rest := Insert(s[1..], x, descending);
      InsertOrdered(s[1..], x, descending);
      assert s == [s[0]] + s[1..];
      assert Insert(s, x, descending) == [s[0]] + rest;
    }
  }

  /** Adjacent order extends to every pair. */
  lemma {:induction false} OrderedAll(s: seq<Scored>, descending: bool)
    requires Ordered(s, descending)
    ensures forall i, j :: 0 <= i < j < |s| ==> !Ahead(s[j], s[i], descending)
    decreases |s|
  {
    if |s| > 1 {
      var t := s[1..];
      OrderedAll(t, descending);
      forall i, j | 0 <= i < j < |s| ensures !Ahead(s[j], s[i], descending) {
        if i > 0 {
          assert s[i] == t[i - 1] && s[j] == t[j - 1];
        } else if j > 1 {
          assert s[1] == t[0] && s[j] == t[j - 1];
        }
      }
    }
  }

  lemma {:induction false} WithScoreAppend(a: seq<Scored>, b: seq<Scored>, v: real)
    ensures WithScore(a + b, v) == WithScore(a, v) + WithScore(b, v)
    decreases |a|
  {
    if a != [] {
      assert (a + b)[1..] == a[1..] + b;
      WithScoreAppend(a[1..], b, v);
    } else {
      assert a + b == b;
    }
  }

  lemma {:induction false} WithScoreNone(s: seq<Scored>, v: real)
    requires forall i :: 0 <= i < |s| ==> s[i].1 != v
    ensures WithScore(s, v) == []
    decreases |s|
  {
    if s != [] {
      WithScoreNone(s[1..], v);
    }
  }

  lemma {:induction false} InsertWithScore(s: seq<Scored>, x: Scored, descending: bool, v: real)
    requires Ordered(s, descending)
    ensures WithScore(Insert(s, x, descending), v) == WithScore(s, v) + (if x.1 == v then [x] else [])
    decreases |s|
  {
    if s == [] {
    } else if Ahead(x, s[0], descending) {
      if x.1 == v {
        OrderedAll(s, descending);
        forall i | 0 <= i < |s| ensures s[i].1 != v {
          if i > 0 { assert !Ahead(s[i], s[0], descending); }
        }
        WithScoreNone(s, v);
      }
      assert ([x] + s)[1..] == s;
    } else {
      InsertWithScore(s[1..], x, descending, v);
      assert ([s[0]] + Insert(s[1..], x, descending))[1..] == Insert(s[1..], x, descending);
    }
  }

  /** The ranking is in score order and is a permutation of its input ... */
  lemma {:induction false} SortByScoreCorrect(xs: seq<Scored>, descending: bool)
    ensures Ordered(SortByScore(xs, descending), descending)
    ensures multiset(SortByScore(xs, descending)) == multiset(xs)
    decreases |xs|
  {
    if xs != [] {
      var p := xs[..|xs| - 1];
      SortByScoreCorrect(p, descending);
      InsertOrdered(SortByScore(p, descending), xs[|xs| - 1], descending);
      assert xs == p + [xs[|xs| - 1]];
    }
  }

  /** ... and it is stable: the items with any one score keep their relative order. */
  lemma {:induction false} SortByScoreStable(xs: seq<Scored>, descending: bool, v: real)
    ensures WithScore(SortByScore(xs, descending), v) == WithScore(xs, v)
    decreases |xs|
  {
    if xs != [] {
      var p := xs[..|xs| - 1];
      var x := xs[|xs| - 1];
      SortByScoreStable(p, descending, v);
      SortByScoreCorrect(p, descending);
      InsertWithScore(SortByScore(p, descending), x, descending, v);
      WithScoreAppend(p, [x], v);
      assert xs == p + [x];
    }
  }

  /** The first three of the ranking: `sorted(...)[:3]`. */
  function Top3(scores: seq<Scored>, descending: bool): (top: seq<Scored>)
    ensures |top| <= 3
  {
    Take(SortByScore(scores, descending), 3)
  }

  /** Each of the three listed topics is a scored topic, the list is as long
      as it can be, and no listed topic ranks below a topic left off it. */
  lemma Top3Correct(scores: seq<Scored>, descending: bool)
    ensures forall x :: x in Top3(scores, descending) ==> x in scores
    ensures |Top3(scores, descending)| == if |scores| < 3 then |scores| else 3
    ensures forall x, y :: x in Top3(scores, descending) && y in scores && y !in Top3(scores, descending)
              ==> !Ahead(y, x, descending)
  {
    var sorted := SortByScore(scores, descending);
    var top := Top3(scores, descending);
    SortByScoreCorrect(scores, descending);
    OrderedAll(sorted, descending);
    forall x | x in top ensures x in scores {
      assert x in multiset(sorted);
    }
    forall x, y | x in top && y in scores && y !in top ensures !Ahead(y, x, descending) {
      assert y in multiset(sorted);
      var i :| 0 <= i < |top| && top[i] == x;
      var j :| 0 <= j < |sorted| && sorted[j] == y;
      assert top == sorted[..|top|];
      assert sorted[i] == x;
    }
  }
}
