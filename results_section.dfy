/** The scoring pass of the results screen and its topic panel
    (client/src/components/quiz/ResultsSection.tsx). */
module ResultsSection {
  import opened Wrappers
  import opened QuizTypes
  import opened QuizUtils
  import Ordering

  /** What `userAnswers[index]` holds: `null` (skipped), `undefined` (the
      array is shorter than the quiz) or the chosen option. */
  datatype Slot = Null | Undefined | Text(s: string)

  function SlotAt(answers: seq<Option<string>>, i: nat): Slot {
    if i < |answers| then (if answers[i].Some? then Text(answers[i].value) else Null)
    else Undefined
  }

  /** `userAnswers[index] !== null`. */
  predicate Answered(slot: Slot) { !slot.Null? }

  /** `userAnswers[index] === question.correct_answer`. */
  predicate Correct(slot: Slot, q: Question) { slot.Text? && slot.s == q.correctAnswer }

  /** One entry of the review list. `userAnswer` is `None` for an
      `undefined` slot (shown as "Skipped"). */
  datatype ReviewItem = ReviewItem(question: string, userAnswer: Option<string>,
                                   correctAnswer: string, topic: Topic, isCorrect: bool)

  /** The answer a review entry shows for a slot. */
  function ShownAnswer(slot: Slot): Option<string> {
    if slot.Text? then Some(slot.s) else None
  }

  /** The entry pushed for a question answered wrongly. */
  function ReviewOf(q: Question, slot: Slot, topic: Topic): ReviewItem {
    ReviewItem(q.question, ShownAnswer(slot), q.correctAnswer, topic, false)
  }

  datatype TopicStat = TopicStat(correct: nat, total: nat)

  /** `topicStats`: a record keyed by topic name, in first-insertion order. */
  type Tally = seq<(Topic, TopicStat)>

  /** The state the `forEach` carries from one question to the next. */
  datatype Scan = Scan(correctCount: nat, answeredCount: nat,
                       incorrectQuestions: seq<ReviewItem>, topicStats: Tally)

  datatype Stats = Stats(correctCount: nat, incorrectCount: int, total: nat, percentage: int,
                         topicStats: Tally, incorrectQuestions: seq<ReviewItem>)

  // --------------------------------------------------------------- tally

  predicate HasTopic(tally: Tally, t: Topic) {
    exists j :: 0 <= j < |tally| && tally[j].0 == t
  }

  predicate DistinctTopics(tally: Tally) {
    forall i, j :: 0 <= i < j < |tally| ==> tally[i].0 != tally[j].0
  }

  function IndexOfTopic(tally: Tally, t: Topic): (j: nat)
    requires HasTopic(tally, t)
    ensures j < |tally| && tally[j].0 == t
    ensures forall i :: 0 <= i < j ==> tally[i].0 != t
  {
    if tally[0].0 == t then 0
    else
      assert HasTopic(tally[1..], t) by {
        var j :| 0 <= j < |tally| && tally[j].0 == t;
        assert tally[1..][j - 1].0 == t;
      }
      1 + IndexOfTopic(tally[1..], t)
  }

  /** `topicStats[t]` read as a number pair, zero when absent. */
  function StatOf(tally: Tally, t: Topic): TopicStat {
    if HasTopic(tally, t) then tally[IndexOfTopic(tally, t)].1 else TopicStat(0, 0)
  }

  /** `if (!topicStats[topic]) topicStats[topic] = { correct: 0, total: 0 }`. */
  function Touch(tally: Tally, t: Topic): (r: Tally)
    ensures HasTopic(r, t)
  {
    if HasTopic(tally, t) then tally
    else
      assert (tally + [(t, TopicStat(0, 0))])[|tally|].0 == t;
      tally + [(t, TopicStat(0, 0))]
  }

  /** `topicStats[t].total++`, plus `.correct++` when `correct`. */
  function Credit(tally: Tally, t: Topic, correct: bool): Tally
    requires HasTopic(tally, t)
  {
    var j := IndexOfTopic(tally, t);
    var e := tally[j].1;
    tally[j := (t, TopicStat(e.correct + (if correct then 1 else 0), e.total + 1))]
  }

  function SumTotals(tally: Tally): nat {
    if tally == [] then 0 else tally[0].1.total + SumTotals(tally[1..])
  }

  function SumCorrect(tally: Tally): nat {
    if tally == [] then 0 else tally[0].1.correct + SumCorrect(tally[1..])
  }

  // ---------------------------------------------------------- the pass

  /** The body of the `forEach` for one question; `topicOf` is the
      categoriser (`Categorize` in the component). */
  function Step(sc: Scan, q: Question, slot: Slot, topicOf: string -> Topic): Scan {
    var topic := topicOf(q.question);
    var tally := Touch(sc.topicStats, topic);
    if !Answered(slot) then sc.(topicStats := tally)
    else if Correct(slot, q) then
      Scan(sc.correctCount + 1, sc.answeredCount + 1, sc.incorrectQuestions, Credit(tally, topic, true))
    else
      Scan(sc.correctCount, sc.answeredCount + 1, sc.incorrectQuestions + [ReviewOf(q, slot, topic)],
           Credit(tally, topic, false))
  }

  /** The state after the first `i` questions. */
  function ScanUpTo(qs: seq<Question>, answers: seq<Option<string>>, i: nat, topicOf: string -> Topic): Scan
    requires i <= |qs|
  {
    if i == 0 then Scan(0, 0, [], [])
    else Step(ScanUpTo(qs, answers, i - 1, topicOf), qs[i - 1], SlotAt(answers, i - 1), topicOf)
  }

  /** `Math.round((correct / answered) * 100)`, or 0 with nothing answered;
      exact arithmetic, halves rounded up. */
  function RoundPercent(correct: nat, answered: nat): (p: int)
    ensures correct <= answered ==> 0 <= p <= 100
    ensures answered > 0 ==> 2 * answered * p <= 200 * correct + answered < 2 * answered * (p + 1)
    ensures answered == 0 ==> p == 0
  {
    if answered > 0 then
      DivisionBounds(200 * correct + answered, 2 * answered);
      assert correct <= answered ==> 200 * correct + answered < 2 * answered * 101;
      (200 * correct + answered) / (2 * answered)
    else 0
  }

  /** Euclidean division brackets its dividend; a non-negative dividend
      gives a non-negative quotient. */
  lemma DivisionBounds(n: nat, d: int)
    requires d > 0
    ensures d * (n / d) <= n < d * (n / d + 1)
    ensures n / d >= 0
    ensures forall m: int :: n < d * m ==> n / d < m
  {
    var q, r := n / d, n % d;
    assert n == d * q + r && 0 <= r < d;
  }

  function Summarize(sc: Scan): Stats {
    Stats(sc.correctCount, sc.answeredCount - sc.correctCount, sc.answeredCount,
          RoundPercent(sc.correctCount, sc.answeredCount), sc.topicStats, sc.incorrectQuestions)
  }

  /** The counting invariants of the pass after `i` questions. */
  predicate ScanInvariant(qs: seq<Question>, answers: seq<Option<string>>, sc: Scan, i: nat, topicOf: string -> Topic)
    requires i <= |qs|
  {
    CountsOk(sc, i) && TopicsCovered(qs, sc.topicStats, i, topicOf) && ReviewsOk(qs, answers, sc.incorrectQuestions, i, topicOf)
  }

  /** The counters, the review list's length and the tally agree. */
  predicate CountsOk(sc: Scan, i: nat) {
    && sc.correctCount <= sc.answeredCount <= i
    && |sc.incorrectQuestions| == sc.answeredCount - sc.correctCount
    && TallyOk(sc.topicStats, sc.correctCount, sc.answeredCount)
  }

  /** Each of the first `i` questions has its topic in the tally. */
  predicate TopicsCovered(qs: seq<Question>, tally: Tally, i: nat, topicOf: string -> Topic)
    requires i <= |qs|
  {
    forall k :: 0 <= k < i ==> HasTopic(tally, topicOf(qs[k].question))
  }

  /** The slot holds an answer, and not the correct one. */
  predicate Wrong(slot: Slot, q: Question) { Answered(slot) && !Correct(slot, q) }

  /** The positions among the first `i` questions answered wrongly. */
  function WrongIndices(qs: seq<Question>, answers: seq<Option<string>>, i: nat): (ks: seq<nat>)
    requires i <= |qs|
    ensures forall a, b :: 0 <= a < b < |ks| ==> ks[a] < ks[b]
    ensures forall j :: 0 <= j < |ks| ==> ks[j] < i
    ensures forall k :: 0 <= k < i ==> (k in ks <==> Wrong(SlotAt(answers, k), qs[k]))
  {
    if i == 0 then []
    else
      var prev := WrongIndices(qs, answers, i - 1);
      if Wrong(SlotAt(answers, i - 1), qs[i - 1]) then prev + [i - 1] else prev
  }

  /** One review entry per listed position, in the list's order, each
      recording that question, the answer given, the correct answer and the
      question's topic. */
  function ReviewsAt(qs: seq<Question>, answers: seq<Option<string>>, ks: seq<nat>, topicOf: string -> Topic): (r: seq<ReviewItem>)
    requires forall j :: 0 <= j < |ks| ==> ks[j] < |qs|
    ensures |r| == |ks|
  {
    seq(|ks|, j requires 0 <= j < |ks| => ReviewOf(qs[ks[j]], SlotAt(answers, ks[j]), topicOf(qs[ks[j]].question)))
  }

  /** The review list after `i` questions: the wrongly answered ones, in
      question order. */
  predicate ReviewsOk(qs: seq<Question>, answers: seq<Option<string>>, items: seq<ReviewItem>, i: nat, topicOf: string -> Topic)
    requires i <= |qs|
  {
    items == ReviewsAt(qs, answers, WrongIndices(qs, answers, i), topicOf)
  }

  /** Every listed entry is marked incorrect, carries its question's topic
      and an answer other than the correct one. */
  lemma ReviewsAtFlags(qs: seq<Question>, answers: seq<Option<string>>, i: nat, topicOf: string -> Topic)
    requires i <= |qs|
    ensures forall r :: r in ReviewsAt(qs, answers, WrongIndices(qs, answers, i), topicOf) ==>
      !r.isCorrect && r.topic == topicOf(r.question) && r.userAnswer != Some(r.correctAnswer)
  {
    var ks := WrongIndices(qs, answers, i);
    var rs := ReviewsAt(qs, answers, ks, topicOf);
    forall r | r in rs ensures !r.isCorrect && r.topic == topicOf(r.question) && r.userAnswer != Some(r.correctAnswer) {
      var j :| 0 <= j < |rs| && rs[j] == r;
      var k := ks[j];
      assert k in ks && k < i;
      var slot := SlotAt(answers, k);
      assert Wrong(slot, qs[k]);
      assert r == ReviewOf(qs[k], slot, topicOf(qs[k].question));
    }
  }

  // ------------------------------------------------------ tally lemmas

  lemma {:induction false} SumsAppend(tally: Tally, e: (Topic, TopicStat))
    ensures SumTotals(tally + [e]) == SumTotals(tally) + e.1.total
    ensures SumCorrect(tally + [e]) == SumCorrect(tally) + e.1.correct
  {
    if tally != [] {
      SumsAppend(tally[1..], e);
      assert (tally + [e])[1..] == tally[1..] + [e];
    }
  }

  lemma {:induction false} SumsUpdate(tally: Tally, j: nat, e: (Topic, TopicStat))
    requires j < |tally|
    ensures SumTotals(tally[j := e]) == SumTotals(tally) - tally[j].1.total + e.1.total
    ensures SumCorrect(tally[j := e]) == SumCorrect(tally) - tally[j].1.correct + e.1.correct
  {
    if j > 0 {
      SumsUpdate(tally[1..], j - 1, e);
      assert tally[j := e][1..] == tally[1..][j - 1 := e];
    }
  }

  lemma HasTopicAfterUpdate(tally: Tally, j: nat, e: (Topic, TopicStat), t: Topic)
    requires j < |tally| && tally[j].0 == e.0
    ensures HasTopic(tally[j := e], t) == HasTopic(tally, t)
  {
    if HasTopic(tally, t) {
      var i :| 0 <= i < |tally| && tally[i].0 == t;
      assert tally[j := e][i].0 == t;
    }
    if HasTopic(tally[j := e], t) {
      var i :| 0 <= i < |tally| && tally[j := e][i].0 == t;
      assert tally[i].0 == t;
    }
  }

  lemma HasTopicAfterAppend(tally: Tally, e: (Topic, TopicStat), t: Topic)
    requires HasTopic(tally, t)
    ensures HasTopic(tally + [e], t)
  {
    var i :| 0 <= i < |tally| && tally[i].0 == t;
    assert (tally + [e])[i].0 == t;
  }

  /** The per-topic part of the invariant: one entry per topic, totals and
      corrects summing to the answered and correct counts, and no topic
      with more correct answers than answered ones. */
  predicate TallyOk(tally: Tally, correct: nat, answered: nat) {
    && DistinctTopics(tally)
    && SumTotals(tally) == answered
    && SumCorrect(tally) == correct
    && (forall j :: 0 <= j < |tally| ==> tally[j].1.correct <= tally[j].1.total)
  }

  lemma TouchKeepsTally(tally: Tally, t: Topic, correct: nat, answered: nat)
    requires TallyOk(tally, correct, answered)
    ensures TallyOk(Touch(tally, t), correct, answered)
    ensures forall u :: HasTopic(tally, u) ==> HasTopic(Touch(tally, t), u)
  {
    if !HasTopic(tally, t) {
      var e := (t, TopicStat(0, 0));
      SumsAppend(tally, e);
      forall u | HasTopic(tally, u) ensures HasTopic(tally + [e], u) {
        HasTopicAfterAppend(tally, e, u);
      }
      var r := tally + [e];
      forall a, b | 0 <= a < b < |r| ensures r[a].0 != r[b].0 {
        if b == |tally| {
          assert r[a].0 == tally[a].0;
        }
      }
    }
  }

  lemma CreditKeepsTally(tally: Tally, t: Topic, c: bool, correct: nat, answered: nat)
    requires TallyOk(tally, correct, answered) && HasTopic(tally, t)
    ensures TallyOk(Credit(tally, t, c), correct + (if c then 1 else 0), answered + 1)
    ensures forall u :: HasTopic(tally, u) ==> HasTopic(Credit(tally, t, c), u)
  {
    var j := IndexOfTopic(tally, t);
    var e := tally[j].1;
    var ne := (t, TopicStat(e.correct + (if c then 1 else 0), e.total + 1));
    SumsUpdate(tally, j, ne);
    forall u | HasTopic(tally, u) ensures HasTopic(tally[j := ne], u) {
      HasTopicAfterUpdate(tally, j, ne, u);
    }
  }

  /** One step keeps the counters and the tally in agreement. */
  lemma StepKeepsCounts(qs: seq<Question>, answers: seq<Option<string>>, topicOf: string -> Topic, i: nat)
    requires i < |qs| && CountsOk(ScanUpTo(qs, answers, i, topicOf), i)
    ensures CountsOk(ScanUpTo(qs, answers, i + 1, topicOf), i + 1)
  {
    var sc := ScanUpTo(qs, answers, i, topicOf);
    var q := qs[i];
    var slot := SlotAt(answers, i);
    var topic := topicOf(q.question);
    assert ScanUpTo(qs, answers, i + 1, topicOf) == Step(sc, q, slot, topicOf);
    TouchKeepsTally(sc.topicStats, topic, sc.correctCount, sc.answeredCount);
    if Answered(slot) {
      CreditKeepsTally(Touch(sc.topicStats, topic), topic, Correct(slot, q), sc.correctCount, sc.answeredCount);
    }
  }

  /** One step adds its question's topic and drops none. */
  lemma StepKeepsTopics(qs: seq<Question>, answers: seq<Option<string>>, topicOf: string -> Topic, i: nat)
    requires i < |qs| && TopicsCovered(qs, ScanUpTo(qs, answers, i, topicOf).topicStats, i, topicOf)
    requires TallyOk(ScanUpTo(qs, answers, i, topicOf).topicStats, ScanUpTo(qs, answers, i, topicOf).correctCount,
                     ScanUpTo(qs, answers, i, topicOf).answeredCount)
    ensures TopicsCovered(qs, ScanUpTo(qs, answers, i + 1, topicOf).topicStats, i + 1, topicOf)
  {
    var sc := ScanUpTo(qs, answers, i, topicOf);
    var q := qs[i];
    var slot := SlotAt(answers, i);
    var topic := topicOf(q.question);
    assert ScanUpTo(qs, answers, i + 1, topicOf) == Step(sc, q, slot, topicOf);
    TouchKeepsTally(sc.topicStats, topic, sc.correctCount, sc.answeredCount);
    if Answered(slot) {
      CreditKeepsTally(Touch(sc.topicStats, topic), topic, Correct(slot, q), sc.correctCount, sc.answeredCount);
    }
  }

  /** One step appends the entry of question `i` exactly when its answer
      is wrong: the list stays that of the wrong answers in question order. */
  lemma StepKeepsReviews(qs: seq<Question>, answers: seq<Option<string>>, topicOf: string -> Topic, i: nat)
    requires i < |qs| && ReviewsOk(qs, answers, ScanUpTo(qs, answers, i, topicOf).incorrectQuestions, i, topicOf)
    ensures ReviewsOk(qs, answers, ScanUpTo(qs, answers, i + 1, topicOf).incorrectQuestions, i + 1, topicOf)
  {
    var sc := ScanUpTo(qs, answers, i, topicOf);
    var slot := SlotAt(answers, i);
    assert ScanUpTo(qs, answers, i + 1, topicOf) == Step(sc, qs[i], slot, topicOf);
    var ks := WrongIndices(qs, answers, i);
    if Wrong(slot, qs[i]) {
      assert WrongIndices(qs, answers, i + 1) == ks + [i];
      var rs := ReviewsAt(qs, answers, ks + [i], topicOf);
      assert rs == ReviewsAt(qs, answers, ks, topicOf) + [ReviewOf(qs[i], slot, topicOf(qs[i].question))];
    } else {
      assert WrongIndices(qs, answers, i + 1) == ks;
    }
  }

  /** One step keeps the invariant. */
  lemma StepKeepsInvariant(qs: seq<Question>, answers: seq<Option<string>>, topicOf: string -> Topic, i: nat)
    requires i < |qs|
    requires ScanInvariant(qs, answers, ScanUpTo(qs, answers, i, topicOf), i, topicOf)
    ensures ScanInvariant(qs, answers, ScanUpTo(qs, answers, i + 1, topicOf), i + 1, topicOf)
  {
    StepKeepsCounts(qs, answers, topicOf, i);
    StepKeepsTopics(qs, answers, topicOf, i);
    StepKeepsReviews(qs, answers, topicOf, i);
  }

  /** Counting invariants of the whole pass, for every prefix: correct
      answers never exceed answered ones, nor those the questions; the
      review list has one entry per wrong answer; topic totals and corrects
      sum to the answered and correct counts; every question's topic has an
      entry; the review list holds the wrongly answered questions in order. */
  lemma {:induction false} ScanInvariantHolds(qs: seq<Question>, answers: seq<Option<string>>, topicOf: string -> Topic, i: nat)
    requires i <= |qs|
    ensures ScanInvariant(qs, answers, ScanUpTo(qs, answers, i, topicOf), i, topicOf)
  {
    if i > 0 {
      ScanInvariantHolds(qs, answers, topicOf, i - 1);
      StepKeepsInvariant(qs, answers, topicOf, i - 1);
    }
  }

  /** The first position carrying `t` is the one `IndexOfTopic` finds. */
  lemma IndexOfTopicIs(tally: Tally, t: Topic, j: nat)
    requires j < |tally| && tally[j].0 == t
    requires forall i :: 0 <= i < j ==> tally[i].0 != t
    ensures HasTopic(tally, t) && IndexOfTopic(tally, t) == j
  {
  }

  /** Adding a topic with zero counts leaves every topic's numbers as they
      were. */
  lemma TouchKeepsStats(tally: Tally, topic: Topic, t: Topic)
    ensures StatOf(Touch(tally, topic), t) == StatOf(tally, t)
  {
    if !HasTopic(tally, topic) {
      var r := tally + [(topic, TopicStat(0, 0))];
      assert Touch(tally, topic) == r;
      assert forall i :: 0 <= i < |tally| ==> r[i] == tally[i];
      if HasTopic(tally, t) {
        var j := IndexOfTopic(tally, t);
        IndexOfTopicIs(r, t, j);
      } else if t == topic {
        IndexOfTopicIs(r, t, |tally|);
      } else {
        assert !HasTopic(r, t);
      }
    }
  }

  /** A `null` answer changes no counter, no topic's numbers and no review
      entry; at most it adds the topic with zero counts. */
  lemma NullAnswerChangesNothing(qs: seq<Question>, answers: seq<Option<string>>, topicOf: string -> Topic, i: nat, t: Topic)
    requires i < |qs| && i < |answers| && answers[i].None?
    ensures var before := ScanUpTo(qs, answers, i, topicOf);
      var after := ScanUpTo(qs, answers, i + 1, topicOf);
      after.correctCount == before.correctCount
      && after.answeredCount == before.answeredCount
      && after.incorrectQuestions == before.incorrectQuestions
      && StatOf(after.topicStats, t) == StatOf(before.topicStats, t)
  {
    var before := ScanUpTo(qs, answers, i, topicOf);
    var topic := topicOf(qs[i].question);
    assert SlotAt(answers, i) == Null;
    assert ScanUpTo(qs, answers, i + 1, topicOf) == before.(topicStats := Touch(before.topicStats, topic));
    TouchKeepsStats(before.topicStats, topic, t);
  }

  /** What the results screen shows, for any categoriser: `total` holds
      the answered count (shown as answered / number of questions), the
      counts and the review list agree, the topic tallies sum to them, every
      question's topic has an entry, and the review list holds one entry
      per wrongly answered question, in question order, recording the
      question, the answer given, the correct answer and the topic. */
  lemma SummaryFacts(qs: seq<Question>, answers: seq<Option<string>>, topicOf: string -> Topic)
    ensures var sc := ScanUpTo(qs, answers, |qs|, topicOf);
      var st := Summarize(sc);
      && st.total == sc.answeredCount
      && st.correctCount <= st.total <= |qs|
      && st.incorrectCount == st.total - st.correctCount == |st.incorrectQuestions|
      && 0 <= st.percentage <= 100
      && TallyOk(st.topicStats, st.correctCount, st.total)
      && (forall k :: 0 <= k < |qs| ==> HasTopic(st.topicStats, topicOf(qs[k].question)))
      && st.incorrectQuestions == ReviewsAt(qs, answers, WrongIndices(qs, answers, |qs|), topicOf)
      && (forall r :: r in st.incorrectQuestions ==>
            !r.isCorrect && r.topic == topicOf(r.question) && r.userAnswer != Some(r.correctAnswer))
  {
    ScanInvariantHolds(qs, answers, topicOf, |qs|);
    ReviewsAtFlags(qs, answers, |qs|, topicOf);
  }

  // ----------------------------------------------------- the method

  /** The three numbers the results screen leads with, for a whole pass. */
  lemma SummaryBounds(qs: seq<Question>, answers: seq<Option<string>>, topicOf: string -> Topic)
    ensures var st := Summarize(ScanUpTo(qs, answers, |qs|, topicOf));
      && st.correctCount <= st.total <= |qs|
      && st.incorrectCount == st.total - st.correctCount == |st.incorrectQuestions|
      && 0 <= st.percentage <= 100
  {
    SummaryFacts(qs, answers, topicOf);
  }

  /** One iteration of the loop in `Score`, in the loop's own terms. */
  lemma StepUnfolds(sc: Scan, q: Question, slot: Slot, topic: Topic, topicOf: string -> Topic)
    requires topicOf(q.question) == topic
    ensures var tally := Touch(sc.topicStats, topic);
      var correct := slot.Text? && slot.s == q.correctAnswer;
      Step(sc, q, slot, topicOf) ==
        if slot == Null then sc.(topicStats := tally)
        else Scan(sc.correctCount + (if correct then 1 else 0), sc.answeredCount + 1,
                  if correct then sc.incorrectQuestions
                  else sc.incorrectQuestions + [ReviewItem(q.question, if slot.Text? then Some(slot.s) else None,
                                                           q.correctAnswer, topic, false)],
                  Credit(tally, topic, correct))
  {
  }

  /** The `useEffect` scoring pass: one loop over the questions, with the
      categoriser as a parameter. */
  method ScoreWith(qs: seq<Question>, answers: seq<Option<string>>, topicOf: string -> Topic) returns (stats: Stats)
    ensures stats.correctCount <= stats.total <= |qs|
    ensures stats.incorrectCount == stats.total - stats.correctCount == |stats.incorrectQuestions|
    ensures 0 <= stats.percentage <= 100
    ensures stats == Summarize(ScanUpTo(qs, answers, |qs|, topicOf))
  {
    var correctCount: nat := 0;
    var answeredCount: nat := 0;
    var incorrectQuestions: seq<ReviewItem> := [];
    var topicStats: Tally := [];
    var index := 0;
    while index < |qs|
      invariant index <= |qs|
      invariant ScanUpTo(qs, answers, index, topicOf)
        == Scan(correctCount, answeredCount, incorrectQuestions, topicStats)
    {
      var question := qs[index];
      var topic := topicOf(question.question);
      var slot := SlotAt(answers, index);
      ghost var before := Scan(correctCount, answeredCount, incorrectQuestions, topicStats);
      StepUnfolds(before, question, slot, topic, topicOf);
      topicStats := Touch(topicStats, topic);
      if slot != Null {
        var correct := slot.Text? && slot.s == question.correctAnswer;
        answeredCount := answeredCount + 1;
        if correct {
          correctCount := correctCount + 1;
        } else {
          incorrectQuestions := incorrectQuestions + [ReviewItem(question.question,
            if slot.Text? then Some(slot.s) else None, question.correctAnswer, topic, false)];
        }
        topicStats := Credit(topicStats, topic, correct);
      }
      assert Scan(correctCount, answeredCount, incorrectQuestions, topicStats) == Step(before, question, slot, topicOf);
      index := index + 1;
    }
    SummaryBounds(qs, answers, topicOf);
    var percentage := RoundPercent(correctCount, answeredCount);
    stats := Stats(correctCount, answeredCount - correctCount, answeredCount,
                   percentage, topicStats, incorrectQuestions);
  }

  /** The component's pass, which categorises with `Categorize`. */
  method Score(qs: seq<Question>, answers: seq<Option<string>>) returns (stats: Stats)
    ensures stats.correctCount <= stats.total <= |qs|
    ensures stats.incorrectCount == stats.total - stats.correctCount == |stats.incorrectQuestions|
    ensures 0 <= stats.percentage <= 100
    ensures stats == Summarize(ScanUpTo(qs, answers, |qs|, Categorize))
  {
    stats := ScoreWith(qs, answers, Categorize);
  }

  // ------------------------------------------------------- what is shown

  datatype Heading = ReviewIncorrect | PerfectScore

  /** "Review Incorrect Answers" when the review list is non-empty, else
      "Perfect Score!". */
  function HeadingOf(stats: Stats): (h: Heading)
    ensures h == PerfectScore <==> stats.incorrectQuestions == []
  {
    if |stats.incorrectQuestions| > 0 then ReviewIncorrect else PerfectScore
  }

  /** A quiz with every answer skipped scores 0% and shows "Perfect Score!"
      (for every prefix of the pass). */
  lemma {:induction false} AllSkipped(qs: seq<Question>, answers: seq<Option<string>>, topicOf: string -> Topic, i: nat)
    requires i <= |qs| <= |answers|
    requires forall k :: 0 <= k < |answers| ==> answers[k] == None
    ensures ScanUpTo(qs, answers, i, topicOf).answeredCount == 0
    ensures ScanUpTo(qs, answers, i, topicOf).incorrectQuestions == []
    ensures Summarize(ScanUpTo(qs, answers, i, topicOf)).percentage == 0
    ensures HeadingOf(Summarize(ScanUpTo(qs, answers, i, topicOf))) == PerfectScore
  {
    if i > 0 {
      AllSkipped(qs, answers, topicOf, i - 1);
    }
  }

  function TotalKey(e: (Topic, TopicStat)): int { e.1.total }

  /** The entries of the topic panel: topics with at least one answered
      question, sorted by answered count, largest first, ties in insertion
      order. */
  function TopicPanel(tally: Tally): Tally {
    Ordering.SortDesc(AnsweredTopics(tally), TotalKey)
  }

  /** `.filter(([_, s]) => s.total > 0)`. */
  function AnsweredTopics(tally: Tally): (r: Tally)
    ensures forall e :: e in r <==> e in tally && e.1.total > 0
  {
    if tally == [] then []
    else (if tally[0].1.total > 0 then [tally[0]] else []) + AnsweredTopics(tally[1..])
  }

  /** The panel shows exactly the answered topics, largest total first,
      and entries with equal totals keep their order. */
  lemma TopicPanelCorrect(tally: Tally, v: int)
    ensures forall e :: e in TopicPanel(tally) <==> e in tally && e.1.total > 0
    ensures Ordering.SortedDesc(TopicPanel(tally), TotalKey)
    ensures multiset(TopicPanel(tally)) == multiset(AnsweredTopics(tally))
    ensures Ordering.WithKey(TopicPanel(tally), TotalKey, v) == Ordering.WithKey(AnsweredTopics(tally), TotalKey, v)
  {
    Ordering.SortDescCorrect(AnsweredTopics(tally), TotalKey);
    Ordering.SortDescStable(AnsweredTopics(tally), TotalKey, v);
    forall e ensures e in TopicPanel(tally) <==> e in AnsweredTopics(tally) {
      assert e in TopicPanel(tally) <==> e in multiset(TopicPanel(tally));
    }
  }

  datatype BarColour = Red | Orange | Green

  /** Red below 50%, orange below 75%, green otherwise. */
  function BarColourOf(pct: int): (c: BarColour)
    ensures c == Red <==> pct < 50
    ensures c == Orange <==> 50 <= pct < 75
    ensures c == Green <==> pct >= 75
  {
    if pct < 50 then Red else if pct < 75 then Orange else Green
  }

  /** The percentage shown on a topic card (its total is positive there). */
  function TopicPercent(s: TopicStat): (p: int)
    requires s.correct <= s.total
    ensures 0 <= p <= 100
  {
    RoundPercent(s.correct, s.total)
  }
}
