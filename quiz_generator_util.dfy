/** The client-side generator helpers (client/src/lib/quiz-generator.ts):
    a type-based validator, a mock quiz builder and the title default. */
module QuizGeneratorUtil {
  import opened Wrappers
  import opened Text
  import opened Json
  import opened QuizTypes

  /** The per-question test of `validateGeneratedQuiz`: string question,
      array of strings as options, string answer among them. */
  predicate TypedOk(q: JsonValue) {
    var opts := Get(q, "options");
    var answer := Get(q, "correct_answer");
    && TypeOf(Get(q, "question")) == TString
    && IsArray(opts)
    && (forall o :: o in opts.value.items ==> TypeOf(Some(o)) == TString)
    && TypeOf(answer) == TString
    && Includes(opts.value.items, answer.value)
  }

  /** `data.data.every(...)`: `typeof q.question` on a `null` entry throws,
      unless an earlier entry already failed. */
  function EveryTyped(items: seq<JsonValue>): Outcome<bool> {
    if items == [] then Returned(true)
    else if items[0] == JNull then Threw
    else if !TypedOk(items[0]) then Returned(false)
    else EveryTyped(items[1..])
  }

  /** `validateGeneratedQuiz`: false for a falsy or non-object value and
      for a non-array `data`; otherwise the `every` over the questions. */
  function ValidateGeneratedQuiz(doc: JsonValue): Outcome<bool> {
    if !Truthy(Some(doc)) || TypeOf(Some(doc)) != TObject then Returned(false)
    else
      var d := Get(doc, "data");
      if !IsArray(d) then Returned(false) else EveryTyped(d.value.items)
  }

  lemma {:induction false} EveryTypedSpec(items: seq<JsonValue>)
    ensures EveryTyped(items) == Returned(true) <==>
      forall j :: 0 <= j < |items| ==> items[j] != JNull && TypedOk(items[j])
  {
    if items != [] && items[0] != JNull && TypedOk(items[0]) {
      EveryTypedSpec(items[1..]);
      assert forall j :: 1 <= j < |items| ==> items[j] == items[1..][j - 1];
    }
  }

  /** The validator on values that are not quiz objects: `null`, `false`,
      numbers, strings and arrays are all refused, and so is an object
      without a `data` array; an empty `data` array passes. */
  lemma ValidatorEdgeCases(n: real, s: string, items: seq<JsonValue>)
    ensures ValidateGeneratedQuiz(JNull) == Returned(false)
    ensures ValidateGeneratedQuiz(JBool(true)) == Returned(false)
    ensures ValidateGeneratedQuiz(JNum(n)) == Returned(false)
    ensures ValidateGeneratedQuiz(JStr(s)) == Returned(false)
    ensures ValidateGeneratedQuiz(JArr(items)) == Returned(false)
    ensures ValidateGeneratedQuiz(JObj(map[])) == Returned(false)
    ensures ValidateGeneratedQuiz(JObj(map["data" := JArr([])])) == Returned(true)
  {
  }

  /** An encoded question passes the type test exactly when its answer is
      one of its options (every other field is a string by type). */
  lemma TypedOkEncoded(q: Question)
    ensures TypedOk(QuestionToJson(q)) <==> q.correctAnswer in q.options
  {
    var opts := StringsToJson(q.options);
    IncludesString(opts, q.correctAnswer);
    StringsToJsonHas(q.options, q.correctAnswer);
    assert forall o :: o in opts ==> o.JStr?;
  }

  lemma {:induction false} EveryTypedEncoded(qs: seq<Question>)
    ensures EveryTyped(QuestionsToJson(qs)) == Returned(true) <==>
      forall j :: 0 <= j < |qs| ==> qs[j].correctAnswer in qs[j].options
  {
    if qs != [] {
      TypedOkEncoded(qs[0]);
      EveryTypedEncoded(qs[1..]);
      assert QuestionsToJson(qs)[1..] == QuestionsToJson(qs[1..]);
      assert forall j :: 1 <= j < |qs| ==> qs[j] == qs[1..][j - 1];
    }
  }

  /** A typed quiz, once encoded, is accepted exactly when every answer is
      among its question's options. */
  lemma ValidateEncodedQuiz(d: QuizData)
    ensures ValidateGeneratedQuiz(QuizToJson(d)) == Returned(true) <==>
      forall j :: 0 <= j < |d.data| ==> d.data[j].correctAnswer in d.data[j].options
  {
    EveryTypedEncoded(d.data);
    var doc := QuizToJson(d);
    assert Get(doc, "data") == Some(JArr(QuestionsToJson(d.data)));
  }

  // ------------------------------------------------------------ mock quiz

  /** `Option X for <topic> <i>`. */
  function MockOption(topic: string, letter: char, i: nat): (s: string)
    ensures |s| > 7 && s[7] == letter
  {
    var head := "Option " + [letter];
    var tail := " for " + topic + " " + NatToString(i);
    assert |head| == 8 && head[7] == letter;
    assert (head + tail)[7] == head[7];
    head + tail
  }

  /** The `i`-th (1-based) question of the mock quiz. */
  function MockQuestion(topic: string, i: nat): Question {
    Question("What is " + topic + " concept " + NatToString(i) + "?",
             [MockOption(topic, 'A', i), MockOption(topic, 'B', i),
              MockOption(topic, 'C', i), MockOption(topic, 'D', i)],
             MockOption(topic, 'A', i))
  }

  /** Every mock question has four pairwise-distinct options and its
      answer is the first of them. */
  lemma MockQuestionShape(topic: string, i: nat)
    ensures var q := MockQuestion(topic, i);
      |q.options| == 4 && q.correctAnswer == q.options[0] && q.correctAnswer in q.options
      && forall a, b :: 0 <= a < b < 4 ==> q.options[a] != q.options[b]
  {
    var q := MockQuestion(topic, i);
    forall a, b | 0 <= a < b < 4 ensures q.options[a] != q.options[b] {
      assert q.options[a][7] != q.options[b][7];
    }
  }

  /** `generateMockQuiz`: `numQuestions` questions (none when it is below
      1), the `i`-th built by `MockQuestion`, titled "<topic> Quiz". */
  method GenerateMockQuiz(topic: string, numQuestions: int) returns (quiz: QuizData)
    ensures quiz.title == Some(topic + " Quiz")
    ensures |quiz.data| == if numQuestions < 1 then 0 else numQuestions
    ensures forall k :: 0 <= k < |quiz.data| ==> quiz.data[k] == MockQuestion(topic, k + 1)
  {
    var questions: seq<Question> := [];
    var i := 1;
    while i <= numQuestions
      invariant if numQuestions < 1 then i == 1 else 1 <= i <= numQuestions + 1
      invariant |questions| == i - 1
      invariant forall k :: 0 <= k < |questions| ==> questions[k] == MockQuestion(topic, k + 1)
    {
      questions := questions + [MockQuestion(topic, i)];
      i := i + 1;
    }
    quiz := QuizData(Some(topic + " Quiz"), questions);
  }

  /** The mock quiz passes the generator's own validator. */
  lemma MockQuizValid(topic: string, qs: seq<Question>)
    requires forall k :: 0 <= k < |qs| ==> qs[k] == MockQuestion(topic, k + 1)
    ensures ValidateGeneratedQuiz(QuizToJson(QuizData(Some(topic + " Quiz"), qs))) == Returned(true)
  {
    forall k | 0 <= k < |qs| ensures qs[k].correctAnswer in qs[k].options {
      MockQuestionShape(topic, k + 1);
    }
    ValidateEncodedQuiz(QuizData(Some(topic + " Quiz"), qs));
  }

  /** `formatQuizData`: the questions unchanged, and a falsy title
      (absent or "") replaced by "Generated Quiz". */
  function FormatQuizData(questions: seq<Question>, title: Option<string>): (r: QuizData)
    ensures r.data == questions
    ensures title.Some? && title.value != "" ==> r.title == title
    ensures title.None? || title == Some("") ==> r.title == Some("Generated Quiz")
  {
    QuizData(Some(if title.Some? && title.value != "" then title.value else "Generated Quiz"), questions)
  }
}
