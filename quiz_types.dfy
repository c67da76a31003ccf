/** The quiz records shared by the client and the server, and their JSON
    form (what `JSON.parse(JSON.stringify(x))` gives back). */
module QuizTypes {
  import opened Wrappers
  import opened Json

  datatype Question = Question(question: string, options: seq<string>, correctAnswer: string)

  datatype QuizData = QuizData(title: Option<string>, data: seq<Question>)

  /** One entry of the browser-side quiz history. `date` is a timestamp. */
  datatype QuizResult = QuizResult(id: string, title: string, score: int, total: int, date: int)

  /** A quiz kept in the browser's saved list, with its replay counter.
      `createdAt` is a timestamp. */
  datatype StoredQuiz = StoredQuiz(id: string, title: string, data: seq<Question>, createdAt: int, attempts: int)

  /** A quiz as the server stores it (`StoredJsonQuiz`). Its `data` is
      whatever the client posted, so it is kept as a JSON value; `createdAt`
      is the timestamp behind the ISO string. */
  datatype CloudQuiz = CloudQuiz(id: string, title: string, data: JsonValue, createdAt: int)

  function StringsToJson(ss: seq<string>): (r: seq<JsonValue>)
    ensures |r| == |ss| && forall i :: 0 <= i < |ss| ==> r[i] == JStr(ss[i])
  {
    seq(|ss|, i requires 0 <= i < |ss| => JStr(ss[i]))
  }

  /** Encoding keeps membership. */
  lemma StringsToJsonHas(ss: seq<string>, c: string)
    ensures JStr(c) in StringsToJson(ss) <==> c in ss
  {
    var js := StringsToJson(ss);
    if c in ss {
      var i :| 0 <= i < |ss| && ss[i] == c;
      assert js[i] == JStr(c);
    }
    if JStr(c) in js {
      var i :| 0 <= i < |js| && js[i] == JStr(c);
      assert ss[i] == c;
    }
  }

  function QuestionToJson(q: Question): JsonValue {
    JObj(map["question" := JStr(q.question),
             "options" := JArr(StringsToJson(q.options)),
             "correct_answer" := JStr(q.correctAnswer)])
  }

  function QuestionsToJson(qs: seq<Question>): (r: seq<JsonValue>)
    ensures |r| == |qs| && forall i :: 0 <= i < |qs| ==> r[i] == QuestionToJson(qs[i])
  {
    seq(|qs|, i requires 0 <= i < |qs| => QuestionToJson(qs[i]))
  }

  function QuizToJson(d: QuizData): JsonValue {
    var fields := map["data" := JArr(QuestionsToJson(d.data))];
    JObj(if d.title.Some? then fields["title" := JStr(d.title.value)] else fields)
  }

  // --------------------------------------------- reading the declared types

  /** The texts of a list whose entries are all strings. */
  function StringsOf(vs: seq<JsonValue>): (r: Option<seq<string>>)
    ensures r.Some? <==> forall i :: 0 <= i < |vs| ==> vs[i].JStr?
    ensures r.Some? ==> StringsToJson(r.value) == vs
  {
    if forall i :: 0 <= i < |vs| ==> vs[i].JStr? then
      var ss := seq(|vs|, i requires 0 <= i < |vs| => vs[i].s);
      assert StringsToJson(ss) == vs;
      Some(ss)
    else None
  }

  /** A value with the fields of `Question` at their declared types: a
      string question, an array of strings as options and a string answer.
      None for anything else, which the screens that take a `Question`
      would meet only through an unchecked cast. */
  function QuestionOf(v: JsonValue): (r: Option<Question>)
    ensures r.Some? ==>
      && Get(v, "question") == Some(JStr(r.value.question))
      && Get(v, "options") == Some(JArr(StringsToJson(r.value.options)))
      && Get(v, "correct_answer") == Some(JStr(r.value.correctAnswer))
    ensures !(Get(v, "question").Some? && Get(v, "question").value.JStr?) ==> r.None?
  {
    var q, os, a := Get(v, "question"), Get(v, "options"), Get(v, "correct_answer");
    if q.Some? && q.value.JStr? && os.Some? && os.value.JArr? && a.Some? && a.value.JStr?
       && StringsOf(os.value.items).Some?
    then Some(Question(q.value.s, StringsOf(os.value.items).value, a.value.s))
    else None
  }

  /** Every entry read as a `Question`, or None when one does not fit. */
  function QuestionsOf(vs: seq<JsonValue>): (r: Option<seq<Question>>)
    ensures r.Some? <==> forall i :: 0 <= i < |vs| ==> QuestionOf(vs[i]).Some?
    ensures r.Some? ==> |r.value| == |vs| && forall i :: 0 <= i < |vs| ==> r.value[i] == QuestionOf(vs[i]).value
  {
    if forall i :: 0 <= i < |vs| ==> QuestionOf(vs[i]).Some? then
      Some(seq(|vs|, i requires 0 <= i < |vs| => QuestionOf(vs[i]).value))
    else None
  }

  /** A document read as `QuizData`: a `data` array of questions that fit
      and a title that is absent or a string. */
  function QuizDataOf(doc: JsonValue): Option<QuizData> {
    var d, t := Get(doc, "data"), Get(doc, "title");
    if d.Some? && d.value.JArr? && QuestionsOf(d.value.items).Some? && (t.None? || t.value.JStr?) then
      Some(QuizData(if t.Some? then Some(t.value.s) else None, QuestionsOf(d.value.items).value))
    else None
  }

  /** Reading back an encoded question gives the question. */
  lemma QuestionRoundTrip(q: Question)
    ensures QuestionOf(QuestionToJson(q)) == Some(q)
  {
    var v := QuestionToJson(q);
    assert Get(v, "options") == Some(JArr(StringsToJson(q.options)));
    var os := StringsToJson(q.options);
    assert StringsOf(os).Some?;
    assert StringsToJson(StringsOf(os).value) == os;
    assert StringsOf(os).value == q.options;
  }

  /** Reading back an encoded quiz gives the quiz. */
  lemma QuizDataRoundTrip(d: QuizData)
    ensures QuizDataOf(QuizToJson(d)) == Some(d)
  {
    var items := QuestionsToJson(d.data);
    forall i | 0 <= i < |items| ensures QuestionOf(items[i]) == Some(d.data[i]) {
      QuestionRoundTrip(d.data[i]);
    }
    assert QuestionsOf(items).value == d.data;
    var doc := QuizToJson(d);
    assert Get(doc, "data") == Some(JArr(items));
  }
}
