/** The Express API routes (server/routes.ts): the mock quiz, generation
    through the model's API with its fallbacks, and the status codes of
    generate-quiz, save-quiz, stored-quizzes and delete-quiz. */
module Routes {
  import opened Wrappers
  import opened Text
  import opened Json
  import opened QuizTypes
  import opened GeneratedQuestions
  import ServerStorage
  import JsonQuizzesSection
  import OrderedMap

  // ------------------------------------------------------------ mock quiz

  /** The `i`-th (1-based) question of `generateMockQuiz(title, n)`. */
  function MockQuestion(title: string, i: nat): Question {
    var first := "Option A for " + title;
    Question("What is " + title + " concept " + NatToString(i) + "?",
             [first, "Option B for " + title, "Option C for " + title, "Option D for " + title],
             first)
  }

  /** The first `count` mock questions. */
  function MockQuiz(title: string, count: nat): (qs: seq<Question>)
    ensures |qs| == count
  {
    seq(count, k requires 0 <= k < count => MockQuestion(title, k + 1))
  }

  /** Four options, the answer being the first: every mock question passes
      the generated-question filter. */
  lemma MockQuestionKept(title: string, i: nat)
    ensures |MockQuestion(title, i).options| == 4
    ensures MockQuestion(title, i).correctAnswer == MockQuestion(title, i).options[0]
    ensures Keeps(QuestionToJson(MockQuestion(title, i)))
  {
    var q := MockQuestion(title, i);
    assert q.correctAnswer in q.options;
    KeepsEncoded(q);
  }

  /** The whole mock quiz passes the filter. */
  lemma MockQuizKept(title: string, count: nat)
    ensures forall q :: q in QuestionsToJson(MockQuiz(title, count)) ==> q != JNull && Keeps(q)
  {
    var qs := MockQuiz(title, count);
    forall k | 0 <= k < |qs|
      ensures qs[k].question != "" && qs[k].correctAnswer != "" && qs[k].correctAnswer in qs[k].options
    {
      MockQuestionKept(title, k + 1);
    }
    EncodedAllPass(qs);
  }

  /** `generateMockQuiz`: `for (let i = 1; i <= numQuestions; i++)` over a
      number that may be fractional or NaN (None). */
  method GenerateMockQuiz(title: string, numQuestions: Option<real>) returns (qs: seq<Question>)
    ensures qs == MockQuiz(title, LoopCount(numQuestions))
  {
    qs := [];
    var i: nat := 1;
    while numQuestions.Some? && i as real <= numQuestions.value
      invariant 1 <= i && |qs| == i - 1
      invariant i == 1 || (numQuestions.Some? && (i - 1) as real <= numQuestions.value)
      invariant forall k :: 0 <= k < |qs| ==> qs[k] == MockQuestion(title, k + 1)
      decreases if numQuestions.Some? then numQuestions.value.Floor + 1 - i else 0
    {
      qs := qs + [MockQuestion(title, i)];
      i := i + 1;
    }
    assert |qs| == LoopCount(numQuestions);
  }

  /** The mock count: the requested number rounded down, none below 1. */
  lemma MockCount(title: string, n: nat, f: real)
    requires 0.0 <= f < 1.0
    ensures |MockQuiz(title, LoopCount(Some(n as real + f)))| == n
    ensures |MockQuiz(title, LoopCount(None))| == 0
  {
    assert (n as real + f).Floor == n;
  }

  // ------------------------------------------------------------ generation

  /** `generateFromPromptWithClaude`: the filtered questions of the reply;
      the mock quiz for the trimmed prompt whenever the key is missing, the
      request fails, the reply holds no array or its parse or filter
      throws. Whatever it returns passes the filter. */
  function GenerateFromPromptWithClaude(prompt: string, numQuestions: Option<real>, reply: Reply,
                                        parse: string -> Option<JsonValue>): (qs: seq<JsonValue>)
    ensures reply.Content? && Extract(reply.text, parse).Some? ==> qs == Extract(reply.text, parse).value
    ensures !(reply.Content? && Extract(reply.text, parse).Some?) ==>
      qs == QuestionsToJson(MockQuiz(prompt, LoopCount(numQuestions)))
    ensures forall q :: q in qs ==> q != JNull && Keeps(q)
  {
    var mock := QuestionsToJson(MockQuiz(prompt, LoopCount(numQuestions)));
    MockQuizKept(prompt, LoopCount(numQuestions));
    if reply.Content? then
      var kept := Extract(reply.text, parse);
      if kept.Some? then kept.value else mock
    else mock
  }

  // ----------------------------------------------------------- generate-quiz

  const InvalidInput := "Invalid input: type and numQuestions required"
  const PromptRequired := "Prompt required for prompt type"
  const GenerateFailed := "Failed to generate quiz"

  /** The text of the 400 for the file types. */
  function NotImplemented(kind: string): string {
    kind + " generation not yet implemented. Please use prompt type."
  }

  /** The request gets past the input guard (a `null` body throws first). */
  predicate Admitted(body: JsonValue) {
    body != JNull && ValidInput(Get(body, "type"), Get(body, "numQuestions"))
  }

  /** `POST /api/generate-quiz`. The body's `type`, `prompt` and
      `numQuestions` are destructured (a `null` body throws); a truthy prompt
      that is not a string has no `trim` and throws. */
  function GenerateQuizRoute(body: JsonValue, reply: Reply, parse: string -> Option<JsonValue>): (res: Response)
    ensures body == JNull ==> res == Response(500, FailureBody(GenerateFailed))
    ensures body != JNull && !ValidInput(Get(body, "type"), Get(body, "numQuestions")) ==>
      res == Response(400, ErrorBody(InvalidInput))
    ensures res.status == 200 <==>
      Admitted(body) && Get(body, "type") == Some(JStr("prompt"))
      && Get(body, "prompt").Some? && Get(body, "prompt").value.JStr? && !IsBlank(Get(body, "prompt").value.s)
    ensures res.status == 200 ==>
      var prompt := Get(body, "prompt").value;
      res.body == QuizBody(prompt, GenerateFromPromptWithClaude(Trim(prompt.s), ToNumber(Get(body, "numQuestions")), reply, parse))
    ensures res.status == 200 ==> forall q :: q in res.body.data ==> q != JNull && Keeps(q)
    ensures Admitted(body) && Get(body, "type") == Some(JStr("prompt")) && !Truthy(Get(body, "prompt")) ==>
      res == Response(400, ErrorBody(PromptRequired))
    ensures (Admitted(body) && Get(body, "type") == Some(JStr("prompt"))
             && Truthy(Get(body, "prompt")) && !Get(body, "prompt").value.JStr?) ==>
      res == Response(500, FailureBody(GenerateFailed))
    ensures Admitted(body) && Get(body, "type").value in {JStr("image"), JStr("pdf")} ==>
      res == Response(400, ErrorBody(NotImplemented(Get(body, "type").value.s)))
    ensures Admitted(body) && Get(body, "type").value !in {JStr("prompt"), JStr("image"), JStr("pdf")} ==>
      res == Response(400, ErrorBody("Invalid type"))
  {
    if body == JNull then Response(500, FailureBody(GenerateFailed))
    else
      var kind := Get(body, "type");
      var prompt := Get(body, "prompt");
      var numQuestions := Get(body, "numQuestions");
      if !ValidInput(kind, numQuestions) then Response(400, ErrorBody(InvalidInput))
      else if kind == Some(JStr("prompt")) then
        if !Truthy(prompt) then Response(400, ErrorBody(PromptRequired))
        else if !prompt.value.JStr? then Response(500, FailureBody(GenerateFailed))
        else if IsBlank(prompt.value.s) then Response(400, ErrorBody(PromptRequired))
        else
          var questions := GenerateFromPromptWithClaude(Trim(prompt.value.s), ToNumber(numQuestions), reply, parse);
          Response(200, QuizBody(prompt.value, questions))
      else if kind == Some(JStr("image")) || kind == Some(JStr("pdf")) then
        Response(400, ErrorBody(NotImplemented(kind.value.s)))
      else Response(400, ErrorBody("Invalid type"))
  }

  /** The reply's title is the prompt as sent, not the trimmed text the
      quiz was generated from. */
  lemma TitleIsUntrimmed(n: real, reply: Reply, parse: string -> Option<JsonValue>)
    requires 1.0 <= n <= 50.0
    ensures var body := JObj(map["type" := JStr("prompt"), "prompt" := JStr(" cats "), "numQuestions" := JNum(n)]);
      var res := GenerateQuizRoute(body, reply, parse);
      res.status == 200 && res.body.title == JStr(" cats ")
  {
    var body := JObj(map["type" := JStr("prompt"), "prompt" := JStr(" cats "), "numQuestions" := JNum(n)]);
    assert Get(body, "prompt") == Some(JStr(" cats "));
    assert !IsSpace(" cats "[1]);
    assert !IsBlank(" cats ") by {
      BlankIffAllSpace(" cats ");
    }
  }

  // -------------------------------------------------------------- save-quiz

  /** What `POST /api/save-quiz` does before the storage call: answer at
      once, or store the trimmed title with the posted quiz data. */
  datatype SaveStep = Reject(response: Response) | Store(title: string, quizData: JsonValue)

  const SaveFailed := "Failed to save quiz"
  const TitleRequired := "Quiz title is required"
  const BadFormat := "Invalid quiz data format. Must have 'data' array"
  const NoQuestions := "Quiz must have at least one question"

  function QuestionError(i: nat): string {
    "Question " + NatToString(i + 1) + ": invalid format"
  }

  /** `!quizData || !quizData.data || !Array.isArray(quizData.data)` is
      false. */
  predicate DataOk(quizData: Option<JsonValue>) {
    Truthy(quizData) && Truthy(Get(quizData.value, "data")) && IsArray(Get(quizData.value, "data"))
  }

  function Items(quizData: Option<JsonValue>): seq<JsonValue>
    requires DataOk(quizData)
  {
    Get(quizData.value, "data").value.items
  }

  /** The per-question test of save-quiz for a non-null entry: truthy
      question, array options, truthy answer; neither the number of options
      nor membership of the answer is checked. */
  predicate ServerOk(q: JsonValue) {
    Truthy(Get(q, "question")) && IsArray(Get(q, "options")) && Truthy(Get(q, "correct_answer"))
  }

  /** Questions before index `j` are present and pass. */
  predicate PassesBefore(items: seq<JsonValue>, j: nat)
    requires j <= |items|
  {
    forall k :: 0 <= k < j ==> items[k] != JNull && ServerOk(items[k])
  }

  /** `POST /api/save-quiz` up to the storage call, for the body's `title`
      and `quizData`. A truthy title that is not a string has no `trim` and
      a `null` question has no fields: both throw and answer 500. */
  method SaveQuizRoute(title: Option<JsonValue>, quizData: Option<JsonValue>) returns (step: SaveStep)
    ensures step.Store? <==>
      title.Some? && title.value.JStr? && !IsBlank(title.value.s)
      && DataOk(quizData) && |Items(quizData)| > 0 && PassesBefore(Items(quizData), |Items(quizData)|)
    ensures step.Store? ==> step == Store(Trim(title.value.s), quizData.value)
    ensures !Truthy(title) ==> step == Reject(Response(400, ErrorBody(TitleRequired)))
    ensures Truthy(title) && !title.value.JStr? ==> step == Reject(Response(500, FailureBody(SaveFailed)))
    ensures title.Some? && title.value.JStr? && IsBlank(title.value.s) ==>
      step == Reject(Response(400, ErrorBody(TitleRequired)))
    ensures title.Some? && title.value.JStr? && !IsBlank(title.value.s) ==>
      (!DataOk(quizData) ==> step == Reject(Response(400, ErrorBody(BadFormat))))
      && (DataOk(quizData) && Items(quizData) == [] ==> step == Reject(Response(400, ErrorBody(NoQuestions))))
      && (DataOk(quizData) ==> forall j :: 0 <= j < |Items(quizData)| && PassesBefore(Items(quizData), j) ==>
            (Items(quizData)[j] == JNull ==> step == Reject(Response(500, FailureBody(SaveFailed))))
            && (Items(quizData)[j] != JNull && !ServerOk(Items(quizData)[j]) ==>
                  step == Reject(Response(400, ErrorBody(QuestionError(j))))))
  {
    if !Truthy(title) {
      return Reject(Response(400, ErrorBody(TitleRequired)));
    }
    if !title.value.JStr? {
      return Reject(Response(500, FailureBody(SaveFailed)));
    }
    if IsBlank(title.value.s) {
      return Reject(Response(400, ErrorBody(TitleRequired)));
    }
    if !DataOk(quizData) {
      return Reject(Response(400, ErrorBody(BadFormat)));
    }
    var items := Items(quizData);
    if |items| == 0 {
      return Reject(Response(400, ErrorBody(NoQuestions)));
    }
    var i := 0;
    while i < |items|
      invariant i <= |items|
      invariant PassesBefore(items, i)
    {
      var q := items[i];
      if q == JNull {
        forall j | i < j <= |items| ensures !PassesBefore(items, j) {
          assert items[i] == JNull;
        }
        return Reject(Response(500, FailureBody(SaveFailed)));
      }
      if !ServerOk(q) {
        forall j | i < j <= |items| ensures !PassesBefore(items, j) {
          assert !(items[i] != JNull && ServerOk(items[i]));
        }
        return Reject(Response(400, ErrorBody(QuestionError(i))));
      }
      i := i + 1;
    }
    step := Store(Trim(title.value.s), quizData.value);
  }

  /** The record saved for an accepted request holds the posted questions
      under the trimmed title. */
  lemma StoredQuestions(title: string, quizData: JsonValue, id: string, now: int)
    requires DataOk(Some(quizData))
    ensures ServerStorage.NewQuiz(title, quizData, id, now)
      == Returned(CloudQuiz(id, title, JArr(Items(Some(quizData))), now))
  {
  }

  /** Whatever the client's strict validator lets through, save-quiz
      accepts question by question. */
  lemma StrictImpliesServer(q: JsonValue)
    requires JsonQuizzesSection.Passes(q)
    ensures q != JNull && ServerOk(q)
  {
  }

  /** The server does not check membership or the number of options. */
  lemma ServerSkipsMembership()
    ensures var q := JObj(map["question" := JStr("Q"), "options" := JArr([JStr("a")]), "correct_answer" := JStr("b")]);
      ServerOk(q) && !Keeps(q) && !JsonQuizzesSection.Passes(q)
  {
    var q := JObj(map["question" := JStr("Q"), "options" := JArr([JStr("a")]), "correct_answer" := JStr("b")]);
    assert !SameValueZero(JStr("a"), JStr("b"));
    assert !Includes([JStr("a")], JStr("b"));
  }

  /** The answer to a save that reached storage: 201 with the stored record,
      500 when storage threw. */
  function SaveQuizReply(saved: Outcome<CloudQuiz>): (res: Response)
    ensures res.status == 201 <==> saved.Returned?
    ensures saved.Returned? ==> res.body == SavedBody(saved.value)
    ensures saved.Threw? ==> res == Response(500, FailureBody(SaveFailed))
  {
    if saved.Returned? then Response(201, SavedBody(saved.value)) else Response(500, FailureBody(SaveFailed))
  }

  // ------------------------------------------------- listing and deleting

  /** `GET /api/stored-quizzes`: the list, or 500 when storage threw. */
  function ListRoute(listed: Outcome<seq<CloudQuiz>>): (res: Response)
    ensures res.status == 200 <==> listed.Returned?
    ensures listed.Returned? ==> res.body == ListBody(listed.value)
    ensures listed.Threw? ==> res == Response(500, FailureBody("Failed to retrieve quizzes"))
  {
    if listed.Returned? then Response(200, ListBody(listed.value))
    else Response(500, FailureBody("Failed to retrieve quizzes"))
  }

  /** `DELETE /api/delete-quiz/:quizId`: an empty id is refused before
      storage is asked; storage's false is 404, true is 200, a throw 500. */
  function DeleteRoute(quizId: string, deleted: Outcome<bool>): (res: Response)
    ensures quizId == "" ==> res == Response(400, ErrorBody("Quiz ID is required"))
    ensures res.status == 200 <==> quizId != "" && deleted == Returned(true)
    ensures res.status == 404 <==> quizId != "" && deleted == Returned(false)
    ensures res.status == 500 <==> quizId != "" && deleted.Threw?
  {
    if quizId == "" then Response(400, ErrorBody("Quiz ID is required"))
    else match deleted
      case Threw => Response(500, FailureBody("Failed to delete quiz"))
      case Returned(false) => Response(404, ErrorBody("Quiz not found"))
      case Returned(true) => Response(200, MessageBody("Quiz deleted successfully"))
  }

  /** With the in-memory store, deleting the same id twice answers 200 and
      then 404. */
  method DeleteTwice(store: ServerStorage.MemStorage, id: string) returns (first: Response, second: Response)
    requires store.Valid() && id != "" && OrderedMap.Has(store.quizzes, id)
    modifies store
    ensures store.Valid()
    ensures first.status == 200 && second.status == 404
  {
    var d1 := store.DeleteQuiz(id);
    first := DeleteRoute(id, Returned(d1));
    var d2 := store.DeleteQuiz(id);
    second := DeleteRoute(id, Returned(d2));
  }
}
