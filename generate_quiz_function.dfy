/** The serverless quiz generator (netlify/functions/generate-quiz.ts):
    the fallback quiz, the parsing of the model's reply, and the handler's
    dispatch on method, input and type. */
module GenerateQuizFunction {
  import opened Wrappers
  import opened Text
  import opened Json
  import opened QuizTypes
  import opened GeneratedQuestions

  // --------------------------------------------------------- fallback quiz

  /** The `i`-th (1-based) fallback question. */
  function FallbackQuestion(i: nat): Question {
    Question("Sample Question " + NatToString(i), ["Option A", "Option B", "Option C", "Option D"], "Option A")
  }

  /** The first `count` fallback questions. */
  function FallbackQuiz(count: nat): (qs: seq<Question>)
    ensures |qs| == count
  {
    seq(count, k requires 0 <= k < count => FallbackQuestion(k + 1))
  }

  /** `generateFallbackQuiz`: the title argument is never used. */
  method GenerateFallbackQuiz(title: string, numQuestions: Option<real>) returns (qs: seq<Question>)
    ensures qs == FallbackQuiz(LoopCount(numQuestions))
  {
    qs := [];
    var i: nat := 1;
    while numQuestions.Some? && i as real <= numQuestions.value
      invariant 1 <= i && |qs| == i - 1
      invariant i == 1 || (numQuestions.Some? && (i - 1) as real <= numQuestions.value)
      invariant forall k :: 0 <= k < |qs| ==> qs[k] == FallbackQuestion(k + 1)
      decreases if numQuestions.Some? then numQuestions.value.Floor + 1 - i else 0
    {
      qs := qs + [FallbackQuestion(i)];
      i := i + 1;
    }
    assert |qs| == LoopCount(numQuestions);
  }

  /** Four distinct options with the first as the answer: every fallback
      question passes the generated-question filter. */
  lemma FallbackQuizKept(count: nat)
    ensures forall k :: 0 <= k < count ==>
      var q := FallbackQuiz(count)[k];
      |q.options| == 4 && q.correctAnswer == q.options[0]
      && forall a, b :: 0 <= a < b < 4 ==> q.options[a] != q.options[b]
    ensures forall q :: q in QuestionsToJson(FallbackQuiz(count)) ==> q != JNull && Keeps(q)
  {
    var qs := FallbackQuiz(count);
    forall k | 0 <= k < count
      ensures qs[k].question != "" && qs[k].correctAnswer != "" && qs[k].correctAnswer in qs[k].options
    {
      assert qs[k].correctAnswer == qs[k].options[0];
    }
    forall k, a, b | 0 <= k < count && 0 <= a < b < 4 ensures qs[k].options[a] != qs[k].options[b] {
      assert qs[k].options[a][7] != qs[k].options[b][7];
    }
    EncodedAllPass(qs);
  }

  // -------------------------------------------------------- reply parsing

  /** The fixed size of the fallback `parseClaudeResponse` returns. */
  const ParseFallbackSize: nat := 5

  /** `parseClaudeResponse`: the filtered questions of the reply, or exactly
      five fallback questions when there is no bracket span, the span does
      not parse, it is not an array or the filter throws, whatever count
      was asked for. */
  function ParseClaudeResponse(content: string, parse: string -> Option<JsonValue>): (qs: seq<JsonValue>)
    ensures Extract(content, parse).Some? ==> qs == Extract(content, parse).value
    ensures Extract(content, parse).None? ==> qs == QuestionsToJson(FallbackQuiz(ParseFallbackSize))
    ensures forall q :: q in qs ==> q != JNull && Keeps(q)
  {
    FallbackQuizKept(ParseFallbackSize);
    var kept := Extract(content, parse);
    if kept.Some? then kept.value else QuestionsToJson(FallbackQuiz(ParseFallbackSize))
  }

  /** A reply without any '[' falls back to five questions. */
  lemma NoBracketFallsBack(content: string, parse: string -> Option<JsonValue>)
    requires '[' !in content
    ensures |ParseClaudeResponse(content, parse)| == 5
  {
  }

  /** `generateFromPrompt`: the fallback for the requested count when the
      key is missing or the request fails, otherwise the parsed reply. */
  function GenerateFromPrompt(numQuestions: Option<real>, reply: Reply, parse: string -> Option<JsonValue>): (qs: seq<JsonValue>)
    ensures !reply.Content? ==> qs == QuestionsToJson(FallbackQuiz(LoopCount(numQuestions)))
    ensures reply.Content? ==> qs == ParseClaudeResponse(reply.text, parse)
    ensures forall q :: q in qs ==> q != JNull && Keeps(q)
  {
    FallbackQuizKept(LoopCount(numQuestions));
    if reply.Content? then ParseClaudeResponse(reply.text, parse)
    else QuestionsToJson(FallbackQuiz(LoopCount(numQuestions)))
  }

  /** `generateFromPDF`: always the fallback for the requested count. */
  function GenerateFromPdf(numQuestions: Option<real>): (qs: seq<JsonValue>)
    ensures |qs| == LoopCount(numQuestions)
    ensures forall q :: q in qs ==> q != JNull && Keeps(q)
  {
    FallbackQuizKept(LoopCount(numQuestions));
    QuestionsToJson(FallbackQuiz(LoopCount(numQuestions)))
  }

  // ---------------------------------------------------------------- handler

  const MethodNotAllowed := "Method not allowed"
  const InvalidInput := "Invalid input: type and numQuestions required"
  const PromptRequired := "Prompt required for prompt type"
  const GenerateFailed := "Failed to generate quiz"

  /** The request body's text: decoded when it is flagged as base64
      (`decode`), else the raw body, "{}" when it is absent or empty. */
  function BodyText(body: Option<string>, base64: bool, decode: string -> string): string {
    if base64 then decode(if body.Some? then body.value else "")
    else if body.Some? && body.value != "" then body.value else "{}"
  }

  /** `handler`: 405 for anything but POST, before the body is read; 500
      when the body does not parse or is `null`; then the input guard, the
      prompt requirement and the type switch; 200 with the prompt as title. */
  function Handler(httpMethod: string, body: Option<string>, base64: bool, decode: string -> string,
                   reply: Reply, parse: string -> Option<JsonValue>): (res: Response)
    ensures httpMethod != "POST" ==> res == Response(405, ErrorBody(MethodNotAllowed))
    ensures httpMethod == "POST" && (parse(BodyText(body, base64, decode)) in {None, Some(JNull)}) ==>
      res == Response(500, FailureBody(GenerateFailed))
    ensures res.status == 200 <==>
      httpMethod == "POST" && Request(body, base64, decode, parse).Some?
      && var req := Request(body, base64, decode, parse).value;
      ValidInput(Get(req, "type"), Get(req, "numQuestions"))
      && Get(req, "type") == Some(JStr("prompt")) && Truthy(Get(req, "prompt"))
    ensures res.status == 200 ==>
      var req := Request(body, base64, decode, parse).value;
      res.body == QuizBody(Get(req, "prompt").value, GenerateFromPrompt(ToNumber(Get(req, "numQuestions")), reply, parse))
    ensures res.status == 200 ==> forall q :: q in res.body.data ==> q != JNull && Keeps(q)
    ensures res.status in {200, 400, 405, 500}
    ensures (httpMethod == "POST" && Request(body, base64, decode, parse).Some?
             && !ValidInput(Get(Request(body, base64, decode, parse).value, "type"),
                            Get(Request(body, base64, decode, parse).value, "numQuestions"))) ==>
      res == Response(400, ErrorBody(InvalidInput))
    ensures (httpMethod == "POST" && Request(body, base64, decode, parse).Some?
             && Get(Request(body, base64, decode, parse).value, "type") == Some(JStr("prompt"))
             && !Truthy(Get(Request(body, base64, decode, parse).value, "prompt"))) ==>
      res.status == 400
  {
    if httpMethod != "POST" then Response(405, ErrorBody(MethodNotAllowed))
    else
      var req := Request(body, base64, decode, parse);
      if req.None? then Response(500, FailureBody(GenerateFailed))
      else
        var kind := Get(req.value, "type");
        var prompt := Get(req.value, "prompt");
        var numQuestions := Get(req.value, "numQuestions");
        if !ValidInput(kind, numQuestions) then Response(400, ErrorBody(InvalidInput))
        else if kind == Some(JStr("prompt")) then
          if !Truthy(prompt) then Response(400, ErrorBody(PromptRequired))
          else
            var questions := GenerateFromPrompt(ToNumber(numQuestions), reply, parse);
            Response(200, QuizBody(TitleOf(prompt), questions))
        else if kind == Some(JStr("image")) then
          Response(400, ErrorBody("Image generation not yet implemented. Use prompt instead."))
        else if kind == Some(JStr("pdf")) then
          Response(400, ErrorBody("PDF generation not yet implemented. Use prompt instead."))
        else Response(400, ErrorBody("Invalid type"))
  }

  /** The parsed body, None when `JSON.parse` throws or the body is `null`
      (destructuring `null` throws). */
  function Request(body: Option<string>, base64: bool, decode: string -> string,
                   parse: string -> Option<JsonValue>): Option<JsonValue>
  {
    var parsed := parse(BodyText(body, base64, decode));
    if parsed == Some(JNull) then None else parsed
  }

  /** `prompt || "Generated Quiz"`. */
  function TitleOf(prompt: Option<JsonValue>): JsonValue {
    if Truthy(prompt) then prompt.value else JStr("Generated Quiz")
  }

  /** Image, pdf and unknown types are refused with 400 once the input
      guard passes. */
  lemma FileTypesRefused(reply: Reply, parse: string -> Option<JsonValue>, kind: string, n: real)
    requires kind != "prompt" && kind != "" && 1.0 <= n <= 50.0
    requires parse("{}") == Some(JObj(map["type" := JStr(kind), "numQuestions" := JNum(n)]))
    ensures Handler("POST", None, false, s => s, reply, parse).status == 400
  {
  }
}
