/** What the two quiz-generation servers (server/routes.ts and
    netlify/functions/generate-quiz.ts) share: the input guard, the
    extraction of a JSON array from the model's reply, the filter applied to
    the generated questions, and the shape of an HTTP reply. */
module GeneratedQuestions {
  import opened Wrappers
  import opened Text
  import opened Json
  import opened QuizTypes

  // ------------------------------------------------------------ responses

  /** The JSON body of a reply, by the shapes the servers send. */
  datatype Body =
    | ErrorBody(error: string)
    | FailureBody(error: string)
    | QuizBody(title: JsonValue, data: seq<JsonValue>)
    | SavedBody(quiz: CloudQuiz)
    | ListBody(quizzes: seq<CloudQuiz>)
    | MessageBody(message: string)

  datatype Response = Response(status: int, body: Body)

  /** How the call to the model's API ended: no key configured, a failed
      request (network error, non-2xx status, a reply without a first
      content block), or the text of that block ("" when it is not a
      string: searching it throws inside the same `try` and falls back as
      an empty text does). */
  datatype Reply = NoKey | RequestFailed | Content(text: string)

  // ----------------------------------------------------------- input guard

  /** `!type || !numQuestions || numQuestions < 1 || numQuestions > 50`
      is false: the request may go on. */
  predicate ValidInput(kind: Option<JsonValue>, numQuestions: Option<JsonValue>) {
    Truthy(kind) && Truthy(numQuestions) && !LessThan(numQuestions, 1.0) && !GreaterThan(numQuestions, 50.0)
  }

  /** Any count from 1 to 50 passes, fractions included; 0, 51 and a
      missing type do not. */
  lemma ValidInputBounds(kind: string, n: real)
    requires kind != ""
    ensures 1.0 <= n <= 50.0 ==> ValidInput(Some(JStr(kind)), Some(JNum(n)))
    ensures n < 1.0 || n > 50.0 ==> !ValidInput(Some(JStr(kind)), Some(JNum(n)))
    ensures !ValidInput(None, Some(JNum(n)))
  {
  }

  /** A count sent as text is compared as the number it reads as: "2.5"
      passes, "-5" is refused. */
  lemma ValidInputText(kind: string, fraction: string, negative: string)
    requires kind != "" && fraction == "2" + "." + "5" && negative == "-" + "5"
    ensures ValidInput(Some(JStr(kind)), Some(JStr(fraction)))
    ensures !ValidInput(Some(JStr(kind)), Some(JStr(negative)))
  {
    NumberOfFractionExample(fraction);
    NumberOfNegativeExample(negative);
  }

  // ----------------------------------------------------- bracket extraction

  /** `content.match(/\[[\s\S]*\]/)`: the leftmost match starts at the first
      '[' and, the star being greedy, ends at the last ']' of the text; there
      is none when no ']' follows the first '['. */
  function BracketSpan(content: string): (r: Option<string>)
    ensures r.Some? <==> exists i, j :: 0 <= i < j < |content| && content[i] == '[' && content[j] == ']'
    ensures r.Some? ==>
      exists a, b :: 0 <= a < b < |content| && r.value == content[a..b + 1]
        && content[a] == '[' && content[b] == ']'
        && '[' !in content[..a] && forall k :: b < k < |content| ==> content[k] != ']'
  {
    if '[' in content then
      var a := FirstIndex(content, '[');
      if ']' in content[a + 1..] then
        var b := LastIndex(content, ']');
        assert b > a by {
          var j :| 0 <= j < |content[a + 1..]| && content[a + 1..][j] == ']';
          assert content[a + 1 + j] == ']';
        }
        Some(content[a..b + 1])
      else
        assert forall i, j :: 0 <= i < j < |content| && content[i] == '[' ==> content[j] != ']' by {
          forall i, j | 0 <= i < j < |content| && content[i] == '[' ensures content[j] != ']' {
            assert content[a + 1..][j - a - 1] == content[j];
          }
        }
        None
    else
      None
  }

  /** The span runs to the last ']', past any ']' in between. */
  lemma GreedySpan()
    ensures BracketSpan("x[1]y]z") == Some("[1]y]")
  {
    var s := "x[1]y]z";
    assert s[1] == '[' && s[5] == ']' && s[6] == 'z';
    assert s[1..6] == "[1]y]";
  }

  // ------------------------------------------------------ question filter

  /** The test of `parsed.filter(...)` on a non-null entry: truthy question,
      truthy array of options, truthy answer found among the options. */
  predicate Keeps(q: JsonValue) {
    var opts := Get(q, "options");
    var answer := Get(q, "correct_answer");
    && Truthy(Get(q, "question"))
    && Truthy(opts)
    && IsArray(opts)
    && Truthy(answer)
    && Includes(opts.value.items, answer.value)
  }

  /** `parsed.filter(...)`: every entry is examined, so a `null` anywhere
      throws (`q.question` of `null`); otherwise the passing entries, in
      order. */
  function Filter(items: seq<JsonValue>): (r: Outcome<seq<JsonValue>>)
    ensures r.Threw? <==> JNull in items
    ensures r.Returned? ==> |r.value| <= |items|
    ensures r.Returned? ==> forall q :: q in r.value <==> q in items && Keeps(q)
  {
    if items == [] then Returned([])
    else
      var rest := Filter(items[1..]);
      assert forall q :: q in items <==> q == items[0] || q in items[1..];
      if items[0] == JNull || rest.Threw? then Threw
      else if Keeps(items[0]) then Returned([items[0]] + rest.value)
      else rest
  }

  /** The filter keeps order: filtering a concatenation filters each part. */
  lemma {:induction false} FilterAppend(a: seq<JsonValue>, b: seq<JsonValue>)
    requires JNull !in a && JNull !in b
    ensures Filter(a + b) == Returned(Filter(a).value + Filter(b).value)
  {
    if a == [] {
      assert a + b == b && Filter(a) == Returned([]);
      var y := Filter(b).value;
      assert Filter(b) == Returned(y) && [] + y == y;
    } else {
      assert (a + b)[0] == a[0] && (a + b)[1..] == a[1..] + b;
      assert JNull !in a[1..];
      FilterAppend(a[1..], b);
      var x, y := Filter(a[1..]).value, Filter(b).value;
      assert [a[0]] + (x + y) == ([a[0]] + x) + y;
    }
  }

  /** A list whose entries all pass comes back unchanged. */
  lemma {:induction false} FilterAllPass(items: seq<JsonValue>)
    requires forall j :: 0 <= j < |items| ==> items[j] != JNull && Keeps(items[j])
    ensures Filter(items) == Returned(items)
  {
    if items != [] {
      FilterAllPass(items[1..]);
      assert [items[0]] + items[1..] == items;
    }
  }

  /** Filtering twice is filtering once. */
  lemma FilterIdempotent(items: seq<JsonValue>)
    requires JNull !in items
    ensures Filter(Filter(items).value) == Filter(items)
  {
    var kept := Filter(items).value;
    forall j | 0 <= j < |kept| ensures kept[j] != JNull && Keeps(kept[j]) {
      assert kept[j] in kept;
    }
    FilterAllPass(kept);
  }

  /** `content` → questions along the path both servers share: the bracket
      span, `JSON.parse` (`parse`, None when it throws), the array test and
      the filter. None: one of them failed, and the caller falls back. */
  function Extract(content: string, parse: string -> Option<JsonValue>): (r: Option<seq<JsonValue>>)
    ensures r.Some? ==> forall q :: q in r.value ==> q != JNull && Keeps(q)
    ensures r.Some? <==>
      BracketSpan(content).Some? && parse(BracketSpan(content).value).Some?
      && parse(BracketSpan(content).value).value.JArr?
      && JNull !in parse(BracketSpan(content).value).value.items
  {
    var span := BracketSpan(content);
    if span.None? then None
    else
      var parsed := parse(span.value);
      if parsed.None? || !parsed.value.JArr? then None
      else
        var kept := Filter(parsed.value.items);
        if kept.Threw? then None else Some(kept.value)
  }

  /** A well-formed reply yields exactly the questions it lists, in order,
      when they all pass. */
  lemma ExtractWellFormed(content: string, parse: string -> Option<JsonValue>, items: seq<JsonValue>)
    requires BracketSpan(content).Some? && parse(BracketSpan(content).value) == Some(JArr(items))
    requires forall j :: 0 <= j < |items| ==> items[j] != JNull && Keeps(items[j])
    ensures Extract(content, parse) == Some(items)
  {
    FilterAllPass(items);
  }

  /** An encoded question passes the filter exactly when its question and
      answer are not empty and its answer is one of its options. */
  lemma KeepsEncoded(q: Question)
    ensures Keeps(QuestionToJson(q)) <==> q.question != "" && q.correctAnswer != "" && q.correctAnswer in q.options
  {
    var opts := StringsToJson(q.options);
    IncludesString(opts, q.correctAnswer);
    StringsToJsonHas(q.options, q.correctAnswer);
  }

  /** Encoded questions never hold `null`, and they all pass when each one
      does. */
  lemma EncodedAllPass(qs: seq<Question>)
    requires forall k :: 0 <= k < |qs| ==> qs[k].question != "" && qs[k].correctAnswer != "" && qs[k].correctAnswer in qs[k].options
    ensures forall q :: q in QuestionsToJson(qs) ==> q != JNull && Keeps(q)
  {
    var js := QuestionsToJson(qs);
    forall q | q in js ensures q != JNull && Keeps(q) {
      var k :| 0 <= k < |js| && js[k] == q;
      KeepsEncoded(qs[k]);
    }
  }
}
