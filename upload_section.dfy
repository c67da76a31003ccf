/** The paste-or-upload screen (client/src/components/quiz/UploadSection.tsx):
    the loosest quiz check and the two ways text reaches it. */
module UploadSection {
  import opened Wrappers
  import opened Text
  import opened Json
  import opened QuizTypes
  import JsonQuizzesSection

  /** `q.question && q.options && q.correct_answer` for a non-null entry. */
  predicate LooseOk(q: JsonValue) {
    Truthy(Get(q, "question")) && Truthy(Get(q, "options")) && Truthy(Get(q, "correct_answer"))
  }

  /** `items.every(...)`: stops at the first failing entry, so a `null`
      entry throws only if every entry before it passed. */
  function EveryLoose(items: seq<JsonValue>): Outcome<bool> {
    if items == [] then Returned(true)
    else if items[0] == JNull then Threw
    else if !LooseOk(items[0]) then Returned(false)
    else EveryLoose(items[1..])
  }

  datatype Decision = Start(quiz: JsonValue) | InvalidData | InvalidFormat

  /** `validateAndStart`: `onQuizStart` with the document, or exactly one
      of the two refusals. */
  function ValidateAndStart(doc: JsonValue): Outcome<Decision> {
    if doc == JNull then Threw
    else
      var d := Get(doc, "data");
      if Truthy(d) && IsArray(d) then
        match EveryLoose(d.value.items)
        case Threw => Threw
        case Returned(ok) => Returned(if ok then Start(doc) else InvalidData)
      else Returned(InvalidFormat)
  }

  lemma {:induction false} EveryLooseSpec(items: seq<JsonValue>)
    ensures EveryLoose(items) == Returned(true) <==>
      forall j :: 0 <= j < |items| ==> items[j] != JNull && LooseOk(items[j])
  {
    if items != [] && items[0] != JNull && LooseOk(items[0]) {
      EveryLooseSpec(items[1..]);
      assert forall j :: 1 <= j < |items| ==> items[j] == items[1..][j - 1];
    }
  }

  /** The loose check: a `data` array is required; beyond that, every
      entry needs truthy question, options and answer, and nothing more
      (no array, option-count or membership test; an empty array passes). */
  lemma StartIff(doc: JsonValue)
    ensures ValidateAndStart(doc) == Returned(Start(doc)) <==>
      doc != JNull && IsArray(Get(doc, "data"))
      && forall j :: 0 <= j < |Get(doc, "data").value.items| ==>
           Get(doc, "data").value.items[j] != JNull && LooseOk(Get(doc, "data").value.items[j])
    ensures ValidateAndStart(doc) == Returned(InvalidFormat) <==> doc != JNull && !IsArray(Get(doc, "data"))
  {
    if doc != JNull && IsArray(Get(doc, "data")) {
      EveryLooseSpec(Get(doc, "data").value.items);
    }
  }

  /** Anything the strict validator accepts starts a quiz here. */
  lemma StrictImpliesLoose(doc: JsonValue)
    requires JsonQuizzesSection.ValidateJson(doc) == Returned(JsonQuizzesSection.Valid)
    ensures ValidateAndStart(doc) == Returned(Start(doc))
  {
    JsonQuizzesSection.ValidIffAllPass(doc);
    var items := JsonQuizzesSection.DataItems(doc);
    forall j | 0 <= j < |items| ensures items[j] != JNull && LooseOk(items[j]) {
      assert JsonQuizzesSection.Passes(items[j]);
    }
    StartIff(doc);
  }

  /** The converse fails: an empty `data` array starts here but is refused
      by the strict validator. */
  lemma LooseAcceptsEmptyQuiz()
    ensures var doc := JObj(map["data" := JArr([])]);
      ValidateAndStart(doc) == Returned(Start(doc))
      && JsonQuizzesSection.ValidateJson(doc)
         == Returned(JsonQuizzesSection.Invalid(JsonQuizzesSection.NoQuestions))
  {
  }

  /** The check looks at truthiness only: a document whose entry has a
      number as its question, a string as its options and `true` as its
      answer starts a quiz, yet it does not have the fields of a question. */
  lemma LooseStartsUntyped(entry: JsonValue, doc: JsonValue)
    requires entry == JObj(map["question" := JNum(5.0), "options" := JStr("abc"), "correct_answer" := JBool(true)])
    requires doc == JObj(map["data" := JArr([entry])])
    ensures ValidateAndStart(doc) == Returned(Start(doc))
    ensures QuizDataOf(doc).None?
  {
    assert LooseOk(entry);
    assert QuestionOf(entry).None?;
    assert Get(doc, "data") == Some(JArr([entry]));
    assert [entry][0] == entry && [entry][1..] == [];
    assert EveryLoose([entry]) == Returned(true);
    assert QuestionsOf([entry]).None?;
  }

  /** What the user sees after loading text. */
  datatype LoadResult =
    | AskForJson          // "Please paste JSON or upload a file"
    | NotAJsonFile        // "Please upload a JSON file"
    | InvalidJson         // parse error, or the check threw
    | Checked(decision: Decision)

  /** The editor's text. */
  class Editor {
    var jsonText: string

    constructor()
      ensures jsonText == ""
    {
      jsonText := "";
    }

    /** `handleLoadQuiz`: blank text is refused before parsing; `parsed`
        is `JSON.parse(jsonText)`. The editor text is not changed. */
    method LoadQuiz(parsed: Option<JsonValue>) returns (r: LoadResult)
      ensures r == AskForJson <==> IsBlank(jsonText)
      ensures !IsBlank(jsonText) && parsed.Some? && ValidateAndStart(parsed.value).Returned? ==>
        r == Checked(ValidateAndStart(parsed.value).value)
      ensures !IsBlank(jsonText) && (parsed.None? || ValidateAndStart(parsed.value).Threw?) ==>
        r == InvalidJson
    {
      if IsBlank(jsonText) {
        return AskForJson;
      }
      if parsed.None? {
        return InvalidJson;
      }
      var outcome := ValidateAndStart(parsed.value);
      if outcome.Threw? {
        return InvalidJson;
      }
      r := Checked(outcome.value);
    }

    /** `processFile`: files that are not JSON by type or name are refused;
        a file that parses replaces the editor text before it is checked. */
    method ProcessFile(mimeType: string, name: string, content: string, parsed: Option<JsonValue>)
      returns (r: LoadResult)
      modifies this
      ensures r == NotAJsonFile <==> !JsonQuizzesSection.AcceptsJsonFile(mimeType, name)
      ensures JsonQuizzesSection.AcceptsJsonFile(mimeType, name) && parsed.Some? ==>
        jsonText == content
        && r == (if ValidateAndStart(parsed.value).Threw? then InvalidJson
                 else Checked(ValidateAndStart(parsed.value).value))
      ensures !(JsonQuizzesSection.AcceptsJsonFile(mimeType, name) && parsed.Some?) ==>
        jsonText == old(jsonText)
      ensures JsonQuizzesSection.AcceptsJsonFile(mimeType, name) && parsed.None? ==> r == InvalidJson
    {
      if !JsonQuizzesSection.AcceptsJsonFile(mimeType, name) {
        return NotAJsonFile;
      }
      if parsed.None? {
        return InvalidJson;
      }
      jsonText := content;
      var outcome := ValidateAndStart(parsed.value);
      if outcome.Threw? {
        return InvalidJson;
      }
      r := Checked(outcome.value);
    }
  }
}
