/** The cloud-quiz panel (client/src/components/quiz/JsonQuizzesSection.tsx):
    the strict quiz validator, the file and save guards, the title search
    and the password-gated delete. */
module JsonQuizzesSection {
  import opened Wrappers
  import opened Text
  import opened Json
  import opened QuizTypes

  // ---------------------------------------------------------- validation

  /** The four per-question rules, in the order they are checked. */
  datatype Rule = MissingQuestion | TooFewOptions | MissingCorrectAnswer | AnswerNotInOptions

  /** Why a document is refused; `n` is the 1-based question number. */
  datatype QuizError = NoDataArray | NoQuestions | QuestionFails(n: nat, rule: Rule)

  datatype Validation = Valid | Invalid(error: QuizError)

  /** The toast text for each refusal. */
  function Message(e: QuizError): string {
    match e
    case NoDataArray => "JSON must have a 'data' array at root level"
    case NoQuestions => "Quiz must have at least one question"
    case QuestionFails(n, rule) =>
      "Question " + NatToString(n) + ": " +
      match rule
      case MissingQuestion => "missing 'question' field"
      case TooFewOptions => "must have at least 2 options"
      case MissingCorrectAnswer => "missing 'correct_answer' field"
      case AnswerNotInOptions => "correct_answer must be one of the options"
  }

  /** The first rule question `q` breaks, None if it passes; reading a
      field of a `null` entry throws. */
  function QuestionCheck(q: JsonValue): Outcome<Option<Rule>> {
    if q == JNull then Threw
    else if !Truthy(Get(q, "question")) then Returned(Some(MissingQuestion))
    else
      var opts := Get(q, "options");
      if !IsArray(opts) || |opts.value.items| < 2 then Returned(Some(TooFewOptions))
      else
        var answer := Get(q, "correct_answer");
        if !Truthy(answer) then Returned(Some(MissingCorrectAnswer))
        else if !Includes(opts.value.items, answer.value) then Returned(Some(AnswerNotInOptions))
        else Returned(None)
  }

  predicate Passes(q: JsonValue) { QuestionCheck(q) == Returned(None) }

  /** The `for` loop from question `i` on, with its early returns. */
  function CheckFrom(items: seq<JsonValue>, i: nat): Outcome<Validation>
    decreases |items| - i
  {
    if i >= |items| then Returned(Valid)
    else match QuestionCheck(items[i])
      case Threw => Threw
      case Returned(Some(rule)) => Returned(Invalid(QuestionFails(i + 1, rule)))
      case Returned(None) => CheckFrom(items, i + 1)
  }

  /** `validateJSON`. `data.data` on a `null` document throws. */
  function ValidateJson(doc: JsonValue): Outcome<Validation> {
    if doc == JNull then Threw
    else
      var d := Get(doc, "data");
      if !Truthy(d) || !IsArray(d) then Returned(Invalid(NoDataArray))
      else if |d.value.items| == 0 then Returned(Invalid(NoQuestions))
      else CheckFrom(d.value.items, 0)
  }

  /** The questions of a document whose `data` is an array. */
  function DataItems(doc: JsonValue): seq<JsonValue> {
    var d := Get(doc, "data");
    if IsArray(d) then d.value.items else []
  }

  lemma {:induction false} CheckFromSpec(items: seq<JsonValue>, i: nat)
    requires i <= |items|
    ensures CheckFrom(items, i) == Returned(Valid) <==> forall j :: i <= j < |items| ==> Passes(items[j])
    ensures forall n: nat, r :: CheckFrom(items, i) == Returned(Invalid(QuestionFails(n, r))) ==>
      i < n <= |items| && QuestionCheck(items[n - 1]) == Returned(Some(r))
      && forall j :: i <= j < n - 1 ==> Passes(items[j])
    ensures CheckFrom(items, i).Returned? && CheckFrom(items, i).value.Invalid? ==>
      CheckFrom(items, i).value.error.QuestionFails?
    decreases |items| - i
  {
    if i < |items| && Passes(items[i]) {
      CheckFromSpec(items, i + 1);
    }
  }

  /** A document is valid exactly when it has a non-empty `data` array
      every entry of which passes all four rules. */
  lemma ValidIffAllPass(doc: JsonValue)
    ensures ValidateJson(doc) == Returned(Valid) <==>
      doc != JNull && IsArray(Get(doc, "data")) && |DataItems(doc)| > 0
      && forall j :: 0 <= j < |DataItems(doc)| ==> Passes(DataItems(doc)[j])
  {
    if doc != JNull && IsArray(Get(doc, "data")) {
      CheckFromSpec(DataItems(doc), 0);
    }
  }

  /** A refusal names the first failing question, 1-based, and the first
      rule it breaks; every earlier question passes. */
  lemma FirstFailureReported(doc: JsonValue, n: nat, r: Rule)
    requires ValidateJson(doc) == Returned(Invalid(QuestionFails(n, r)))
    ensures 1 <= n <= |DataItems(doc)|
    ensures QuestionCheck(DataItems(doc)[n - 1]) == Returned(Some(r))
    ensures forall j :: 0 <= j < n - 1 ==> Passes(DataItems(doc)[j])
  {
    CheckFromSpec(DataItems(doc), 0);
  }

  /** Rule order: a question with a truthy text and fewer than two options
      is reported for its options, whatever its answer is. */
  lemma TooFewOptionsFirst(q: JsonValue)
    requires q != JNull && Truthy(Get(q, "question"))
    requires !IsArray(Get(q, "options")) || |Get(q, "options").value.items| < 2
    ensures QuestionCheck(q) == Returned(Some(TooFewOptions))
  {
  }

  /** The one-option question whose answer is not an option fails with the
      options message for question 1. */
  lemma OneOptionExample()
    ensures ValidateJson(JObj(map["data" := JArr([JObj(map[
      "question" := JStr("Q"), "options" := JArr([JStr("A")]), "correct_answer" := JStr("B")])])]))
      == Returned(Invalid(QuestionFails(1, TooFewOptions)))
  {
  }

  /** Truthiness, not type: numbers pass where strings are expected, and
      an empty question text fails. */
  lemma TruthinessExamples()
    ensures Passes(JObj(map["question" := JNum(7.0), "options" := JArr([JNum(1.0), JNum(2.0)]),
                            "correct_answer" := JNum(1.0)]))
    ensures QuestionCheck(JObj(map["question" := JStr(""), "options" := JArr([JStr("A"), JStr("B")]),
                                   "correct_answer" := JStr("A")])) == Returned(Some(MissingQuestion))
  {
    var opts := [JNum(1.0), JNum(2.0)];
    assert SameValueZero(opts[0], JNum(1.0));
  }

  // ------------------------------------------------------- files, titles

  /** `file.type.includes("json") || file.name.endsWith(".json")`. */
  predicate AcceptsJsonFile(mimeType: string, name: string) {
    Contains(mimeType, "json") || EndsWith(name, ".json")
  }

  /** `name.replace(/\.json$/, "")`: one trailing ".json" removed. */
  function TitleFromFileName(name: string): (t: string)
    ensures EndsWith(name, ".json") ==> name == t + ".json"
    ensures !EndsWith(name, ".json") ==> t == name
  {
    if EndsWith(name, ".json") then name[..|name| - 5] else name
  }

  lemma TitleFromFileNameStripsOnce(base: string)
    ensures TitleFromFileName(base + ".json") == base
  {
    assert EndsWith(base + ".json", ".json");
  }

  // -------------------------------------------------------------- search

  /** `title.toLowerCase().includes(searchTerm.toLowerCase())`. */
  predicate MatchesSearch(q: CloudQuiz, term: string) {
    Contains(Lower(q.title), Lower(term))
  }

  /** The quizzes listed for a search term, in stored order. */
  function SearchQuizzes(quizzes: seq<CloudQuiz>, term: string): (r: seq<CloudQuiz>)
    ensures forall q :: q in r <==> q in quizzes && MatchesSearch(q, term)
    ensures |r| <= |quizzes|
  {
    if quizzes == [] then []
    else (if MatchesSearch(quizzes[0], term) then [quizzes[0]] else []) + SearchQuizzes(quizzes[1..], term)
  }

  /** The search keeps stored order: searching a concatenation searches
      each part. */
  lemma {:induction false} SearchAppend(a: seq<CloudQuiz>, b: seq<CloudQuiz>, term: string)
    ensures SearchQuizzes(a + b, term) == SearchQuizzes(a, term) + SearchQuizzes(b, term)
  {
    if a == [] {
      assert a + b == b;
    } else {
      assert (a + b)[0] == a[0] && (a + b)[1..] == a[1..] + b;
      SearchAppend(a[1..], b, term);
      var head := if MatchesSearch(a[0], term) then [a[0]] else [];
      assert head + (SearchQuizzes(a[1..], term) + SearchQuizzes(b, term))
          == (head + SearchQuizzes(a[1..], term)) + SearchQuizzes(b, term);
    }
  }

  /** An empty search term lists every quiz, in order. */
  lemma {:induction false} EmptySearchKeepsAll(quizzes: seq<CloudQuiz>)
    ensures SearchQuizzes(quizzes, "") == quizzes
  {
    if quizzes != [] {
      ContainsEmpty(Lower(quizzes[0].title));
      EmptySearchKeepsAll(quizzes[1..]);
      assert [quizzes[0]] + quizzes[1..] == quizzes;
    }
  }

  // ------------------------------------------------------------ the panel

  const DeletePassword: string := "Ansh123"

  /** What a save attempt ends in; `Posted` is the request to the server. */
  datatype SaveResult =
    | BlankJson
    | BlankTitle
    | UnparsableJson
    | Rejected(error: QuizError)
    | ValidatorThrew
    | Posted(title: string, quizData: JsonValue)

  /** The panel's editable state. The server round trips are parameters:
      whether the request succeeded. */
  class Panel {
    var jsonText: string
    var quizTitle: string
    var quizToDelete: Option<string>
    var deletePasswordInput: string
    var deleteModalOpen: bool
    var isLoading: bool

    constructor()
      ensures jsonText == "" && quizTitle == "" && quizToDelete == None
      ensures deletePasswordInput == "" && !deleteModalOpen && !isLoading
    {
      jsonText := "";
      quizTitle := "";
      quizToDelete := None;
      deletePasswordInput := "";
      deleteModalOpen := false;
      isLoading := false;
    }

    /** `processFile`: a JSON file whose content parses fills the editor and
        the title; anything else leaves both as they were. */
    method ProcessFile(mimeType: string, name: string, content: string, parsed: Option<JsonValue>)
      returns (loaded: bool)
      modifies this
      ensures loaded <==> AcceptsJsonFile(mimeType, name) && parsed.Some?
      ensures loaded ==> jsonText == content && quizTitle == TitleFromFileName(name)
      ensures !loaded ==> jsonText == old(jsonText) && quizTitle == old(quizTitle)
      ensures quizToDelete == old(quizToDelete) && deletePasswordInput == old(deletePasswordInput)
      ensures deleteModalOpen == old(deleteModalOpen) && isLoading == old(isLoading)
    {
      loaded := false;
      if !AcceptsJsonFile(mimeType, name) {
        return;
      }
      if parsed.Some? {
        jsonText := content;
        quizTitle := TitleFromFileName(name);
        loaded := true;
      }
    }

    /** `handleSaveQuiz`: the guards in order, then the POST with the
        trimmed title; on success the editor and the title are cleared.
        The two blank-input guards return before the `try`, so only the
        later outcomes reset the loading flag.
        `parsed` is `JSON.parse(jsonText)`, `serverOk` the response status. */
    method SaveQuiz(parsed: Option<JsonValue>, serverOk: bool) returns (result: SaveResult)
      modifies this
      ensures result == BlankJson <==> IsBlank(old(jsonText))
      ensures result == BlankTitle <==> !IsBlank(old(jsonText)) && IsBlank(old(quizTitle))
      ensures result.Posted? ==>
        !IsBlank(old(jsonText)) && !IsBlank(old(quizTitle)) && parsed == Some(result.quizData)
        && ValidateJson(result.quizData) == Returned(Valid) && result.title == Trim(old(quizTitle))
      ensures result.Posted? && serverOk ==> jsonText == "" && quizTitle == ""
      ensures !(result.Posted? && serverOk) ==> jsonText == old(jsonText) && quizTitle == old(quizTitle)
      ensures quizToDelete == old(quizToDelete) && deletePasswordInput == old(deletePasswordInput)
      ensures deleteModalOpen == old(deleteModalOpen)
      ensures result in {BlankJson, BlankTitle} ==> isLoading == old(isLoading)
      ensures result !in {BlankJson, BlankTitle} ==> !isLoading
    {
      if IsBlank(jsonText) {
        return BlankJson;
      }
      if IsBlank(quizTitle) {
        return BlankTitle;
      }
      if parsed.None? {
        isLoading := false;
        return UnparsableJson;
      }
      var validation := ValidateJson(parsed.value);
      if validation.Threw? {
        isLoading := false;
        return ValidatorThrew;
      }
      if validation.value.Invalid? {
        isLoading := false;
        return Rejected(validation.value.error);
      }
      isLoading := true;
      result := Posted(Trim(quizTitle), parsed.value);
      if serverOk {
        jsonText := "";
        quizTitle := "";
      }
      isLoading := false;
    }

    /** `handleDeleteQuiz`: opens the password dialog for one quiz. */
    method AskToDelete(quizId: string)
      modifies this
      ensures quizToDelete == Some(quizId) && deletePasswordInput == "" && deleteModalOpen
      ensures jsonText == old(jsonText) && quizTitle == old(quizTitle) && isLoading == old(isLoading)
    {
      quizToDelete := Some(quizId);
      deletePasswordInput := "";
      deleteModalOpen := true;
    }

    /** `confirmDeleteQuiz`: the DELETE request goes out (and its id is
        returned) only when the typed password is exactly the fixed one and
        a non-empty quiz id is pending; a successful request closes the
        dialog and clears the pending id and the password. */
    method ConfirmDelete(serverOk: bool) returns (requested: Option<string>)
      modifies this
      ensures requested.Some? <==>
        old(deletePasswordInput) == DeletePassword && old(quizToDelete).Some? && old(quizToDelete).value != ""
      ensures requested.Some? ==> requested == old(quizToDelete)
      ensures requested.Some? && serverOk ==>
        !deleteModalOpen && quizToDelete == None && deletePasswordInput == ""
      ensures !(requested.Some? && serverOk) ==>
        deleteModalOpen == old(deleteModalOpen) && quizToDelete == old(quizToDelete)
        && deletePasswordInput == old(deletePasswordInput)
      ensures jsonText == old(jsonText) && quizTitle == old(quizTitle)
      ensures requested.Some? ==> !isLoading
      ensures requested.None? ==> isLoading == old(isLoading)
    {
      if deletePasswordInput != DeletePassword {
        return None;
      }
      if quizToDelete.None? || quizToDelete.value == "" {
        return None;
      }
      isLoading := true;
      requested := quizToDelete;
      if serverOk {
        deleteModalOpen := false;
        quizToDelete := None;
        deletePasswordInput := "";
      }
      isLoading := false;
    }
  }
}
