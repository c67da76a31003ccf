/** The page that switches between upload, quiz and results views and, on
    completion, records the attempt (client/src/pages/home.tsx). */
module Home {
  import opened Wrappers
  import opened QuizTypes
  import opened QuizUtils
  import opened BrowserStore
  import StorageUtils
  import ResultsSection

  datatype View = UploadView | QuizView | ResultsView

  /** `answers.reduce(...)` over the first `i` answers: one per index whose
      answer is exactly the question's `correct_answer` (a `null` answer
      never is). */
  function CountMatches(qs: seq<Question>, answers: seq<Option<string>>, i: nat): (n: nat)
    requires i <= |answers| && i <= |qs|
    ensures n <= i
  {
    if i == 0 then 0
    else CountMatches(qs, answers, i - 1) + (if answers[i - 1] == Some(qs[i - 1].correctAnswer) then 1 else 0)
  }

  /** One step of the results screen's pass moves its correct count exactly
      as the reduce moves its accumulator. */
  lemma StepCorrectCount(qs: seq<Question>, answers: seq<Option<string>>, topicOf: string -> Topic, i: nat)
    requires 0 < i <= |qs|
    ensures ResultsSection.ScanUpTo(qs, answers, i, topicOf).correctCount
            == ResultsSection.ScanUpTo(qs, answers, i - 1, topicOf).correctCount
               + if i - 1 < |answers| && answers[i - 1] == Some(qs[i - 1].correctAnswer) then 1 else 0
  {
  }

  lemma {:induction false} CountMatchesScan(qs: seq<Question>, answers: seq<Option<string>>,
                                            topicOf: string -> Topic, i: nat)
    requires |answers| <= |qs| && i <= |qs|
    ensures ResultsSection.ScanUpTo(qs, answers, i, topicOf).correctCount
            == CountMatches(qs, answers, if i <= |answers| then i else |answers|)
  {
    if i > 0 {
      CountMatchesScan(qs, answers, topicOf, i - 1);
      StepCorrectCount(qs, answers, topicOf, i);
      if i <= |answers| {
        assert CountMatches(qs, answers, i) == CountMatches(qs, answers, i - 1)
          + if answers[i - 1] == Some(qs[i - 1].correctAnswer) then 1 else 0;
      }
    }
  }

  /** The score written to the history is the correct count the results
      screen shows for the same answers, whatever the categoriser. */
  lemma HistoryScoreMatchesResults(qs: seq<Question>, answers: seq<Option<string>>, topicOf: string -> Topic)
    requires |answers| <= |qs|
    ensures CountMatches(qs, answers, |answers|)
            == ResultsSection.ScanUpTo(qs, answers, |qs|, topicOf).correctCount
  {
    CountMatchesScan(qs, answers, topicOf, |qs|);
  }

  /** `quizData.title || "Quiz <date>"`. */
  function TitleOf(d: QuizData, today: string): (t: string)
    ensures d.title.Some? && d.title.value != "" ==> t == d.title.value
    ensures d.title.None? || d.title == Some("") ==> t == "Quiz " + today
  {
    if d.title.Some? && d.title.value != "" then d.title.value else "Quiz " + today
  }

  /** The history entry of one completion. */
  function HistoryItem(d: QuizData, answers: seq<Option<string>>, id: string, now: int, today: string): QuizResult
    requires |answers| <= |d.data|
  {
    QuizResult(id, TitleOf(d, today), CountMatches(d.data, answers, |answers|), |d.data|, now)
  }

  /** `quizzes[findIndex(id)].attempts += 1`, the list as it is when no quiz
      has the id. */
  function Bumped(qs: seq<StoredQuiz>, id: string): seq<StoredQuiz> {
    var i := StorageUtils.FindById(qs, id);
    if i.None? then qs else qs[i.value := qs[i.value].(attempts := qs[i.value].attempts + 1)]
  }

  /** Only the first quiz with the id changes, and only its counter, by
      exactly one; a list without the id is unchanged. */
  lemma BumpedSpec(qs: seq<StoredQuiz>, id: string)
    ensures |Bumped(qs, id)| == |qs|
    ensures (forall j :: 0 <= j < |qs| ==> qs[j].id != id) ==> Bumped(qs, id) == qs
    ensures forall j :: 0 <= j < |qs| && qs[j].id == id && (forall k :: 0 <= k < j ==> qs[k].id != id) ==>
      Bumped(qs, id)[j] == qs[j].(attempts := qs[j].attempts + 1)
      && forall k :: 0 <= k < |qs| && k != j ==> Bumped(qs, id)[k] == qs[k]
  {
  }

  /** `!currentQuizId`. */
  predicate NoQuizId(id: Option<string>) {
    id.None? || id.value == ""
  }

  class HomePage {
    const storage: LocalStorage
    var view: View
    var quizData: Option<QuizData>
    var userAnswers: seq<Option<string>>
    var currentQuizId: Option<string>

    constructor(storage: LocalStorage)
      ensures this.storage == storage
      ensures view == UploadView && quizData == None && userAnswers == [] && currentQuizId == None
    {
      this.storage := storage;
      view := UploadView;
      quizData := None;
      userAnswers := [];
      currentQuizId := None;
    }

    /** `handleQuizStart`: an empty id is kept as no id. */
    method QuizStart(data: QuizData, quizId: Option<string>)
      modifies this
      ensures view == QuizView && quizData == Some(data) && userAnswers == old(userAnswers)
      ensures currentQuizId == if quizId.Some? && quizId.value != "" then quizId else None
      ensures !NoQuizId(currentQuizId) <==> quizId.Some? && quizId.value != ""
    {
      quizData := Some(data);
      currentQuizId := if quizId.Some? && quizId.value != "" then quizId else None;
      view := QuizView;
    }

    /** `handleQuizComplete`: show the results, then append a history item
        and either save the quiz as new (attempts 1, adopting its id) or
        bump the attempts of the saved quiz with the current id. `historyId`
        and `newQuizId` stand for `nanoid()`, `now` and `today` for the
        clock. `ok` is false when the handler throws: an answer list longer
        than the quiz (`quizData.data[idx]` is undefined), a blocked store,
        or a key whose text `JSON.parse` rejects; the writes done before
        the throw stay. */
    method QuizComplete(answers: seq<Option<string>>, historyId: string, newQuizId: string,
                        now: int, today: string) returns (ok: bool)
      modifies this, storage
      ensures view == ResultsView && userAnswers == answers && quizData == old(quizData)
      ensures storage.VisitorKeys() == old(storage.VisitorKeys())
      ensures old(quizData).None? ==>
        ok && storage.QuizKeys() == old(storage.QuizKeys()) && currentQuizId == old(currentQuizId)
      ensures old(quizData).Some? ==>
        var d := old(quizData).value;
        var historyWritten := |answers| <= |d.data| && !storage.blocked && !old(storage.quizHistory).Corrupt?;
        && (ok <==> historyWritten && !old(storage.savedQuizzes).Corrupt?)
        && (historyWritten ==>
              storage.quizHistory == Holds(old(ListOf(storage.quizHistory)) + [HistoryItem(d, answers, historyId, now, today)]))
        && (!historyWritten ==> storage.quizHistory == old(storage.quizHistory))
        && (ok && NoQuizId(old(currentQuizId)) ==>
              storage.savedQuizzes == Holds(old(ListOf(storage.savedQuizzes)) + [StoredQuiz(newQuizId, TitleOf(d, today), d.data, now, 1)])
              && currentQuizId == Some(newQuizId))
        && (ok && !NoQuizId(old(currentQuizId)) ==>
              var before := old(ListOf(storage.savedQuizzes));
              (if StorageUtils.FindById(before, old(currentQuizId).value).None?
               then storage.savedQuizzes == old(storage.savedQuizzes)
               else storage.savedQuizzes == Holds(Bumped(before, old(currentQuizId).value)))
              && currentQuizId == old(currentQuizId))
        && (!ok ==> storage.savedQuizzes == old(storage.savedQuizzes) && currentQuizId == old(currentQuizId))
    {
      userAnswers := answers;
      view := ResultsView;
      if quizData.None? {
        return true;
      }
      var d := quizData.value;
      if |answers| > |d.data| {
        return false;
      }
      var item := HistoryItem(d, answers, historyId, now, today);
      if storage.blocked || storage.quizHistory.Corrupt? {
        return false;
      }
      storage.quizHistory := Holds(ListOf(storage.quizHistory) + [item]);
      if storage.savedQuizzes.Corrupt? {
        return false;
      }
      var quizzes := ListOf(storage.savedQuizzes);
      if NoQuizId(currentQuizId) {
        storage.savedQuizzes := Holds(quizzes + [StoredQuiz(newQuizId, TitleOf(d, today), d.data, now, 1)]);
        currentQuizId := Some(newQuizId);
      } else {
        var index := StorageUtils.FindById(quizzes, currentQuizId.value);
        if index.Some? {
          storage.savedQuizzes := Holds(Bumped(quizzes, currentQuizId.value));
        }
      }
      ok := true;
    }

    /** `handleRestart`. */
    method Restart()
      modifies this
      ensures view == UploadView && quizData == None && userAnswers == [] && currentQuizId == None
    {
      view := UploadView;
      quizData := None;
      userAnswers := [];
      currentQuizId := None;
    }
  }
}
