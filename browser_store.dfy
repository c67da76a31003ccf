/** The browser's `localStorage` as the client uses it: two list-valued keys
    (`savedQuizzes`, `quizHistory`) and the three text keys of the visitor
    counter. */
module BrowserStore {
  import opened Wrappers
  import opened QuizTypes

  /** What a list-valued key holds: nothing (a missing key or the falsy text
      ""), text that `JSON.parse` rejects, or a list of records. */
  datatype Cell<T> = Absent | Corrupt | Holds(list: seq<T>)

  /** `stored ? JSON.parse(stored) : []` with a failed parse caught and
      replaced by `[]`. */
  function ListOf<T>(c: Cell<T>): seq<T> {
    if c.Holds? then c.list else []
  }

  class LocalStorage {
    /** Every access throws (storage disabled by the browser). */
    const blocked: bool
    var savedQuizzes: Cell<StoredQuiz>
    var quizHistory: Cell<QuizResult>
    /** `dotquiz_visitor_id`, `dotquiz_visitor_count`, `dotquiz_last_visit`. */
    var visitorId: Option<string>
    var visitorCount: Option<string>
    var lastVisit: Option<string>

    constructor(blocked: bool)
      ensures this.blocked == blocked
      ensures savedQuizzes == Absent && quizHistory == Absent
      ensures visitorId == None && visitorCount == None && lastVisit == None
    {
      this.blocked := blocked;
      savedQuizzes := Absent;
      quizHistory := Absent;
      visitorId := None;
      visitorCount := None;
      lastVisit := None;
    }

    /** The two quiz keys together. */
    function QuizKeys(): (Cell<StoredQuiz>, Cell<QuizResult>)
      reads this
    {
      (savedQuizzes, quizHistory)
    }

    /** The three visitor-counter keys together. */
    function VisitorKeys(): (Option<string>, Option<string>, Option<string>)
      reads this
    {
      (visitorId, visitorCount, lastVisit)
    }
  }
}
