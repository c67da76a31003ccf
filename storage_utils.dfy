/** The browser-side quiz list and history helpers
    (client/src/lib/storage-utils.ts). Every helper catches its own errors:
    on a blocked store reads give `[]` and writes are lost. */
module StorageUtils {
  import opened Wrappers
  import opened QuizTypes
  import opened BrowserStore

  /** What `getSavedQuizzes` returns. */
  function Saved(ls: LocalStorage): seq<StoredQuiz>
    reads ls
  {
    if ls.blocked then [] else ListOf(ls.savedQuizzes)
  }

  /** What `getHistory` returns. */
  function History(ls: LocalStorage): seq<QuizResult>
    reads ls
  {
    if ls.blocked then [] else ListOf(ls.quizHistory)
  }

  // ------------------------------------------------------ list functions

  /** `quizzes.findIndex(q => q.id === id)`, None for -1. */
  function FindById(qs: seq<StoredQuiz>, id: string): (r: Option<nat>)
    ensures r.Some? ==> r.value < |qs| && qs[r.value].id == id
    ensures r.Some? ==> forall j :: 0 <= j < r.value ==> qs[j].id != id
    ensures r.None? <==> forall j :: 0 <= j < |qs| ==> qs[j].id != id
  {
    if qs == [] then None
    else if qs[0].id == id then Some(0)
    else
      var r := FindById(qs[1..], id);
      assert forall j :: 1 <= j < |qs| ==> qs[j] == qs[1..][j - 1];
      if r.None? then None else Some(r.value + 1)
  }

  /** The fields of a `Partial<StoredQuiz>`; None for a field it lacks. */
  datatype QuizPatch = QuizPatch(id: Option<string>, title: Option<string>,
                                 data: Option<seq<Question>>, createdAt: Option<int>,
                                 attempts: Option<int>)

  /** `{ ...q, ...p }`. */
  function ApplyPatch(q: StoredQuiz, p: QuizPatch): StoredQuiz {
    StoredQuiz(if p.id.Some? then p.id.value else q.id,
               if p.title.Some? then p.title.value else q.title,
               if p.data.Some? then p.data.value else q.data,
               if p.createdAt.Some? then p.createdAt.value else q.createdAt,
               if p.attempts.Some? then p.attempts.value else q.attempts)
  }

  /** The empty patch changes nothing, and a patch applied twice is the
      patch applied once: fields the updates lack keep their value. */
  lemma PatchLaws(q: StoredQuiz, p: QuizPatch)
    ensures ApplyPatch(q, QuizPatch(None, None, None, None, None)) == q
    ensures ApplyPatch(ApplyPatch(q, p), p) == ApplyPatch(q, p)
    ensures p.title.None? ==> ApplyPatch(q, p).title == q.title
    ensures p.attempts == Some(q.attempts + 1) ==> ApplyPatch(q, p).attempts == q.attempts + 1
  {
  }

  /** `quizzes.filter(q => q.id !== id)`. */
  function RemoveId(qs: seq<StoredQuiz>, id: string): (r: seq<StoredQuiz>)
    ensures |r| <= |qs|
    ensures forall x :: x in r <==> x in qs && x.id != id
  {
    if qs == [] then []
    else if qs[0].id == id then RemoveId(qs[1..], id)
    else [qs[0]] + RemoveId(qs[1..], id)
  }

  /** Filtering distributes over concatenation, so the kept quizzes stay in
      their order. */
  lemma {:induction false} RemoveIdAppend(a: seq<StoredQuiz>, b: seq<StoredQuiz>, id: string)
    ensures RemoveId(a + b, id) == RemoveId(a, id) + RemoveId(b, id)
  {
    if a != [] {
      assert (a + b)[1..] == a[1..] + b;
      RemoveIdAppend(a[1..], b, id);
    } else {
      assert a + b == b;
    }
  }

  /** Deleting twice is deleting once. */
  lemma {:induction false} RemoveIdIdempotent(qs: seq<StoredQuiz>, id: string)
    ensures RemoveId(RemoveId(qs, id), id) == RemoveId(qs, id)
  {
    if qs != [] {
      RemoveIdIdempotent(qs[1..], id);
      if qs[0].id != id {
        assert ([qs[0]] + RemoveId(qs[1..], id))[1..] == RemoveId(qs[1..], id);
      }
    }
  }

  /** A list without the id is left as it is. */
  lemma {:induction false} RemoveIdAbsent(qs: seq<StoredQuiz>, id: string)
    requires forall j :: 0 <= j < |qs| ==> qs[j].id != id
    ensures RemoveId(qs, id) == qs
  {
    if qs != [] {
      RemoveIdAbsent(qs[1..], id);
      assert [qs[0]] + qs[1..] == qs;
    }
  }

  /** Saving a quiz and then deleting its id gives the list the delete
      alone would have given. */
  lemma DeleteAfterSave(qs: seq<StoredQuiz>, q: StoredQuiz)
    ensures RemoveId(qs + [q], q.id) == RemoveId(qs, q.id)
  {
    RemoveIdAppend(qs, [q], q.id);
    assert RemoveId([q], q.id) == [];
  }

  // ------------------------------------------------------------ helpers

  method GetSavedQuizzes(ls: LocalStorage) returns (qs: seq<StoredQuiz>)
    ensures qs == Saved(ls)
    ensures ls.savedQuizzes.Holds? && !ls.blocked ==> qs == ls.savedQuizzes.list
    ensures !ls.savedQuizzes.Holds? ==> qs == []
  {
    if ls.blocked || !ls.savedQuizzes.Holds? {
      qs := [];
    } else {
      qs := ls.savedQuizzes.list;
    }
  }

  /** `saveQuiz`: the list read (a corrupt key counts as empty), one quiz
      pushed at the end, the list written back. */
  method SaveQuiz(ls: LocalStorage, q: StoredQuiz)
    modifies ls
    ensures ls.blocked ==> ls.QuizKeys() == old(ls.QuizKeys())
    ensures !ls.blocked ==> ls.savedQuizzes == Holds(old(Saved(ls)) + [q])
    ensures ls.quizHistory == old(ls.quizHistory) && ls.VisitorKeys() == old(ls.VisitorKeys())
  {
    var quizzes := GetSavedQuizzes(ls);
    quizzes := quizzes + [q];
    if !ls.blocked {
      ls.savedQuizzes := Holds(quizzes);
    }
  }

  /** `updateQuiz`: the first quiz with the id gets the updates merged in;
      with no such quiz nothing is written. */
  method UpdateQuiz(ls: LocalStorage, id: string, updates: QuizPatch)
    modifies ls
    ensures var i := FindById(old(Saved(ls)), id);
      if ls.blocked || i.None? then ls.QuizKeys() == old(ls.QuizKeys())
      else ls.savedQuizzes == Holds(old(Saved(ls))[i.value := ApplyPatch(old(Saved(ls))[i.value], updates)])
    ensures ls.quizHistory == old(ls.quizHistory) && ls.VisitorKeys() == old(ls.VisitorKeys())
  {
    var quizzes := GetSavedQuizzes(ls);
    var index := FindById(quizzes, id);
    if index.Some? {
      quizzes := quizzes[index.value := ApplyPatch(quizzes[index.value], updates)];
      if !ls.blocked {
        ls.savedQuizzes := Holds(quizzes);
      }
    }
  }

  /** `deleteQuiz`: every quiz with the id removed, the rest kept in order. */
  method DeleteQuiz(ls: LocalStorage, id: string)
    modifies ls
    ensures ls.blocked ==> ls.QuizKeys() == old(ls.QuizKeys())
    ensures !ls.blocked ==> ls.savedQuizzes == Holds(RemoveId(old(Saved(ls)), id))
    ensures ls.quizHistory == old(ls.quizHistory) && ls.VisitorKeys() == old(ls.VisitorKeys())
  {
    var quizzes := GetSavedQuizzes(ls);
    var filtered := RemoveId(quizzes, id);
    if !ls.blocked {
      ls.savedQuizzes := Holds(filtered);
    }
  }

  method GetHistory(ls: LocalStorage) returns (h: seq<QuizResult>)
    ensures h == History(ls)
    ensures !ls.quizHistory.Holds? ==> h == []
  {
    if ls.blocked || !ls.quizHistory.Holds? {
      h := [];
    } else {
      h := ls.quizHistory.list;
    }
  }

  /** `addToHistory`: one item appended. */
  method AddToHistory(ls: LocalStorage, item: QuizResult)
    modifies ls
    ensures ls.blocked ==> ls.QuizKeys() == old(ls.QuizKeys())
    ensures !ls.blocked ==> ls.quizHistory == Holds(old(History(ls)) + [item])
    ensures ls.savedQuizzes == old(ls.savedQuizzes) && ls.VisitorKeys() == old(ls.VisitorKeys())
  {
    var history := GetHistory(ls);
    history := history + [item];
    if !ls.blocked {
      ls.quizHistory := Holds(history);
    }
  }

  /** `clearHistory`: the key holds the empty list. */
  method ClearHistory(ls: LocalStorage)
    modifies ls
    ensures ls.blocked ==> ls.QuizKeys() == old(ls.QuizKeys())
    ensures !ls.blocked ==> ls.quizHistory == Holds([]) && History(ls) == []
    ensures ls.savedQuizzes == old(ls.savedQuizzes) && ls.VisitorKeys() == old(ls.VisitorKeys())
  {
    if !ls.blocked {
      ls.quizHistory := Holds([]);
    }
  }

  /** `exportQuizzes`: the saved list, which `JSON.stringify` then writes
      out (serialising a parsed list cannot fail). */
  method ExportQuizzes(ls: LocalStorage) returns (exported: seq<StoredQuiz>)
    ensures exported == Saved(ls)
  {
    exported := GetSavedQuizzes(ls);
  }

  /** What `JSON.parse(jsonData)` gives `importQuizzes`. */
  datatype Imported = NotJson | NotArray | Items(records: seq<StoredQuiz>)

  /** `importQuizzes`: an array is appended after the existing quizzes,
      duplicates and all; anything else is refused and nothing is written. */
  method ImportQuizzes(ls: LocalStorage, parsed: Imported) returns (ok: bool)
    modifies ls
    ensures ok <==> parsed.Items? && !ls.blocked
    ensures ok ==> ls.savedQuizzes == Holds(old(Saved(ls)) + parsed.records)
    ensures !ok ==> ls.QuizKeys() == old(ls.QuizKeys())
    ensures ls.quizHistory == old(ls.quizHistory) && ls.VisitorKeys() == old(ls.VisitorKeys())
  {
    if !parsed.Items? {
      return false;
    }
    var existing := GetSavedQuizzes(ls);
    var merged := existing + parsed.records;
    if ls.blocked {
      return false;
    }
    ls.savedQuizzes := Holds(merged);
    ok := true;
  }
}
