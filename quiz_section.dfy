/** Question navigation while a quiz is taken
    (client/src/components/quiz/QuizSection.tsx). */
module QuizSection {
  import opened Wrappers

  /** The per-session state of the quiz screen. */
  class Session {
    /** `data.data.length`. */
    const totalQuestions: nat
    var currentIndex: nat
    /** One slot per question; None is `null` (not answered). */
    var answers: seq<Option<string>>
    var showSubmitModal: bool

    /** The index stays on a question and there is one slot per question. */
    predicate Valid()
      reads this
    {
      totalQuestions >= 1 && |answers| == totalQuestions && currentIndex < totalQuestions
    }

    /** The screen renders `data.data[currentIndex]` at once, so a quiz
        without questions cannot be shown; the answers start as `n` nulls. */
    constructor(n: nat)
      requires n >= 1
      ensures Valid()
      ensures totalQuestions == n && currentIndex == 0 && !showSubmitModal
      ensures answers == seq(n, _ => None)
    {
      totalQuestions := n;
      currentIndex := 0;
      answers := seq(n, _ => None);
      showSubmitModal := false;
    }

    /** `handleOptionSelect`: records the choice for the current question
        only, then moves on unless this is the last question. The 300 ms
        delay is taken as immediate. */
    method SelectOption(option: string)
      requires Valid()
      modifies this
      ensures Valid()
      ensures answers == old(answers)[old(currentIndex) := Some(option)]
      ensures currentIndex == if old(currentIndex) < totalQuestions - 1 then old(currentIndex) + 1 else old(currentIndex)
      ensures showSubmitModal == old(showSubmitModal)
    {
      answers := answers[currentIndex := Some(option)];
      if currentIndex < totalQuestions - 1 {
        currentIndex := currentIndex + 1;
      }
    }

    /** `handleNext`: one step forward, or on the last question the submit
        dialog opens and the index stays. */
    method Next()
      requires Valid()
      modifies this
      ensures Valid()
      ensures old(currentIndex) < totalQuestions - 1 ==>
        currentIndex == old(currentIndex) + 1 && showSubmitModal == old(showSubmitModal)
      ensures old(currentIndex) == totalQuestions - 1 ==> currentIndex == old(currentIndex) && showSubmitModal
      ensures answers == old(answers)
    {
      if currentIndex < totalQuestions - 1 {
        currentIndex := currentIndex + 1;
      } else if currentIndex == totalQuestions - 1 {
        showSubmitModal := true;
      }
    }

    /** `handlePrev`: one step back, never below the first question. */
    method Prev()
      requires Valid()
      modifies this
      ensures Valid()
      ensures currentIndex == if old(currentIndex) > 0 then old(currentIndex) - 1 else 0
      ensures answers == old(answers) && showSubmitModal == old(showSubmitModal)
    {
      if currentIndex > 0 {
        currentIndex := currentIndex - 1;
      }
    }

    /** The keyboard handler: ArrowLeft goes back, ArrowRight forward, any
        other key does nothing. */
    method KeyDown(key: string)
      requires Valid()
      modifies this
      ensures Valid()
      ensures key == "ArrowLeft" ==> currentIndex == if old(currentIndex) > 0 then old(currentIndex) - 1 else 0
      ensures key == "ArrowRight" && old(currentIndex) < totalQuestions - 1 ==> currentIndex == old(currentIndex) + 1
      ensures key == "ArrowRight" && old(currentIndex) == totalQuestions - 1 ==> currentIndex == old(currentIndex) && showSubmitModal
      ensures key != "ArrowLeft" && key != "ArrowRight" ==> currentIndex == old(currentIndex) && showSubmitModal == old(showSubmitModal)
      ensures answers == old(answers)
    {
      if key == "ArrowLeft" {
        Prev();
      } else if key == "ArrowRight" {
        Next();
      }
    }

    /** `handleSubmitConfirm`: closes the dialog and hands the answers, as
        they are, to `onComplete`. */
    method SubmitConfirm() returns (submitted: seq<Option<string>>)
      requires Valid()
      modifies this
      ensures Valid()
      ensures !showSubmitModal && submitted == answers
      ensures answers == old(answers) && currentIndex == old(currentIndex)
      ensures |submitted| == totalQuestions
    {
      showSubmitModal := false;
      submitted := answers;
    }
  }

  /** `String.fromCharCode(65 + idx)`: "A" for the first option, then
      consecutive letters. */
  function OptionLabel(idx: nat): (c: char)
    requires 65 + idx < 0xD800
    ensures c as int == 'A' as int + idx
  {
    (65 + idx) as char
  }

  /** Distinct options get distinct labels; the first four are A to D. */
  lemma OptionLabelsDistinct(i: nat, j: nat)
    requires 65 + i < 0xD800 && 65 + j < 0xD800
    ensures OptionLabel(i) == OptionLabel(j) <==> i == j
    ensures OptionLabel(0) == 'A' && OptionLabel(3) == 'D'
  {
  }
}
