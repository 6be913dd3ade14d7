/**
 * The practice-session component: the index of the current question, the selected answer,
 * the feedback, the explanation shown and the loading flag, as its event handlers update
 * them.
 *
 * `handleSubmit` awaits the explanation request, so it is split at the `await`: `Submit` runs
 * up to the request and returns the query it sends; `ReceiveExplanation` runs when the answer
 * comes back. Other handlers may run in between.
 */
module Practice {
  import opened Wrappers

  /** The fields of a question the component reads. */
  datatype PracticeQuestion = PracticeQuestion(
    question: string,
    explanation: Option<string>,
    correctAnswer: string,
    options: seq<string>)

  datatype Feedback = Correct | Incorrect

  /** What `getExplanation` resolves to: `{ success: true, explanation }` or `{ success: false, error }`. */
  datatype ExplanationResult = Explained(explanation: string) | Failed(error: Option<string>)

  /** The component's state. */
  datatype View = View(
    index: nat,
    selected: Option<string>,
    feedback: Option<Feedback>,
    explanation: Option<string>,
    loading: bool)

  const Initial := View(0, None, None, None, false)
  const FallbackExplanation := "Failed to load explanation."

  /** A JavaScript string is truthy when it is present and not empty. */
  predicate Truthy(s: Option<string>)
  {
    s.Some? && s.value != ""
  }

  function Assess(q: PracticeQuestion, selected: string): Feedback
  {
    if selected == q.correctAnswer then Correct else Incorrect
  }

  function CorrectTemplate(q: PracticeQuestion): string
  {
    "The answer for \"" + q.question + "\" is \"" + q.correctAnswer + "\". Explain why this is correct."
  }

  function IncorrectTemplate(q: PracticeQuestion, selected: string): string
  {
    "In the sentence \"" + q.question + "\", why is the answer \"" + selected + "\" incorrect and \"" + q.correctAnswer + "\" correct?"
  }

  /** The query sent for a selected answer. */
  function Query(q: PracticeQuestion, selected: string): string
  {
    if Assess(q, selected) == Correct then
      if Truthy(q.explanation) then q.explanation.value else CorrectTemplate(q)
    else IncorrectTemplate(q, selected)
  }

  /** The state once `handleSubmit` has sent its request. */
  function Submitted(v: View, q: PracticeQuestion): View
  {
    if !Truthy(v.selected) then v
    else v.(feedback := Some(Assess(q, v.selected.value)), loading := true, explanation := None)
  }

  /** The query `handleSubmit` sends, if it sends one. */
  function SubmitQuery(v: View, q: PracticeQuestion): Option<string>
  {
    if !Truthy(v.selected) then None else Some(Query(q, v.selected.value))
  }

  function ExplanationText(r: ExplanationResult): string
  {
    match r
    case Explained(e) => e
    case Failed(error) => if Truthy(error) then error.value else FallbackExplanation
  }

  /** The state once the explanation request has returned. */
  function Received(v: View, r: ExplanationResult): View
  {
    v.(explanation := Some(ExplanationText(r)), loading := false)
  }

  /** The state after `handleNext` with `n` questions; the loading flag is left alone. */
  function Advanced(v: View, n: nat): View
    requires n > 0
  {
    View((v.index + 1) % n, None, None, None, v.loading)
  }

  /** `k` presses of Next. */
  function AdvancedTimes(v: View, n: nat, k: nat): View
    requires n > 0
  {
    if k == 0 then v else Advanced(AdvancedTimes(v, n, k - 1), n)
  }

  class PracticeSession {
    const questions: seq<PracticeQuestion>
    var currentQuestionIndex: nat
    var selectedAnswer: Option<string>
    var feedback: Option<Feedback>
    var aiExplanation: Option<string>
    var isLoading: bool

    function State(): View
      reads this
    {
      View(currentQuestionIndex, selectedAnswer, feedback, aiExplanation, isLoading)
    }

    /** The page renders the component only for a non-empty question list. */
    predicate Valid()
      reads this
    {
      0 < |questions| && currentQuestionIndex < |questions|
    }

    constructor (questions: seq<PracticeQuestion>)
      requires |questions| > 0
      ensures Valid() && this.questions == questions && State() == Initial
    {
      this.questions := questions;
      currentQuestionIndex, selectedAnswer, feedback, aiExplanation, isLoading := 0, None, None, None, false;
    }

    /** The radio group's `onValueChange`. */
    method SelectAnswer(answer: string)
      modifies this
      ensures State() == old(State()).(selected := Some(answer))
    {
      selectedAnswer := Some(answer);
    }

    method Submit() returns (query: Option<string>)
      requires Valid()
      modifies this
      ensures Valid()
      ensures State() == Submitted(old(State()), questions[old(currentQuestionIndex)])
      ensures query == SubmitQuery(old(State()), questions[old(currentQuestionIndex)])
    {
      var question := questions[currentQuestionIndex];
      if selectedAnswer.None? || selectedAnswer.value == "" {
        return None;
      }
      var isCorrect := selectedAnswer.value == question.correctAnswer;
      feedback := Some(if isCorrect then Correct else Incorrect);
      isLoading := true;
      aiExplanation := None;
      var q := "";
      if isCorrect {
        q := if question.explanation.Some? && question.explanation.value != "" then question.explanation.value
             else CorrectTemplate(question);
      } else {
        q := IncorrectTemplate(question, selectedAnswer.value);
      }
      query := Some(q);
    }

    method ReceiveExplanation(result: ExplanationResult)
      modifies this
      ensures State() == Received(old(State()), result)
    {
      match result {
        case Explained(e) =>
          aiExplanation := Some(e);
        case Failed(error) =>
          aiExplanation := Some(if error.Some? && error.value != "" then error.value else FallbackExplanation);
      }
      isLoading := false;
    }

    method Next()
      requires Valid()
      modifies this
      ensures Valid()
      ensures State() == Advanced(old(State()), |questions|)
    {
      selectedAnswer := None;
      feedback := None;
      aiExplanation := None;
      currentQuestionIndex := (currentQuestionIndex + 1) % |questions|;
    }
  }

  /** Submitting with no answer selected changes nothing and sends nothing. */
  lemma SubmitWithoutAnswerIgnored(v: View, q: PracticeQuestion)
    requires !Truthy(v.selected)
    ensures Submitted(v, q) == v && SubmitQuery(v, q).None?
  {
  }

  /**
   * Submitting a selected answer marks it correct exactly when it equals the question's
   * correct answer, starts loading and clears the old explanation; nothing else changes.
   */
  lemma SubmitAssesses(v: View, q: PracticeQuestion)
    requires Truthy(v.selected)
    ensures var w := Submitted(v, q);
      (w.feedback == Some(Correct) <==> v.selected.value == q.correctAnswer) &&
      (w.feedback == Some(Incorrect) <==> v.selected.value != q.correctAnswer) &&
      w.loading && w.explanation.None? && w.index == v.index && w.selected == v.selected
  {
  }

  /**
   * The query sent: for a correct answer, the question's own explanation when it has one and
   * otherwise the "is correct" template; for a wrong answer, always the template naming both
   * the chosen and the correct answer.
   */
  lemma QueryFollowsFeedback(v: View, q: PracticeQuestion)
    requires Truthy(v.selected)
    ensures Submitted(v, q).feedback == Some(Correct) && Truthy(q.explanation) ==>
      SubmitQuery(v, q) == Some(q.explanation.value)
    ensures Submitted(v, q).feedback == Some(Correct) && !Truthy(q.explanation) ==>
      SubmitQuery(v, q) == Some(CorrectTemplate(q))
    ensures Submitted(v, q).feedback == Some(Incorrect) ==>
      SubmitQuery(v, q) == Some(IncorrectTemplate(q, v.selected.value))
  {
  }

  /**
   * Whatever the request returns, loading ends with a non-empty text shown when the request
   * failed: the error, or the fallback; the answer, feedback and index stay.
   */
  lemma ReceivedShowsText(v: View, r: ExplanationResult)
    ensures var w := Received(v, r);
      !w.loading && w.index == v.index && w.feedback == v.feedback && w.selected == v.selected
    ensures r.Explained? ==> Received(v, r).explanation == Some(r.explanation)
    ensures r.Failed? ==> Truthy(Received(v, r).explanation)
    ensures r.Failed? && !Truthy(r.error) ==> Received(v, r).explanation == Some("Failed to load explanation.")
  {
  }

  /** Next clears the answer, feedback and explanation and keeps the index in range. */
  lemma NextStaysInRange(v: View, n: nat)
    requires n > 0
    ensures var w := Advanced(v, n);
      w.index < n && w.selected.None? && w.feedback.None? && w.explanation.None? &&
      (v.index + 1 < n ==> w.index == v.index + 1) && (v.index + 1 == n ==> w.index == 0)
  {
  }

  lemma MulAtLeast(d: int, n: int)
    requires d >= 1 && n > 0
    ensures d * n >= n
  {
    assert d * n == (d - 1) * n + n;
  }

  /** Euclidean division has one quotient and remainder. */
  lemma ModUnique(x: int, q: int, r: int, n: int)
    requires n > 0 && 0 <= r < n && x == q * n + r
    ensures x % n == r
  {
    var q' := x / n;
    if q > q' {
      MulAtLeast(q - q', n);
    } else if q < q' {
      MulAtLeast(q' - q, n);
    }
  }

  lemma ModSucc(a: nat, n: nat)
    requires n > 0
    ensures (a % n + 1) % n == (a + 1) % n
  {
    var q := a / n;
    if a % n + 1 < n {
      ModUnique(a + 1, q, a % n + 1, n);
      ModUnique(a % n + 1, 0, a % n + 1, n);
    } else {
      ModUnique(a + 1, q + 1, 0, n);
      ModUnique(a % n + 1, 1, 0, n);
    }
  }

  /** `k` presses of Next from index `i` land on `(i + k) mod n`: the session cycles. */
  lemma {:induction false} NextCycles(v: View, n: nat, k: nat)
    requires n > 0
    ensures AdvancedTimes(v, n, k).index == if k == 0 then v.index else (v.index + k) % n
  {
    if k > 1 {
      NextCycles(v, n, k - 1);
      ModSucc(v.index + (k - 1), n);
    }
  }

  /** After one press per question the session is back at the question it started from. */
  lemma FullRoundReturns(v: View, n: nat)
    requires 0 < n && v.index < n
    ensures AdvancedTimes(v, n, n).index == v.index
  {
    NextCycles(v, n, n);
    ModUnique(v.index + n, 1, v.index, n);
  }

  /**
   * Pressing Next while the explanation is loading leaves the flag set on the next
   * question, and the late answer then shows the previous question's explanation there.
   */
  lemma LateExplanationLandsOnNextQuestion(v: View, q: PracticeQuestion, n: nat, r: ExplanationResult)
    requires n > 0 && Truthy(v.selected)
    ensures Advanced(Submitted(v, q), n).loading
    ensures var w := Received(Advanced(Submitted(v, q), n), r);
      w.index == (v.index + 1) % n && w.feedback.None? && w.selected.None? &&
      w.explanation == Some(ExplanationText(r))
  {
  }
}
