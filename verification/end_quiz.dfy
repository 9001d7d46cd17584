/** The closing quiz: a fixed bank of questions, one selected option per
    question (or the "unanswered" sentinel -1), a score that counts the
    matching selections, and a one-way `submitted` flag.  Question and option
    wording is opaque; only indices matter. */
module EndQuiz {

  import opened Wrappers

  /** An opaque identifier of a piece of question or option wording. */
  type TextId = nat

  /** A question: its prompt, its ordered options and the index of the correct one. */
  datatype Question = Question(prompt: TextId, options: seq<TextId>, correct: int)

  /** The compiled-in question bank. */
  const Bank: seq<Question> := [
    Question(0, [1, 2, 3], 1),
    Question(4, [5, 6, 7], 2),
    Question(8, [9, 10, 11], 1)
  ]

  /** The sentinel stored for a question that has no selection yet. */
  const Unanswered: int := -1

  /** One selection per question of the bank. */
  type Answers = a: seq<int> | |a| == |Bank| witness [Unanswered, Unanswered, Unanswered]

  /** Every question of the bank has three options and a correct index that
      addresses one of them, so the correct option can be looked up. */
  lemma BankWellFormed()
    ensures |Bank| == 3
    ensures forall i | 0 <= i < |Bank| ::
              |Bank[i].options| == 3 && 0 <= Bank[i].correct < |Bank[i].options|
  {
  }

  /** The option shown as the correct answer of question `i` after submission. */
  function CorrectOption(i: nat): (t: TextId)
    requires i < |Bank|
    ensures t in Bank[i].options
  {
    BankWellFormed();
    Bank[i].options[Bank[i].correct]
  }

  /** The answers a freshly mounted quiz starts with. */
  function InitialAnswers(): (a: Answers)
    ensures forall i | 0 <= i < |a| :: a[i] == Unanswered
  {
    [Unanswered, Unanswered, Unanswered]
  }

  /** Selecting option `v` for question `i`: slot `i` becomes `v`, every
      other slot keeps its value. */
  function SetAnswer(a: Answers, i: nat, v: int): (r: Answers)
    requires i < |a|
    ensures r[i] == v
    ensures forall j | 0 <= j < |a| && j != i :: r[j] == a[j]
  {
    a[i := v]
  }

  /** Whether selection `a[i]` is the correct option of question `i`. */
  predicate IsCorrect(a: seq<int>, i: nat)
    requires i < |a| && |a| <= |Bank|
  {
    a[i] == Bank[i].correct
  }

  /** The running total of the score reduction after its first `n` steps:
      the accumulator of a left fold adding 1 for each correct selection. */
  function MatchCount(a: seq<int>, n: nat): (c: nat)
    requires n <= |a| <= |Bank|
    ensures c <= n
  {
    if n == 0 then 0
    else MatchCount(a, n - 1) + (if IsCorrect(a, n - 1) then 1 else 0)
  }

  /** The indices of the questions answered correctly. */
  function Matches(a: seq<int>, n: nat): set<nat>
    requires n <= |a| <= |Bank|
  {
    set i: nat | i < n && IsCorrect(a, i)
  }

  /** The fold counts exactly the correctly answered questions among the first `n`. */
  lemma {:induction false} MatchCountIsCardinality(a: seq<int>, n: nat)
    requires n <= |a| <= |Bank|
    ensures MatchCount(a, n) == |Matches(a, n)|
  {
    if n == 0 {
      assert Matches(a, 0) == {};
    } else {
      MatchCountIsCardinality(a, n - 1);
      var prev := Matches(a, n - 1);
      assert (n - 1) !in prev;
      if IsCorrect(a, n - 1) {
        assert Matches(a, n) == prev + {n - 1};
      } else {
        assert Matches(a, n) == prev;
      }
    }
  }

  /** The quiz score: the number of questions whose selection is the
      correct index, between 0 and the number of questions. */
  function Score(a: Answers): (r: nat)
    ensures r == |Matches(a, |a|)|
    ensures r <= |Bank|
  {
    MatchCountIsCardinality(a, |a|);
    MatchCount(a, |a|)
  }

  /** No correct index is the sentinel, so an unanswered slot never scores. */
  lemma UnansweredNeverCorrect(a: Answers, i: nat)
    requires i < |a| && a[i] == Unanswered
    ensures !IsCorrect(a, i)
  {
  }

  /** A quiz nobody has answered scores 0. */
  lemma InitialScoreIsZero()
    ensures Score(InitialAnswers()) == 0
  {
  }

  /** Selecting the correct option everywhere, [1, 2, 1], scores full marks. */
  lemma AllCorrectScoresThree()
    ensures Score([1, 2, 1]) == 3
  {
  }

  /** Selecting a wrong option everywhere scores 0. */
  lemma AllWrongScoresZero(a: Answers)
    requires forall i | 0 <= i < |a| :: a[i] != Bank[i].correct
    ensures Score(a) == 0
  {
  }

  /** Changing one selection changes the score by exactly the change in that
      question's correctness: selecting the correct option gains a point
      unless it was already correct, selecting another loses one if it was. */
  lemma ScoreAfterSetAnswer(a: Answers, i: nat, v: int)
    requires i < |a|
    ensures Score(SetAnswer(a, i, v)) + (if IsCorrect(a, i) then 1 else 0)
         == Score(a) + (if v == Bank[i].correct then 1 else 0)
  {
    var r := SetAnswer(a, i, v);
    var before := Matches(a, |a|);
    var after := Matches(r, |r|);
    assert after - {i} == before - {i} by {
      forall j | j in after - {i} ensures j in before - {i} { }
      forall j | j in before - {i} ensures j in after - {i} { }
    }
    if IsCorrect(a, i) {
      assert before == (before - {i}) + {i};
    } else {
      assert before == before - {i};
    }
    if v == Bank[i].correct {
      assert after == (after - {i}) + {i};
    } else {
      assert after == after - {i};
    }
  }

  /** The quiz component's state. */
  datatype QuizState = QuizState(answers: Answers, submitted: bool)

  /** A freshly mounted quiz. */
  function InitialQuiz(): (q: QuizState)
    ensures q.answers == InitialAnswers()
    ensures !q.submitted && Score(q.answers) == 0
  {
    InitialScoreIsZero();
    QuizState(InitialAnswers(), false)
  }

  /** The controls of the quiz: a radio button, the submit button, the close button. */
  datatype QuizAction = Select(question: int, option: int) | Submit | Close

  /** What the quiz reports to its parent: nothing, `onScore(score)`, or `onClose()`. */
  datatype QuizOutput = Silent | ReportScore(score: nat) | CloseRequested

  /** Whether the control for `act` is on screen: before submission the
      radio buttons of every option of every question, submit and close;
      after it only close. */
  predicate Available(q: QuizState, act: QuizAction) {
    match act
    case Select(i, j) => !q.submitted && 0 <= i < |Bank| && 0 <= j < |Bank[i].options|
    case Submit => !q.submitted
    case Close => true
  }

  /** The score shown once the quiz is submitted, recomputed from the answers. */
  function DisplayedScore(q: QuizState): (r: nat)
    ensures r <= |Bank|
  {
    Score(q.answers)
  }

  /** Pressing the control for `act`; None when no such control is on screen.
      A selection overwrites one slot, submit freezes the answers and reports
      their score, close asks the parent to hide the quiz. */
  function Step(q: QuizState, act: QuizAction): (r: Option<(QuizState, QuizOutput)>)
    ensures r.Some? <==> Available(q, act)
    ensures r.Some? && act.Select? ==>
              && r.value.1 == Silent && !r.value.0.submitted
              && r.value.0.answers[act.question] == act.option
              && forall j | 0 <= j < |Bank| && j != act.question :: r.value.0.answers[j] == q.answers[j]
    ensures r.Some? && act.Submit? ==>
              && r.value.0.submitted && r.value.0.answers == q.answers
              && r.value.1 == ReportScore(DisplayedScore(r.value.0))
    ensures r.Some? && act.Close? ==> r.value == (q, CloseRequested)
  {
    if !Available(q, act) then None
    else match act
      case Select(i, j) => Some((q.(answers := SetAnswer(q.answers, i, j)), Silent))
      case Submit => Some((q.(submitted := true), ReportScore(Score(q.answers))))
      case Close => Some((q, CloseRequested))
  }

  /** Pressing the controls `acts` in order: the final state and every
      output, or None if some control was not on screen when pressed. */
  function Run(q: QuizState, acts: seq<QuizAction>): Option<(QuizState, seq<QuizOutput>)>
    decreases |acts|
  {
    if acts == [] then Some((q, []))
    else match Step(q, acts[0])
      case None => None
      case Some((q1, o)) =>
        match Run(q1, acts[1..])
        case None => None
        case Some((q2, os)) => Some((q2, [o] + os))
  }

  /** The number of score reports among `outs`. */
  function Reports(outs: seq<QuizOutput>): (n: nat)
    ensures n <= |outs|
  {
    if outs == [] then 0
    else (if outs[0].ReportScore? then 1 else 0) + Reports(outs[1..])
  }

  /** Once submitted, nothing a user can do changes the answers or reports a
      score again: the quiz stays submitted and only close remains. */
  lemma {:induction false} FrozenAfterSubmit(q: QuizState, acts: seq<QuizAction>)
    requires q.submitted
    requires Run(q, acts).Some?
    ensures Run(q, acts).value.0 == q
    ensures Reports(Run(q, acts).value.1) == 0
    decreases |acts|
  {
    if acts != [] {
      var r := Step(q, acts[0]);
      assert acts[0].Close?;
      FrozenAfterSubmit(r.value.0, acts[1..]);
    }
  }

  /** Over any session, the quiz reports at most once (never when already
      submitted), and every reported score equals the score displayed at
      the end of the session. */
  lemma {:induction false} ReportsOnceMatchingDisplay(q: QuizState, acts: seq<QuizAction>)
    requires Run(q, acts).Some?
    ensures Reports(Run(q, acts).value.1) <= (if q.submitted then 0 else 1)
    ensures forall o | o in Run(q, acts).value.1 && o.ReportScore? ::
              o.score == DisplayedScore(Run(q, acts).value.0)
    decreases |acts|
  {
    if acts != [] {
      var (q1, o) := Step(q, acts[0]).value;
      var (q2, os) := Run(q1, acts[1..]).value;
      assert Run(q, acts).value == (q2, [o] + os);
      ReportsOnceMatchingDisplay(q1, acts[1..]);
      if acts[0].Submit? {
        FrozenAfterSubmit(q1, acts[1..]);
      }
      assert Reports([o] + os) == (if o.ReportScore? then 1 else 0) + Reports(os) by {
        assert ([o] + os)[1..] == os;
      }
    }
  }

  /** The quiz's data invariant: every slot is unanswered or the index of one
      of its question's options, since a selection comes only from a radio
      button of that question. */
  predicate AnswersInRange(q: QuizState) {
    forall i | 0 <= i < |Bank| ::
      q.answers[i] == Unanswered || 0 <= q.answers[i] < |Bank[i].options|
  }

  /** A freshly mounted quiz satisfies the invariant. */
  lemma InitialAnswersInRange()
    ensures AnswersInRange(InitialQuiz())
  {
  }

  /** Every control pressed keeps the invariant. */
  lemma StepKeepsAnswersInRange(q: QuizState, act: QuizAction)
    requires AnswersInRange(q) && Step(q, act).Some?
    ensures AnswersInRange(Step(q, act).value.0)
  {
  }

  /** Every session keeps the invariant. */
  lemma {:induction false} RunKeepsAnswersInRange(q: QuizState, acts: seq<QuizAction>)
    requires AnswersInRange(q) && Run(q, acts).Some?
    ensures AnswersInRange(Run(q, acts).value.0)
    decreases |acts|
  {
    if acts != [] {
      StepKeepsAnswersInRange(q, acts[0]);
      RunKeepsAnswersInRange(Step(q, acts[0]).value.0, acts[1..]);
    }
  }
}
