/** The top-level UI state of the game: the feedback message and its
    classification, whether the quiz is visible, the score, and the two kinds
    of delayed callback.  Real-time delays are not modelled: each scheduled
    callback is a pending event that may fire later, and the clock is the
    order in which events arrive. */
module App {

  import opened Wrappers
  import opened Classroom
  import EndQuiz

  /** The application state.  `quiz` is the state of the quiz component while
      it is mounted (that is, while `showQuiz` holds).  `expiriesPending` and
      `quizOpensPending` count the message-clearing and quiz-opening callbacks
      scheduled and not yet run; none of them is ever cancelled. */
  datatype AppState = AppState(
    message: Option<Text>,
    messageType: Kind,
    showQuiz: bool,
    score: int,
    quiz: EndQuiz.QuizState,
    expiriesPending: nat,
    quizOpensPending: nat)

  /** The invariant of every reachable state: the score is never negative,
      a message on screen always has a clearing callback pending, and every
      quiz answer is unanswered or a valid option index. */
  predicate Valid(s: AppState) {
    && s.score >= 0
    && (s.message.Some? ==> s.expiriesPending > 0)
    && EndQuiz.AnswersInRange(s.quiz)
  }

  /** The state on first render: no message, classification info, no quiz,
      score 0, nothing scheduled. */
  function Initial(): (s: AppState)
    ensures s.message == None && s.messageType == Info
    ensures !s.showQuiz && s.score == 0
    ensures s.expiriesPending == 0 && s.quizOpensPending == 0
    ensures Valid(s)
  {
    EndQuiz.InitialAnswersInRange();
    AppState(None, Info, false, 0, EndQuiz.InitialQuiz(), 0, 0)
  }

  /** Showing a feedback message: it replaces whatever message was shown,
      its classification defaults to info, and one more clearing callback is
      scheduled.  Nothing else changes. */
  function ShowFeedback(s: AppState, text: Text, kind: Option<Kind>): (r: AppState)
    ensures r.message == Some(text)
    ensures r.messageType == (if kind.Some? then kind.value else Info)
    ensures r.expiriesPending == s.expiriesPending + 1
    ensures r.(message := s.message, messageType := s.messageType, expiriesPending := s.expiriesPending) == s
  {
    s.(message := Some(text), messageType := kind.GetOr(Info), expiriesPending := s.expiriesPending + 1)
  }

  /** The end of the exploration phase: a success message when the player
      escaped, a fail message when trapped, and in both cases a quiz-opening
      callback scheduled.  The score and the quiz are untouched. */
  function OnLevelComplete(s: AppState, won: bool): (r: AppState)
    ensures r.message == Some(if won then EscapedNote else TrappedNote)
    ensures r.messageType == (if won then Success else Fail)
    ensures r.expiriesPending == s.expiriesPending + 1
    ensures r.quizOpensPending == s.quizOpensPending + 1
    ensures r.score == s.score && r.showQuiz == s.showQuiz && r.quiz == s.quiz
  {
    var shown := if won then ShowFeedback(s, EscapedNote, Some(Success))
                 else ShowFeedback(s, TrappedNote, Some(Fail));
    shown.(quizOpensPending := shown.quizOpensPending + 1)
  }

  /** The score callback of the classroom: one more point, nothing else. */
  function AddScore(s: AppState): (r: AppState)
    ensures r.score == s.score + 1
    ensures r.(score := s.score) == s
  {
    s.(score := s.score + 1)
  }

  /** The score callback of the quiz: the score becomes the quiz result,
      whatever it was before. */
  function SetScore(s: AppState, sc: int): (r: AppState)
    ensures r.score == sc
    ensures r.(score := s.score) == s
  {
    s.(score := sc)
  }

  /** The close callback of the quiz: the quiz is hidden (and unmounted). */
  function CloseQuiz(s: AppState): (r: AppState)
    ensures !r.showQuiz
    ensures r.(showQuiz := s.showQuiz) == s
  {
    s.(showQuiz := false)
  }

  /** One clearing callback runs: the message on screen, whichever
      feedback scheduled this callback, is removed. */
  function ExpireMessage(s: AppState): (r: AppState)
    requires s.expiriesPending > 0
    ensures r.message == None
    ensures r.expiriesPending == s.expiriesPending - 1
    ensures r.(message := s.message, expiriesPending := s.expiriesPending) == s
  {
    s.(message := None, expiriesPending := s.expiriesPending - 1)
  }

  /** One quiz-opening callback runs: the quiz becomes visible.  A quiz that
      was hidden is mounted afresh; one already visible keeps its state. */
  function OpenQuiz(s: AppState): (r: AppState)
    requires s.quizOpensPending > 0
    ensures r.showQuiz
    ensures r.quiz == (if s.showQuiz then s.quiz else EndQuiz.InitialQuiz())
    ensures r.quizOpensPending == s.quizOpensPending - 1
    ensures r.(showQuiz := s.showQuiz, quiz := s.quiz, quizOpensPending := s.quizOpensPending) == s
  {
    s.(showQuiz := true,
       quiz := if s.showQuiz then s.quiz else EndQuiz.InitialQuiz(),
       quizOpensPending := s.quizOpensPending - 1)
  }

  /** The effect of one callback fired by the classroom scene. */
  function Dispatch(s: AppState, sig: Signal): AppState {
    match sig
    case Feedback(text, kind) => ShowFeedback(s, text, Some(kind))
    case AddScore => AddScore(s)
    case Complete(won) => OnLevelComplete(s, won)
  }

  /** The effect of the callbacks `sigs`, fired in order. */
  function DispatchAll(s: AppState, sigs: seq<Signal>): AppState
    decreases |sigs|
  {
    if sigs == [] then s else DispatchAll(Dispatch(s, sigs[0]), sigs[1..])
  }

  /** Firing a single callback is dispatching it. */
  lemma DispatchAllOne(s: AppState, a: Signal)
    ensures DispatchAll(s, [a]) == Dispatch(s, a)
  {
  }

  /** Firing two callbacks dispatches them in order. */
  lemma DispatchAllTwo(s: AppState, a: Signal, b: Signal)
    ensures DispatchAll(s, [a, b]) == Dispatch(Dispatch(s, a), b)
  {
    assert [a, b][1..] == [b];
    DispatchAllOne(Dispatch(s, a), b);
  }

  /** A click on a scene object adds the points of its table entry, shows
      feedback of the table's classification for objects in the table, and
      changes nothing for any other id. */
  lemma ClickEffect(s: AppState, id: string)
    ensures var r := DispatchAll(s, HandleClickInteract(id));
      && r.score == s.score + AddScoreCount(HandleClickInteract(id))
      && (id in InteractionTable ==>
            && r.message.Some?
            && r.messageType == InteractionTable[id].0
            && r.expiriesPending == s.expiriesPending + 1
            && r.showQuiz == s.showQuiz && r.quizOpensPending == s.quizOpensPending
            && r.quiz == s.quiz)
      && (id !in InteractionTable ==> r == s)
  {
    var out := HandleClickInteract(id);
    if id == "extinguisher" {
      DispatchAllTwo(s, out[0], out[1]);
    } else if id == "window" || id == "desk" {
      DispatchAllOne(s, out[0]);
    }
  }

  /** An input to the application. */
  datatype Event =
    | Click(id: string)                      // a click on a scene object
    | DoorClick(door: Door)                  // a click on a door
    | MessageExpired                         // a message-clearing callback runs (3500 ms after its feedback)
    | QuizDelayElapsed                       // a quiz-opening callback runs (800 ms after a door outcome)
    | Quiz(action: EndQuiz.QuizAction)       // a control of the quiz is pressed

  /** Applying the quiz's report to the application state. */
  function QuizOutcome(s: AppState, out: EndQuiz.QuizOutput): AppState {
    match out
    case Silent => s
    case ReportScore(sc) => SetScore(s, sc)
    case CloseRequested => CloseQuiz(s)
  }

  /** One event; None when it cannot occur (no callback of that kind is
      pending, or the quiz control pressed is not on screen). */
  function Step(s: AppState, e: Event): (r: Option<AppState>)
    ensures e.Click? ==> r.Some?
    ensures e.Click? ==> r.value.score == s.score + AddScoreCount(HandleClickInteract(e.id))
    ensures e.Click? && e.id in InteractionTable ==>
              && r.value.message.Some?
              && r.value.messageType == InteractionTable[e.id].0
              && r.value.expiriesPending == s.expiriesPending + 1
              && r.value.showQuiz == s.showQuiz && r.value.quizOpensPending == s.quizOpensPending
              && r.value.quiz == s.quiz
    ensures e.Click? && e.id !in InteractionTable ==> r == Some(s)
    ensures e.DoorClick? ==> r == Some(OnLevelComplete(s, e.door == Exit))
    ensures e.MessageExpired? ==> (r.Some? <==> s.expiriesPending > 0)
    ensures e.MessageExpired? && r.Some? ==> r.value.message == None
    ensures e.MessageExpired? && r.Some? ==> r.value == ExpireMessage(s)
    ensures e.QuizDelayElapsed? ==> (r.Some? <==> s.quizOpensPending > 0)
    ensures e.QuizDelayElapsed? && r.Some? ==> r.value.showQuiz
    ensures e.QuizDelayElapsed? && r.Some? ==> r.value == OpenQuiz(s)
    ensures e.Quiz? ==> (r.Some? <==> s.showQuiz && EndQuiz.Available(s.quiz, e.action))
    ensures e.Quiz? && r.Some? ==>
              && r.value.quiz == EndQuiz.Step(s.quiz, e.action).value.0
              && r.value.message == s.message && r.value.messageType == s.messageType
              && r.value.expiriesPending == s.expiriesPending
              && r.value.quizOpensPending == s.quizOpensPending
    ensures e.Quiz? && e.action.Submit? && r.Some? ==>
              r.value.score == EndQuiz.Score(s.quiz.answers) && r.value.quiz.submitted && r.value.showQuiz
    ensures e.Quiz? && e.action.Close? && r.Some? ==> !r.value.showQuiz && r.value.score == s.score
    ensures e.Quiz? && e.action.Select? && r.Some? ==> r.value.score == s.score && r.value.showQuiz
  {
    match e
    case Click(id) =>
      ClickEffect(s, id);
      Some(DispatchAll(s, HandleClickInteract(id)))
    case DoorClick(d) =>
      var out := HandleDoorClick(d);
      DispatchAllOne(s, out[0]);
      Some(DispatchAll(s, out))
    case MessageExpired =>
      if s.expiriesPending > 0 then Some(ExpireMessage(s)) else None
    case QuizDelayElapsed =>
      if s.quizOpensPending > 0 then Some(OpenQuiz(s)) else None
    case Quiz(act) =>
      if !s.showQuiz then None
      else match EndQuiz.Step(s.quiz, act)
        case None => None
        case Some((q, out)) => Some(QuizOutcome(s.(quiz := q), out))
  }

  /** The events `evs` in order; None if one of them could not occur. */
  function Run(s: AppState, evs: seq<Event>): Option<AppState>
    decreases |evs|
  {
    if evs == [] then Some(s)
    else match Step(s, evs[0])
      case None => None
      case Some(s1) => Run(s1, evs[1..])
  }

  /** Every event that can occur keeps the invariant. */
  lemma StepPreservesValid(s: AppState, e: Event)
    requires Valid(s) && Step(s, e).Some?
    ensures Valid(Step(s, e).value)
  {
  }

  /** Every reachable state satisfies the invariant: in particular no message
      stays on screen without a callback that will clear it. */
  lemma {:induction false} RunPreservesValid(s: AppState, evs: seq<Event>)
    requires Valid(s) && Run(s, evs).Some?
    ensures Valid(Run(s, evs).value)
    decreases |evs|
  {
    if evs != [] {
      StepPreservesValid(s, evs[0]);
      RunPreservesValid(Step(s, evs[0]).value, evs[1..]);
    }
  }

  /** Clearing callbacks are never cancelled: after a window click and then a
      desk click, the callback scheduled by the first click clears the desk
      message although the desk message's own callback is still pending. */
  lemma StaleExpiryClearsNewerMessage(s: AppState)
    requires s.expiriesPending == 0
    ensures var r := Run(s, [Click("window"), Click("desk"), MessageExpired]);
      r.Some? && r.value.message == None && r.value.expiriesPending == 1
  {
  }

  /** `n` copies of event `e`. */
  function Repeat(e: Event, n: nat): (r: seq<Event>)
    ensures |r| == n
    ensures forall i | 0 <= i < n :: r[i] == e
  {
    if n == 0 then [] else [e] + Repeat(e, n - 1)
  }

  /** Each click on the extinguisher adds exactly one point, with no cap,
      and leaves its info note on screen. */
  lemma {:induction false} ExtinguisherClicksAccumulate(s: AppState, n: nat)
    ensures Run(s, Repeat(Click("extinguisher"), n)).Some?
    ensures Run(s, Repeat(Click("extinguisher"), n)).value.score == s.score + n
    ensures n > 0 ==> Run(s, Repeat(Click("extinguisher"), n)).value.messageType == Info
    decreases n
  {
    if n > 0 {
      var evs := Repeat(Click("extinguisher"), n);
      var s1 := Step(s, Click("extinguisher")).value;
      assert "extinguisher" in InteractionTable;
      assert AddScoreCount(HandleClickInteract("extinguisher")) == 1 by {
        var out := HandleClickInteract("extinguisher");
        assert out[1..][1..] == [];
      }
      assert evs[1..] == Repeat(Click("extinguisher"), n - 1);
      ExtinguisherClicksAccumulate(s1, n - 1);
    }
  }

  /** Any door ends the exploration with the message of its outcome, and
      once the quiz-opening callback runs the quiz is visible. */
  lemma DoorThenDelayOpensQuiz(s: AppState, d: Door)
    ensures var r := Run(s, [DoorClick(d), QuizDelayElapsed]);
      && r.Some? && r.value.showQuiz
      && r.value.message == Some(if d == Exit then EscapedNote else TrappedNote)
      && r.value.messageType == (if d == Exit then Success else Fail)
      && r.value.score == s.score
  {
    var s1 := Step(s, DoorClick(d)).value;
    var s2 := Step(s1, QuizDelayElapsed).value;
    assert Run(s1, [QuizDelayElapsed]) == Run(s2, []);
    assert Run(s, [DoorClick(d), QuizDelayElapsed]) == Run(s1, [QuizDelayElapsed]);
  }

  /** A whole session: escaping, waiting for the quiz, selecting options 1, 2
      and 1 and submitting overwrites the score with full marks, whatever was
      scored in the classroom before. */
  lemma FullMarksSession(s: AppState)
    requires !s.showQuiz && s.quizOpensPending == 0
    ensures var r := Run(s, [DoorClick(Exit), QuizDelayElapsed,
                             Quiz(EndQuiz.Select(0, 1)), Quiz(EndQuiz.Select(1, 2)),
                             Quiz(EndQuiz.Select(2, 1)), Quiz(EndQuiz.Submit)]);
      && r.Some? && r.value.score == 3
      && r.value.quiz.submitted && EndQuiz.DisplayedScore(r.value.quiz) == 3
  {
    var evs := [DoorClick(Exit), QuizDelayElapsed,
                Quiz(EndQuiz.Select(0, 1)), Quiz(EndQuiz.Select(1, 2)),
                Quiz(EndQuiz.Select(2, 1)), Quiz(EndQuiz.Submit)];
    var s1 := Step(s, evs[0]).value;
    var s2 := Step(s1, evs[1]).value;
    assert s2.quiz == EndQuiz.InitialQuiz();
    var s3 := Step(s2, evs[2]).value;
    var s4 := Step(s3, evs[3]).value;
    var s5 := Step(s4, evs[4]).value;
    assert s5.quiz.answers == [1, 2, 1] && !s5.quiz.submitted;
    var s6 := Step(s5, evs[5]).value;
    EndQuiz.AllCorrectScoresThree();
    assert Run(s5, evs[5..]) == Run(s6, []);
    assert Run(s4, evs[4..]) == Run(s5, evs[5..]);
    assert Run(s3, evs[3..]) == Run(s4, evs[4..]);
    assert Run(s2, evs[2..]) == Run(s3, evs[3..]);
    assert Run(s1, evs[1..]) == Run(s2, evs[2..]);
    assert Run(s, evs) == Run(s1, evs[1..]);
  }
}
