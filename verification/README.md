# Fire-safety classroom: a Dafny model of the game logic

The game is a first-person walk through a burning classroom. The player
clicks safety-relevant objects: the fire extinguisher, a window, a desk.
Then they pick one of three doors, and a closing three-question quiz sets the
final score. This project models the discrete logic behind that, as immutable
datatypes and pure transition functions:

- `classroom.dfy` (module `Classroom`): the click handlers. A click is
  modelled as the sequence of callbacks it fires (`Signal`: feedback, add
  score, complete). A reference table (`InteractionTable`) gives each
  interactive object its feedback classification and its points.
- `end_quiz.dfy` (module `EndQuiz`): the question bank, the per-question
  answers with the `-1` "unanswered" sentinel, and the score. The score is a
  left fold, proved equal to the number of correctly answered questions. The
  submit-once machine exposes only the controls that are on screen.
- `player.dfy` (module `Player`): the four WASD movement flags, the integer
  input direction built from them each frame, and the eye-height clamp.
- `app.dfy` (module `App`): the top-level UI state. It holds the message, its
  classification, quiz visibility and score. It receives the classroom's
  callbacks and the quiz's reports. Each delayed callback (`setTimeout`)
  becomes a pending event: `MessageExpired` or `QuizDelayElapsed`.
- `wrappers.dfy` (module `Wrappers`): the `Option` type.

Two behaviours of the program shape the model:

- Clearing timers are never cancelled (app.tsx:17). Every `MessageExpired`
  clears whatever message is on screen, so a newer message can vanish early;
  see `App.StaleExpiryClearsNewerMessage`.
- A quiz cannot be submitted twice. After submission only Close is rendered
  (EndQuiz.tsx:71-85), so `EndQuiz.Step` rejects a second `Submit`, and
  `EndQuiz.FrozenAfterSubmit` proves that nothing is reported again.

## Model

| member | source | states |
|---|---|---|
| Classroom.HandleClickInteract | Classroom.tsx:33-42 | the feedback classification and points of a click agree with the reference table (extinguisher: info, +1; window: fail, 0; desk: info, 0); any other id fires nothing; a click never completes the level |
| Classroom.HandleDoorClick | Classroom.tsx:44-47 | a door fires exactly one completion, won exactly for the exit door, and no feedback or score |
| EndQuiz.BankWellFormed | EndQuiz.tsx:3-19 | the bank has three questions, each with three options and a correct index inside the option list |
| EndQuiz.CorrectOption | EndQuiz.tsx:78 | the correct answer shown after submission is one of the question's own options |
| EndQuiz.InitialAnswers | EndQuiz.tsx:27 | the initial answers are one `-1` per question |
| EndQuiz.SetAnswer | EndQuiz.tsx:30-34 | selecting sets the chosen slot; the length and every other slot are unchanged |
| EndQuiz.MatchCount | EndQuiz.tsx:37 | the fold's accumulator never exceeds the number of questions folded |
| EndQuiz.MatchCountIsCardinality | EndQuiz.tsx:37 | the fold equals the number of questions whose selection is the correct index |
| EndQuiz.Score | EndQuiz.tsx:42 | the score is the size of the set of correctly answered questions, so it lies between 0 and 3 |
| EndQuiz.UnansweredNeverCorrect | EndQuiz.tsx:27 | the unanswered sentinel is never a correct index |
| EndQuiz.InitialScoreIsZero | EndQuiz.tsx:27-42 | a fresh quiz scores 0 |
| EndQuiz.AllCorrectScoresThree | EndQuiz.tsx:3-19 | the answers 1, 2, 1 score 3 |
| EndQuiz.AllWrongScoresZero | EndQuiz.tsx:37 | answers that are wrong everywhere score 0 |
| EndQuiz.ScoreAfterSetAnswer | EndQuiz.tsx:30-42 | changing one selection changes the score by exactly the change in that question's correctness |
| EndQuiz.InitialQuiz | EndQuiz.tsx:27-28 | a mounted quiz starts unsubmitted, with every answer -1 and score 0 |
| EndQuiz.DisplayedScore | EndQuiz.tsx:73 | the score shown after submission is at most the number of questions |
| EndQuiz.Step | EndQuiz.tsx:47-85 | a control works exactly when it is on screen; select overwrites one slot only; submit sets submitted, keeps the answers and reports exactly the score then displayed; close asks the parent to close and changes nothing |
| EndQuiz.InitialAnswersInRange | EndQuiz.tsx:27 | a fresh quiz has every answer unanswered or a valid option index of its question |
| EndQuiz.StepKeepsAnswersInRange | EndQuiz.tsx:53-59 | every control keeps each answer unanswered or a valid option index of its question, because a selection comes only from that question's radio buttons |
| EndQuiz.RunKeepsAnswersInRange | EndQuiz.tsx:53-59 | the same answer-range invariant holds after any session |
| EndQuiz.FrozenAfterSubmit | EndQuiz.tsx:47-85 | after submission no sequence of actions changes the quiz state or reports a score |
| EndQuiz.ReportsOnceMatchingDisplay | EndQuiz.tsx:36-73 | over any session the quiz reports at most once, never after submission, and every reported score equals the score displayed at the end |
| Player.SetForCode | Player.tsx:15-27 | the key codes W, S, A, D drive forward, back, left, right; the driven flag takes the given value and the others are unchanged; any other code changes nothing |
| Player.OnKeyDown | Player.tsx:15-20 | key-down sets the flag of its key to true and leaves the others unchanged |
| Player.OnKeyUp | Player.tsx:22-27 | key-up sets the flag of its key to false and leaves the others unchanged |
| Player.KeyDownIdempotent | Player.tsx:16-19 | a repeated key-down has the effect of one |
| Player.FlagFollowsLastEvent | Player.tsx:14-27 | after any key events a flag is true exactly when the last event for its key was a key-down, and keeps its start value if there was no such event |
| Player.BuildDirection | Player.tsx:42-46 | z is back minus forward and x is right minus left, each in -1..1; the vector is zero exactly when opposite flags agree |
| Player.NoFlagsNoDirection | Player.tsx:42-46 | with no key held the direction is the zero vector |
| Player.Tick | Player.tsx:38-61 | without controls a frame changes nothing; with controls the camera height becomes 1.6, and a zero direction leaves the horizontal position unchanged |
| App.Initial | app.tsx:9-12 | the first state has no message, type info, no quiz, score 0 and nothing scheduled |
| App.ShowFeedback | app.tsx:14-18 | the message and its type are replaced, the type defaults to info, one clearing callback is scheduled, nothing else changes |
| App.OnLevelComplete | app.tsx:21-29 | won shows the escaped message as success, lost the trapped message as fail; both schedule a quiz-opening callback and keep the score |
| App.AddScore | app.tsx:39 | the score grows by exactly one and nothing else changes |
| App.SetScore | app.tsx:89 | the score is overwritten by the quiz result and nothing else changes |
| App.CloseQuiz | app.tsx:89 | the quiz is hidden and nothing else changes |
| App.ExpireMessage | app.tsx:17 | a clearing callback removes whatever message is shown |
| App.OpenQuiz | app.tsx:24-27 | the quiz becomes visible; a hidden quiz is mounted fresh, a visible one keeps its state; nothing else changes |
| App.ClickEffect | Classroom.tsx:33-42 | a click adds its table points to the score, shows feedback of its table classification, never touches the quiz, and leaves the state unchanged for unknown ids |
| App.Step | app.tsx:36-89 | each event's effect on the state, wired as in the source: clicks score per table and leave the quiz alone, doors complete the level, timer events need a pending callback, quiz controls work only while the quiz is shown, and a quiz submission overwrites the score with the quiz score; an expiry is exactly `ExpireMessage`, a quiz-opening callback exactly `OpenQuiz`, and a quiz control changes only the quiz, visibility and score as its report demands, leaving message, its type and pending callbacks untouched (select and close keep the score) |
| App.StepPreservesValid | app.tsx:14-28 | every event keeps the score non-negative, keeps a clearing callback pending while a message is shown, and keeps every quiz answer unanswered or a valid option index |
| App.RunPreservesValid | app.tsx:14-28 | the same invariant holds after any sequence of events |
| App.StaleExpiryClearsNewerMessage | app.tsx:17 | an earlier message's timer clears a newer message while the newer one's timer is still pending |
| App.ExtinguisherClicksAccumulate | Classroom.tsx:34-36 | n extinguisher clicks add exactly n points, with no cap |
| App.DoorThenDelayOpensQuiz | app.tsx:21-29 | after any door and the quiz delay, the quiz is visible with the outcome's message and classification, and the score is unchanged |
| App.FullMarksSession | app.tsx:85-90 | escaping, opening the quiz, selecting 1, 2, 1 and submitting leaves score 3, shown as 3 |

## Left out

- Fire flicker and smoke drift, fade and recycling (Classroom.tsx:18-31) are trigonometric floating-point animation and are not modelled.
- Player.Tick: the camera-relative rotation, normalisation and speed-times-delta integration (Player.tsx:47-60) use quaternions and floats. They enter as the `stride` parameter, so only the zero-direction case and the eye-height clamp are stated.
- Real time: the 3500 ms and 800 ms delays are not modelled. A pending callback may fire after any later event, so the model allows more orderings than the clock would (for example, the quiz opening after the door message's own clearing callback has run).
- Whether the quiz overlay blocks clicks on the scene is decided by the browser's layout, so scene clicks are accepted in every state.
- Scene and overlay markup, styling, `Html`, `Stats`, `Canvas`, `PointerLockControls`, and the registration and removal of window key listeners are rendering and DOM plumbing.
- The random initial smoke placement and the desk grid positions are visual configuration only.
- Question, option and feedback wording is modelled by opaque identifiers; only classifications and indices are compared.
