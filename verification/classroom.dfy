/** The click handlers of the classroom scene: which callbacks a click on a
    scene object or on a door fires, in order.  The per-frame fire and smoke
    animation is floating-point rendering and is not part of this model. */
module Classroom {

  /** The classification carried by a feedback message. */
  datatype Kind = Info | Success | Fail

  /** The feedback texts the game shows, as opaque constants: only their
      identity matters to the state machine. */
  datatype Text = ExtinguisherNote | WindowWarning | DeskNote | EscapedNote | TrappedNote

  /** The three doors a player can click. */
  datatype Door = Exit | Wrong1 | Wrong2

  /** One call of a callback prop the scene was given: `onFeedback`,
      `onAddScore` or `onComplete`. */
  datatype Signal = Feedback(text: Text, kind: Kind) | AddScore | Complete(won: bool)

  /** The reference table of interactive objects: the classification of the
      feedback a click produces and how many points it adds. */
  const InteractionTable: map<string, (Kind, nat)> :=
    map["extinguisher" := (Info, 1), "window" := (Fail, 0), "desk" := (Info, 0)]

  /** The kinds of the feedback signals in `out`, in order. */
  function FeedbackKinds(out: seq<Signal>): (ks: seq<Kind>)
    ensures |ks| <= |out|
  {
    if out == [] then []
    else if out[0].Feedback? then [out[0].kind] + FeedbackKinds(out[1..])
    else FeedbackKinds(out[1..])
  }

  /** How many score increments `out` asks for. */
  function AddScoreCount(out: seq<Signal>): (n: nat)
    ensures n <= |out|
  {
    if out == [] then 0
    else (if out[0].AddScore? then 1 else 0) + AddScoreCount(out[1..])
  }

  /** The callbacks fired by a click on the scene object named `id`:
      the extinguisher, a window or a desk give feedback (and the
      extinguisher one point); any other id does nothing. */
  function HandleClickInteract(id: string): (out: seq<Signal>)
    ensures forall s | s in out :: !s.Complete?
    ensures id in InteractionTable ==>
              FeedbackKinds(out) == [InteractionTable[id].0]
              && AddScoreCount(out) == InteractionTable[id].1
    ensures id !in InteractionTable ==> out == []
    ensures |out| > 0 ==> out[0].Feedback?
  {
    if id == "extinguisher" then
      [Feedback(ExtinguisherNote, Info), AddScore]
    else if id == "window" then
      [Feedback(WindowWarning, Fail)]
    else if id == "desk" then
      [Feedback(DeskNote, Info)]
    else
      []
  }

  /** The callbacks fired by a click on door `d`: exactly one completion,
      won exactly for the exit door, with no feedback and no score. */
  function HandleDoorClick(d: Door): (out: seq<Signal>)
    ensures |out| == 1 && out[0].Complete?
    ensures out[0].won <==> d == Exit
    ensures FeedbackKinds(out) == [] && AddScoreCount(out) == 0
  {
    if d == Exit then [Complete(true)] else [Complete(false)]
  }
}
