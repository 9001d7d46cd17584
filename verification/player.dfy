/** First-person locomotion: four movement flags driven by key events, the
    integer input direction built from them each frame, and the eye-height
    clamp.  The camera-relative rotation, normalisation and frame-delta
    scaling are floating-point geometry and enter as a parameter. */
module Player {

  import opened Wrappers

  /** The held-movement flags. */
  datatype Flags = Flags(forward: bool, back: bool, left: bool, right: bool)

  /** No key held, as on mount. */
  const NoFlags: Flags := Flags(false, false, false, false)

  /** The four flags, named. */
  datatype Which = Forward | Back | Left | Right

  /** The reference key map: which flag a key code drives, if any. */
  function KeyFlag(code: string): Option<Which> {
    if code == "KeyW" then Some(Forward)
    else if code == "KeyS" then Some(Back)
    else if code == "KeyA" then Some(Left)
    else if code == "KeyD" then Some(Right)
    else None
  }

  /** The value of flag `w` in `m`. */
  function Get(m: Flags, w: Which): bool {
    match w
    case Forward => m.forward
    case Back => m.back
    case Left => m.left
    case Right => m.right
  }

  /** The flags after one key-down or key-up handler ran with `held` as the
      value to store: each of the four code tests in turn. */
  function SetForCode(m: Flags, code: string, held: bool): (r: Flags)
    ensures KeyFlag(code).Some? ==>
              && Get(r, KeyFlag(code).value) == held
              && forall w | w != KeyFlag(code).value :: Get(r, w) == Get(m, w)
    ensures KeyFlag(code).None? ==> r == m
  {
    var m1 := if code == "KeyW" then m.(forward := held) else m;
    var m2 := if code == "KeyS" then m1.(back := held) else m1;
    var m3 := if code == "KeyA" then m2.(left := held) else m2;
    if code == "KeyD" then m3.(right := held) else m3
  }

  /** A key-down event: the flag of a movement key becomes true, nothing else changes. */
  function OnKeyDown(m: Flags, code: string): (r: Flags)
    ensures r.forward == (m.forward || code == "KeyW")
    ensures r.back == (m.back || code == "KeyS")
    ensures r.left == (m.left || code == "KeyA")
    ensures r.right == (m.right || code == "KeyD")
  {
    SetForCode(m, code, true)
  }

  /** A key-up event: the flag of a movement key becomes false, nothing else changes. */
  function OnKeyUp(m: Flags, code: string): (r: Flags)
    ensures r.forward == (m.forward && code != "KeyW")
    ensures r.back == (m.back && code != "KeyS")
    ensures r.left == (m.left && code != "KeyA")
    ensures r.right == (m.right && code != "KeyD")
  {
    SetForCode(m, code, false)
  }

  /** Holding a key down so that it repeats has the effect of one press. */
  lemma KeyDownIdempotent(m: Flags, code: string)
    ensures OnKeyDown(OnKeyDown(m, code), code) == OnKeyDown(m, code)
  {
  }

  /** A keyboard event. */
  datatype KeyEvent = KeyDown(code: string) | KeyUp(code: string)

  /** The flags after the events `evs`, in order. */
  function Apply(m: Flags, evs: seq<KeyEvent>): Flags
    decreases |evs|
  {
    if evs == [] then m
    else
      var e := evs[|evs| - 1];
      var before := Apply(m, evs[..|evs| - 1]);
      match e
      case KeyDown(c) => OnKeyDown(before, c)
      case KeyUp(c) => OnKeyUp(before, c)
  }

  /** Whether the last event among `evs` that concerns flag `w` was a
      key-down (Some(true)) or a key-up (Some(false)); None if there was none. */
  function LastFor(evs: seq<KeyEvent>, w: Which): Option<bool>
    decreases |evs|
  {
    if evs == [] then None
    else if KeyFlag(evs[|evs| - 1].code) == Some(w) then Some(evs[|evs| - 1].KeyDown?)
    else LastFor(evs[..|evs| - 1], w)
  }

  /** After any sequence of key events a flag is set exactly when the last
      event for its key was a key-down, and keeps its starting value when no
      event concerned it: the flags are independent. */
  lemma {:induction false} FlagFollowsLastEvent(m: Flags, evs: seq<KeyEvent>, w: Which)
    ensures Get(Apply(m, evs), w) == LastFor(evs, w).GetOr(Get(m, w))
    decreases |evs|
  {
    if evs != [] {
      var init := evs[..|evs| - 1];
      FlagFollowsLastEvent(m, init, w);
      var e := evs[|evs| - 1];
      var before := Apply(m, init);
      var held := e.KeyDown?;
      assert Apply(m, evs) == SetForCode(before, e.code, held);
    }
  }

  /** The input direction of one frame before normalisation: x across, z
      along the view, each axis stepped once per held flag. */
  datatype Direction = Direction(x: int, z: int)

  /** 1 when `b` holds, 0 otherwise. */
  function Ind(b: bool): int {
    if b then 1 else 0
  }

  /** The direction built from the flags: forward takes one from z, back
      adds one, left takes one from x, right adds one. */
  function BuildDirection(m: Flags): (d: Direction)
    ensures -1 <= d.x <= 1 && -1 <= d.z <= 1
    ensures d.z == Ind(m.back) - Ind(m.forward)
    ensures d.x == Ind(m.right) - Ind(m.left)
    ensures d.z < 0 <==> m.forward && !m.back
    ensures d.x > 0 <==> m.right && !m.left
    ensures d == Direction(0, 0) <==> m.forward == m.back && m.left == m.right
  {
    var z0 := if m.forward then -1 else 0;
    var z1 := if m.back then z0 + 1 else z0;
    var x0 := if m.left then -1 else 0;
    var x1 := if m.right then x0 + 1 else x0;
    Direction(x1, z1)
  }

  /** With no key held the player does not move. */
  lemma NoFlagsNoDirection()
    ensures BuildDirection(NoFlags) == Direction(0, 0)
  {
  }

  /** A camera position. */
  datatype Vec3 = Vec3(x: real, y: real, z: real)

  /** The height the camera is held at every frame. */
  const EyeHeight: real := 1.6

  /** One frame of locomotion.  `controlsPresent` says whether the pointer-lock
      controls are mounted; `stride` is the horizontal displacement the
      camera-relative, normalised, speed-times-delta maths makes of a
      non-zero direction.  A zero direction normalises to the zero vector and
      moves nothing. */
  function Tick(cam: Vec3, controlsPresent: bool, m: Flags, stride: Direction -> (real, real)): (r: Vec3)
    ensures !controlsPresent ==> r == cam
    ensures controlsPresent ==> r.y == EyeHeight
    ensures controlsPresent && m.forward == m.back && m.left == m.right ==>
              r.x == cam.x && r.z == cam.z
  {
    if !controlsPresent then cam
    else
      var d := BuildDirection(m);
      var (dx, dz) := if d == Direction(0, 0) then (0.0, 0.0) else stride(d);
      Vec3(cam.x + dx, EyeHeight, cam.z + dz)
  }
}
