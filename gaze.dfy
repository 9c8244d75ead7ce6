/**
 * The robot's gaze (`RobotSection`, src/App.jsx:147-259): on every
 * `mousemove` anywhere on the page, `lookPos` becomes the pointer's offset
 * from the robot's centre divided by 30, clamped to 15 horizontally and 12
 * vertically; the pupils are drawn at 0.8 of `lookPos`.
 */
module Gaze {
  import opened Geometry

  const Divisor: real := 30.0
  const MaxX: real := 15.0
  const MaxY: real := 12.0
  const PupilScale: real := 0.8

  function Min(a: real, b: real): (m: real)
    ensures m <= a && m <= b && (m == a || m == b)
  {
    if a <= b then a else b
  }

  function Max(a: real, b: real): (m: real)
    ensures m >= a && m >= b && (m == a || m == b)
  {
    if a >= b then a else b
  }

  /** `Math.max(Math.min(v, hi), lo)`. */
  function Clamp(v: real, lo: real, hi: real): (r: real)
    ensures lo <= hi ==> lo <= r <= hi
    ensures lo <= v <= hi ==> r == v
    ensures lo <= hi && v > hi ==> r == hi
    ensures v < lo ==> r == lo
  {
    Max(Min(v, hi), lo)
  }

  /** The box `lookPos` stays in. */
  predicate InRange(look: Vec) {
    -MaxX <= look.x <= MaxX && -MaxY <= look.y <= MaxY
  }

  /** The unclamped offset `(moveX, moveY)`. */
  function Raw(box: Rect, pointer: Vec): (m: Vec)
    ensures Add(Center(box), Vec(m.x * Divisor, m.y * Divisor)) == pointer
  {
    Vec((pointer.x - Center(box).x) / Divisor, (pointer.y - Center(box).y) / Divisor)
  }

  /** The `mousemove` handler: the new `lookPos`, given the robot's box (`None` while the ref is not attached). */
  function HandleMouse(ref: Option<Rect>, pointer: Vec, lookPos: Vec): (r: Vec)
    ensures ref.None? ==> r == lookPos
    ensures ref.Some? ==> InRange(r)
    ensures InRange(lookPos) ==> InRange(r)
    // each axis is clamped on its own: within its range it is exactly the scaled offset
    ensures ref.Some? && -MaxX <= Raw(ref.value, pointer).x <= MaxX ==> r.x == Raw(ref.value, pointer).x
    ensures ref.Some? && -MaxY <= Raw(ref.value, pointer).y <= MaxY ==> r.y == Raw(ref.value, pointer).y
    // beyond it, the gaze saturates at the edge on the pointer's side
    ensures ref.Some? && Raw(ref.value, pointer).x > MaxX ==> r.x == MaxX
    ensures ref.Some? && Raw(ref.value, pointer).x < -MaxX ==> r.x == -MaxX
    ensures ref.Some? && Raw(ref.value, pointer).y > MaxY ==> r.y == MaxY
    ensures ref.Some? && Raw(ref.value, pointer).y < -MaxY ==> r.y == -MaxY
    // the eyes turn toward the pointer
    ensures ref.Some? ==> (r.x > 0.0 <==> pointer.x > Center(ref.value).x) && (r.y > 0.0 <==> pointer.y > Center(ref.value).y)
  {
    match ref
    case None => lookPos
    case Some(box) =>
      var move := Raw(box, pointer);
      Vec(Clamp(move.x, -MaxX, MaxX), Clamp(move.y, -MaxY, MaxY))
  }

  /** Where each pupil is drawn, relative to its eye. */
  function Pupil(look: Vec): (r: Vec)
    ensures r.x / PupilScale == look.x && r.y / PupilScale == look.y
    ensures InRange(look) ==> -12.0 <= r.x <= 12.0 && -9.6 <= r.y <= 9.6
  {
    Vec(look.x * PupilScale, look.y * PupilScale)
  }

  /** The gaze follows the pointer monotonically on each axis. */
  lemma Monotone(box: Rect, p: Vec, q: Vec, lookPos: Vec)
    requires p.x <= q.x && p.y <= q.y
    ensures HandleMouse(Some(box), p, lookPos).x <= HandleMouse(Some(box), q, lookPos).x
    ensures HandleMouse(Some(box), p, lookPos).y <= HandleMouse(Some(box), q, lookPos).y
  {
  }

  /** One `mousemove`: the robot's box at that moment (if mounted) and the pointer. */
  datatype MouseMove = MouseMove(ref: Option<Rect>, pointer: Vec)

  /** `lookPos` after a run of `mousemove` events, oldest first. */
  function Track(moves: seq<MouseMove>, lookPos: Vec): (r: Vec)
    ensures InRange(lookPos) ==> InRange(r)
    decreases |moves|
  {
    if moves == [] then lookPos
    else Track(moves[1..], HandleMouse(moves[0].ref, moves[0].pointer, lookPos))
  }

  /** From the initial `(0, 0)`, every `lookPos` the page can reach is in range, and so are the pupils. */
  lemma {:induction false} ReachableGazeInRange(moves: seq<MouseMove>)
    ensures InRange(Track(moves, Origin))
    ensures var p := Pupil(Track(moves, Origin)); -12.0 <= p.x <= 12.0 && -9.6 <= p.y <= 9.6
  {
  }
}
