/**
 * The magnetic call-to-action button (`MagneticButton`, src/App.jsx:73-100):
 * while the pointer moves over it, its spring target is pulled toward the
 * pointer by 0.3 of the pointer's offset from the button's centre; when the
 * pointer leaves, the target returns to the origin.
 */
module Magnetic {
  import opened Geometry

  /** Fraction of the pointer's offset that the button follows. */
  const Pull: real := 0.3

  /**
   * `handleMouse`: the new `position` after a `mousemove` on the button,
   * given the button's box (`None` while the ref is not attached) and the
   * current `position`. The box is the one the button occupies at that
   * moment, already moved by its own spring translation, so its centre is
   * the displaced centre, not the button's rest position.
   */
  function HandleMouse(ref: Option<Rect>, pointer: Vec, position: Vec): (r: Vec)
    ensures ref.None? ==> r == position
    // the target is the pointer's offset from the centre, scaled down by `Pull`
    ensures ref.Some? ==> Add(Center(ref.value), Vec(r.x / Pull, r.y / Pull)) == pointer
    // it leans toward the pointer on each axis
    ensures ref.Some? ==> (r.x > 0.0 <==> pointer.x > Center(ref.value).x) && (r.x < 0.0 <==> pointer.x < Center(ref.value).x)
    ensures ref.Some? ==> (r.y > 0.0 <==> pointer.y > Center(ref.value).y) && (r.y < 0.0 <==> pointer.y < Center(ref.value).y)
    // over the button it moves at most `Pull` of half its size
    ensures ref.Some? && Inside(pointer, ref.value) ==>
      -Pull * ref.value.width / 2.0 <= r.x <= Pull * ref.value.width / 2.0 &&
      -Pull * ref.value.height / 2.0 <= r.y <= Pull * ref.value.height / 2.0
  {
    match ref
    case None => position
    case Some(box) =>
      var middleX := pointer.x - (box.left + box.width / 2.0);
      var middleY := pointer.y - (box.top + box.height / 2.0);
      Vec(middleX * Pull, middleY * Pull)
  }

  /** `reset`, on `mouseleave`: the target returns to the origin whatever it was. */
  function Reset(position: Vec): (r: Vec)
    ensures r == Origin
  {
    Vec(0.0, 0.0)
  }

  /** A pointer over the centre asks for the same rest position as leaving the button. */
  lemma CentredPointerRests(box: Rect, position: Vec)
    ensures HandleMouse(Some(box), Center(box), position) == Reset(position)
  {
  }

  /** Resetting twice is resetting once. */
  lemma ResetIdempotent(position: Vec)
    ensures Reset(Reset(position)) == Reset(position)
  {
  }

  /** Only the pointer's offset from the button matters: moving both together (scrolling) leaves the target unchanged. */
  lemma OffsetOnly(box: Rect, pointer: Vec, d: Vec, position: Vec)
    ensures HandleMouse(Some(Shift(box, d)), Add(pointer, d), position) == HandleMouse(Some(box), pointer, position)
  {
  }
}
