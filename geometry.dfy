/** Pointer coordinates and element boxes, as exact reals. */
module Geometry {

  datatype Option<T> = None | Some(value: T)

  /** A point or a translation on screen. */
  datatype Vec = Vec(x: real, y: real)

  const Origin: Vec := Vec(0.0, 0.0)

  /** What `getBoundingClientRect()` reports for an element. */
  datatype Rect = Rect(left: real, top: real, width: real, height: real)

  /** The centre of a box. */
  function Center(r: Rect): (c: Vec)
    ensures c.x - r.left == r.left + r.width - c.x
    ensures c.y - r.top == r.top + r.height - c.y
  {
    Vec(r.left + r.width / 2.0, r.top + r.height / 2.0)
  }

  /** `p` lies on or inside the box. */
  predicate Inside(p: Vec, r: Rect) {
    r.left <= p.x <= r.left + r.width && r.top <= p.y <= r.top + r.height
  }

  /** The same box moved by `d`. */
  function Shift(r: Rect, d: Vec): Rect {
    Rect(r.left + d.x, r.top + d.y, r.width, r.height)
  }

  function Add(a: Vec, b: Vec): Vec {
    Vec(a.x + b.x, a.y + b.y)
  }
}
