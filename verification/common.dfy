/** Small shared vocabulary: an optional value, a 2-D point of `real`
    coordinates standing for `CGPoint`, and the absolute value, minimum and
    maximum the gesture code applies to `CGFloat` values. */
module Common {

  /** A value that may be absent, as Swift's optionals are. */
  datatype Option<+T> = None | Some(value: T)

  /** A point or a vector in points; `CGFloat` is modelled as `real`. */
  datatype Point = Point(x: real, y: real)

  /** `fabs` on a `CGFloat`. */
  function Abs(a: real): (r: real)
    ensures r >= 0.0
    ensures r == a || r == -a
  {
    if a < 0.0 then -a else a
  }

  /** Swift's `min(x, y)`: `y < x ? y : x`. */
  function Min(a: real, b: real): (r: real)
    ensures r <= a && r <= b
    ensures r == a || r == b
  {
    if b < a then b else a
  }

  /** Swift's `max(x, y)`: `y >= x ? y : x`. */
  function Max(a: real, b: real): (r: real)
    ensures r >= a && r >= b
    ensures r == a || r == b
  {
    if b >= a then b else a
  }
}
