/** Headings in radians, as the resource patches of abm/environment/rescource.py keep them:
    wrapped once into [0, 2*PI] and turned by quarter turns when a patch meets a wall. */
module Angles {

  /** The float value of numpy's pi. */
  const PI: real := 3.141592653589793
  const TWO_PI: real := 2.0 * PI
  const HALF_PI: real := PI / 2.0
  const THREE_HALF_PI: real := 3.0 * PI / 2.0

  /** `Rescource.prove_orientation` on a value: add or subtract one full turn, at most once.
      Any heading within one turn of [0, 2*PI] lands in [0, 2*PI]; 2*PI itself stays 2*PI. */
  function Wrapped(o: real): (w: real)
    ensures -TWO_PI <= o <= 2.0 * TWO_PI ==> 0.0 <= w <= TWO_PI
    ensures 0.0 <= o <= TWO_PI ==> w == o
    ensures w == o || w == o + TWO_PI || w == o - TWO_PI
  {
    var lifted := if o < 0.0 then TWO_PI + o else o;
    if lifted > TWO_PI then lifted - TWO_PI else lifted
  }

  predicate InTurn(o: real) { 0.0 <= o <= TWO_PI }

  /** The heading has a non-negative x component (cos o >= 0). */
  predicate FacesRight(o: real) { 0.0 <= o <= HALF_PI || THREE_HALF_PI <= o <= TWO_PI }

  /** The heading has a non-positive x component (cos o <= 0). */
  predicate FacesLeft(o: real) { HALF_PI <= o <= THREE_HALF_PI }

  /** Positions move by -velocity * sin o on the screen's y axis, which points down:
      a heading in [PI, 2*PI] (sin o <= 0) does not move the patch up. */
  predicate FacesDown(o: real) { PI <= o <= TWO_PI }

  /** sin o >= 0: the heading does not move the patch down. */
  predicate FacesUp(o: real) { 0.0 <= o <= PI || o == TWO_PI }

  /** Heading change when the centre is left of the left wall (rescource.py:120-125). */
  function LeftWallTurn(o: real): (r: real)
    ensures InTurn(o) ==> InTurn(r) && (0.0 <= r < HALF_PI || THREE_HALF_PI <= r <= TWO_PI)
  {
    var turned :=
      if HALF_PI <= o < PI then o - HALF_PI
      else if PI <= o <= THREE_HALF_PI then o + HALF_PI
      else o;
    Wrapped(turned)
  }

  /** Heading change when the centre is right of the right wall (rescource.py:131-135).
      A heading of exactly 2*PI matches neither branch and is kept. */
  function RightWallTurn(o: real): (r: real)
    ensures InTurn(o) ==> InTurn(r) && (HALF_PI <= r < THREE_HALF_PI || (r == TWO_PI && o == TWO_PI))
  {
    var turned :=
      if THREE_HALF_PI <= o < TWO_PI then o - HALF_PI
      else if 0.0 <= o <= HALF_PI then o + HALF_PI
      else o;
    Wrapped(turned)
  }

  /** Heading change when the centre is above the upper wall (rescource.py:141-145). */
  function TopWallTurn(o: real): (r: real)
    ensures InTurn(o) ==> InTurn(r) && FacesDown(r)
  {
    var turned :=
      if HALF_PI <= o <= PI then o + HALF_PI
      else if 0.0 <= o < HALF_PI then o - HALF_PI
      else o;
    Wrapped(turned)
  }

  /** Heading change when the centre is below the lower wall (rescource.py:150-154). */
  function BottomWallTurn(o: real): (r: real)
    ensures InTurn(o) ==> InTurn(r) && FacesUp(r)
  {
    var turned :=
      if THREE_HALF_PI <= o <= TWO_PI then o + HALF_PI
      else if PI <= o < THREE_HALF_PI then o - HALF_PI
      else o;
    Wrapped(turned)
  }
}
