/** A resource patch (`Rescource` in abm/environment/rescource.py): a drifting disc holding
    units that agents deplete. The pure functions below state what each in-place method
    of the class does to its fields; the class methods are proved to follow them. */
module Resources {
  import opened Angles

  /** Defaults of the `Rescource` constructor that `add_new_resource_patch` relies on. */
  const DEFAULT_QUALITY: real := 1.0
  const DEFAULT_DES_VELOCITY: real := 1.5
  const DEFAULT_THETA_ABS: real := 0.2

  datatype Option<T> = None | Some(value: T)

  /** The smaller of two amounts. */
  function Min(a: real, b: real): (m: real)
    ensures m <= a && m <= b && (m == a || m == b)
  {
    if a <= b then a else b
  }

  /** What one call of `deplete` hands out and leaves behind. */
  datatype Depletion = Depletion(granted: real, left: real, exhausted: bool)

  /** `Rescource.deplete`: the request is first capped at the per-agent quality, then at
      what is left. The patch never goes negative, units are conserved, and the patch
      reports exhaustion exactly when nothing positive is left. */
  function Depleted(left: real, quality: real, request: real): (d: Depletion)
    ensures d.granted <= quality
    ensures d.granted == Min(Min(request, quality), left)
    ensures d.left >= 0.0
    ensures left == d.left + d.granted
    ensures d.exhausted <==> d.left <= 0.0
    ensures left >= 0.0 && quality >= 0.0 && request >= 0.0 ==> 0.0 <= d.granted <= left
    ensures left == 0.0 && quality >= 0.0 && request >= 0.0 ==> d == Depletion(0.0, 0.0, true)
  {
    var capped := if request > quality then quality else request;
    var d := if left >= capped then Depletion(capped, left - capped, false)
             else Depletion(left, 0.0, false);
    d.(exhausted := !(d.left > 0.0))
  }

  /** The moving part of a patch: position (top-left corner), centre, speed and heading. */
  datatype Kinematics = Kinematics(x: real, y: real, cx: real, cy: real, velocity: real, orientation: real)

  /** The kinematic state the constructor gives: at rest, heading 0, centre = corner + radius. */
  predicate AtRest(k: Kinematics, radius: real) {
    k.velocity == 0.0 && k.orientation == 0.0 && k.cx == k.x + radius && k.cy == k.y + radius
  }

  /** The walls a patch centre is kept between. */
  datatype Walls = Walls(left: real, right: real, top: real, bottom: real)

  function Boundaries(width: real, height: real, pad: real): Walls {
    Walls(pad, pad + width, pad, pad + height)
  }

  /** The centre coordinate after reflection on one axis, given the centre coordinate `c`
      before it (the right wall is checked after the left one, so it wins if both fire). */
  function Clamped(c: real, low: real, high: real): (r: real)
    ensures low + 1.0 <= high ==> low <= r <= high
    ensures low <= c <= high ==> r == c
  {
    if c > high then high - 1.0 else if c < low then low else c
  }

  /** `Rescource.reflect_from_walls`: each axis independently puts the centre back onto the
      wall it crossed (one unit inside on the right and lower walls) and turns the heading
      by a quarter; the speed never changes and the centre is the position plus the radius. */
  function Reflect(k: Kinematics, radius: real, w: Walls): (r: Kinematics)
    ensures r.velocity == k.velocity
    ensures r.cx == r.x + radius && r.cy == r.y + radius
    ensures r.cx == Clamped(k.x + radius, w.left, w.right)
    ensures r.cy == Clamped(k.y + radius, w.top, w.bottom)
    ensures w.left <= k.x + radius <= w.right ==> r.x == k.x
    ensures w.top <= k.y + radius <= w.bottom ==> r.y == k.y
    ensures w.left + 1.0 <= w.right && w.top + 1.0 <= w.bottom ==>
              w.left <= r.cx <= w.right && w.top <= r.cy <= w.bottom
    ensures InTurn(k.orientation) ==> InTurn(r.orientation)
  {
    var cx := k.x + radius;
    var cy := k.y + radius;
    var x1 := if cx < w.left then w.left - radius else k.x;
    var o1 := if cx < w.left then LeftWallTurn(k.orientation) else k.orientation;
    var x2 := if cx > w.right then w.right - radius - 1.0 else x1;
    var o2 := if cx > w.right then RightWallTurn(o1) else o1;
    var y1 := if cy < w.top then w.top - radius else k.y;
    var o3 := if cy < w.top then TopWallTurn(o2) else o2;
    var y2 := if cy > w.bottom then w.bottom - radius - 1.0 else y1;
    var o4 := if cy > w.bottom then BottomWallTurn(o3) else o3;
    Kinematics(x2, y2, x2 + radius, y2 + radius, k.velocity, o4)
  }

  /** `Rescource.update` (without drawing): turn by the random draw `turn`, wrap, jump to the
      desired speed, move along the heading (screen y points down) and reflect. `cos` and
      `sin` stand for numpy's trigonometry. */
  function Advanced(k: Kinematics, radius: real, w: Walls, desVelocity: real, turn: real,
                    cos: real -> real, sin: real -> real): (r: Kinematics)
    ensures r.velocity == desVelocity
    ensures r.cx == r.x + radius && r.cy == r.y + radius
    ensures InTurn(k.orientation) && -TWO_PI <= turn <= TWO_PI ==> InTurn(r.orientation)
  {
    Reflect(Moved(k, radius, desVelocity, turn, cos, sin), radius, w)
  }

  /** The part of `update` before the reflection. */
  function Moved(k: Kinematics, radius: real, desVelocity: real, turn: real,
                 cos: real -> real, sin: real -> real): (m: Kinematics)
    ensures m.velocity == desVelocity
    ensures m.orientation == Wrapped(k.orientation + turn)
    ensures m.cx == m.x + radius && m.cy == m.y + radius
    ensures m.x == k.x + desVelocity * cos(m.orientation) && m.y == k.y - desVelocity * sin(m.orientation)
  {
    var o := Wrapped(k.orientation + turn);
    var v := k.velocity + (desVelocity - k.velocity);
    var x := k.x + v * cos(o);
    var y := k.y - v * sin(o);
    Kinematics(x, y, x + radius, y + radius, v, o)
  }

  /** The walls a heading is turned away from: the heading after `Reflect` does not point
      back across any wall the centre had crossed. A heading of exactly 2*PI at the right
      wall is the one exception (see RightWallKeepsFullTurn). */
  lemma ReflectTurnsAway(k: Kinematics, radius: real, w: Walls)
    requires InTurn(k.orientation)
    requires w.left <= w.right && w.top <= w.bottom
    ensures var r := Reflect(k, radius, w);
      && (k.x + radius < w.left ==> FacesRight(r.orientation))
      && (k.x + radius > w.right && k.orientation != TWO_PI ==> FacesLeft(r.orientation))
      && (k.y + radius < w.top ==> FacesDown(r.orientation))
      && (k.y + radius > w.bottom ==> FacesUp(r.orientation))
  {
    var cx, cy := k.x + radius, k.y + radius;
    var o1 := if cx < w.left then LeftWallTurn(k.orientation) else k.orientation;
    var o2 := if cx > w.right then RightWallTurn(o1) else o1;
    if cx < w.left {
      assert 0.0 <= o2 < HALF_PI || THREE_HALF_PI <= o2 <= TWO_PI;
      if cy < w.top {
        assert TopWallTurn(o2) == Wrapped(if 0.0 <= o2 < HALF_PI then o2 - HALF_PI else o2);
      } else if cy > w.bottom {
        assert BottomWallTurn(o2) == Wrapped(if THREE_HALF_PI <= o2 then o2 + HALF_PI else o2);
      }
    }
    if cx > w.right && k.orientation != TWO_PI {
      assert HALF_PI <= o2 < THREE_HALF_PI;
      if cy < w.top {
        assert TopWallTurn(o2) == Wrapped(if o2 <= PI then o2 + HALF_PI else o2);
      } else if cy > w.bottom {
        assert BottomWallTurn(o2) == Wrapped(if PI <= o2 then o2 - HALF_PI else o2);
      }
    }
  }

  /** The exception: a patch past the right wall, inside the vertical walls, heading
      exactly 2*PI keeps that heading, which points at the wall it just crossed. */
  lemma RightWallKeepsFullTurn(k: Kinematics, radius: real, w: Walls)
    requires k.orientation == TWO_PI
    requires k.x + radius > w.right && w.top <= k.y + radius <= w.bottom
    ensures Reflect(k, radius, w).orientation == TWO_PI
    ensures !FacesLeft(Reflect(k, radius, w).orientation)
  {
    assert RightWallTurn(TWO_PI) == TWO_PI;
  }

  /** A resource patch. Fields the source never changes after construction are constants. */
  class Resource {
    const id: int
    const radius: real
    const rescUnits: real
    const quality: real       // unit_per_timestep
    const desVelocity: real
    const thetaAbs: real      // res_theta_abs, the bound on the random turn
    const width: real
    const height: real
    const pad: real
    var rescLeft: real
    var x: real
    var y: real
    var cx: real
    var cy: real
    var velocity: real
    var orientation: real

    function State(): Kinematics
      reads this`x, this`y, this`cx, this`cy, this`velocity, this`orientation
    {
      Kinematics(x, y, cx, cy, velocity, orientation)
    }

    function Bounds(): Walls { Boundaries(width, height, pad) }

    /** The patch now stands where one update step takes it from `prev` with the draw `turn`. */
    ghost predicate Drifted(prev: Kinematics, turn: real, cos: real -> real, sin: real -> real)
      reads this`x, this`y, this`cx, this`cy, this`velocity, this`orientation
    {
      State() == Advanced(prev, radius, Bounds(), desVelocity, turn, cos, sin)
    }

    /** The `Rescource` constructor: without an explicit unit count the patch holds as many
        units as its radius; it starts full, at rest, heading 0. */
    constructor (id: int, radius: real, x: real, y: real, width: real, height: real, pad: real,
                 units: Option<real>, quality: real, desVelocity: real, thetaAbs: real)
      ensures this.id == id && this.radius == radius && this.quality == quality
      ensures this.desVelocity == desVelocity && this.thetaAbs == thetaAbs
      ensures this.width == width && this.height == height && this.pad == pad
      ensures rescUnits == (if units.None? then radius else units.value)
      ensures rescLeft == rescUnits
      ensures State() == Kinematics(x, y, x + radius, y + radius, 0.0, 0.0)
    {
      this.id := id;
      this.radius := radius;
      this.rescUnits := if units.None? then radius else units.value;
      this.quality := quality;
      this.desVelocity := desVelocity;
      this.thetaAbs := thetaAbs;
      this.width := width;
      this.height := height;
      this.pad := pad;
      this.rescLeft := if units.None? then radius else units.value;
      this.x := x;
      this.y := y;
      this.cx := x + radius;
      this.cy := y + radius;
      this.velocity := 0.0;
      this.orientation := 0.0;
    }

    /** `deplete`: the only way units leave the patch. */
    method Deplete(request: real) returns (granted: real, exhausted: bool)
      modifies this`rescLeft
      ensures Depletion(granted, rescLeft, exhausted) == Depleted(old(rescLeft), quality, request)
    {
      var units := request;
      if units > quality {
        units := quality;
      }
      if rescLeft >= units {
        rescLeft := rescLeft - units;
        granted := units;
      } else {
        granted := rescLeft;
        rescLeft := 0.0;
      }
      exhausted := !(rescLeft > 0.0);
    }

    method ProveOrientation()
      modifies this`orientation
      ensures orientation == Wrapped(old(orientation))
    {
      if orientation < 0.0 {
        orientation := TWO_PI + orientation;
      }
      if orientation > TWO_PI {
        orientation := orientation - TWO_PI;
      }
    }

    /** `reflect_from_walls`: the centre is computed once, then the four walls are checked
        in the source's order (left, right, upper, lower). */
    method ReflectFromWalls()
      modifies this`x, this`y, this`cx, this`cy, this`orientation
      ensures State() == Reflect(old(State()), radius, Bounds())
    {
      var centreX := x + radius;
      var centreY := y + radius;
      if centreX < pad {
        x := pad - radius;
        TurnAtLeftWall();
      }
      if centreX > pad + width {
        x := pad + width - radius - 1.0;
        TurnAtRightWall();
      }
      if centreY < pad {
        y := pad - radius;
        TurnAtTopWall();
      }
      if centreY > pad + height {
        y := pad + height - radius - 1.0;
        TurnAtBottomWall();
      }
      cx := x + radius;
      cy := y + radius;
    }

    method TurnAtLeftWall()
      modifies this`orientation
      ensures orientation == LeftWallTurn(old(orientation))
    {
      if HALF_PI <= orientation < PI {
        orientation := orientation - HALF_PI;
      } else if PI <= orientation <= THREE_HALF_PI {
        orientation := orientation + HALF_PI;
      }
      ProveOrientation();
    }

    method TurnAtRightWall()
      modifies this`orientation
      ensures orientation == RightWallTurn(old(orientation))
    {
      if THREE_HALF_PI <= orientation < TWO_PI {
        orientation := orientation - HALF_PI;
      } else if 0.0 <= orientation <= HALF_PI {
        orientation := orientation + HALF_PI;
      }
      ProveOrientation();
    }

    method TurnAtTopWall()
      modifies this`orientation
      ensures orientation == TopWallTurn(old(orientation))
    {
      if HALF_PI <= orientation <= PI {
        orientation := orientation + HALF_PI;
      } else if 0.0 <= orientation < HALF_PI {
        orientation := orientation - HALF_PI;
      }
      ProveOrientation();
    }

    method TurnAtBottomWall()
      modifies this`orientation
      ensures orientation == BottomWallTurn(old(orientation))
    {
      if THREE_HALF_PI <= orientation <= TWO_PI {
        orientation := orientation + HALF_PI;
      } else if PI <= orientation < THREE_HALF_PI {
        orientation := orientation - HALF_PI;
      }
      ProveOrientation();
    }

    /** `update` without drawing; `turn` is the draw of `supcalc.random_walk`. */
    method Update(turn: real, cos: real -> real, sin: real -> real)
      modifies this`x, this`y, this`cx, this`cy, this`velocity, this`orientation
      ensures Drifted(old(State()), turn, cos, sin)
    {
      orientation := orientation + turn;
      ProveOrientation();
      velocity := velocity + (desVelocity - velocity);
      x := x + velocity * cos(orientation);
      y := y - velocity * sin(orientation);
      cx := x + radius;
      cy := y + radius;
      assert State() == Moved(old(State()), radius, desVelocity, turn, cos, sin);
      ReflectFromWalls();
    }
  }
}
