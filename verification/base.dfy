/**
 * Shared vocabulary of the electrode-placement optimiser: optional values,
 * canvas points, the JavaScript number conversions the code relies on, and
 * the transcendental functions it takes from JavaScript's `Math` object.
 */
module Base {

  /** A value that may be absent; `None` stands for JavaScript's `undefined`,
      for `false` returned in place of a value, or for a run-time TypeError. */
  datatype Option<+T> = None | Some(value: T)

  /** A point on the drawing canvas. */
  datatype Point = Point(x: real, y: real) {
    /** The point moved by (dx, dy). */
    function Shift(dx: real, dy: real): Point {
      Point(x + dx, y + dy)
    }
  }

  /** Midpoint of two points. */
  function Midpoint(p: Point, q: Point): Point {
    Point((p.x + q.x) / 2.0, (p.y + q.y) / 2.0)
  }

  /** Reflection of `p` through the centre `c`, i.e. 2c - p. */
  function Mirror(p: Point, c: Point): Point {
    Point(2.0 * c.x - p.x, 2.0 * c.y - p.y)
  }

  function Abs(x: real): real {
    if x < 0.0 then -x else x
  }

  function Min(a: real, b: real): real {
    if a < b then a else b
  }

  function Max(a: real, b: real): real {
    if a < b then b else a
  }

  /** Squared Euclidean distance. */
  function DistSq(p: Point, q: Point): real {
    (p.x - q.x) * (p.x - q.x) + (p.y - q.y) * (p.y - q.y)
  }

  /** `parseInt` applied to a JavaScript number of ordinary magnitude:
      the fraction is dropped, rounding toward zero. */
  function Trunc(x: real): (r: int)
    ensures 0.0 <= x ==> r as real <= x < r as real + 1.0
    ensures x < 0.0 ==> r as real - 1.0 < x <= r as real
  {
    if x >= 0.0 then x.Floor else -((-x).Floor)
  }

  /** `Math.ceil`: the least integer not below x. */
  function Ceil(x: real): (r: int)
    ensures r as real - 1.0 < x <= r as real
  {
    if x.Floor as real == x then x.Floor else x.Floor + 1
  }

  /**
   * The transcendental operations the source takes from JavaScript's
   * `Math` object: `Math.sqrt`, `Math.acos`, `Math.exp` and `Math.PI`.
   * They are passed in, because the model works over exact reals.
   */
  datatype Numerics = Numerics(sqrt: real -> real, acos: real -> real, exp: real -> real, pi: Positive)

  /** A strictly positive real, the type of `Math.PI` here. */
  type Positive = r: real | r > 0.0 witness 1.0

  /** The few facts about the transcendental operations that the proofs use. */
  ghost predicate Sane(num: Numerics) {
    && 3.0 < num.pi < 4.0
    && (forall v :: 0.0 <= v ==> 0.0 <= num.sqrt(v))
    && (forall c :: 0.0 <= num.acos(c) <= num.pi)
    && (forall t :: 0.0 <= t ==> 1.0 <= num.exp(t))
  }

  /** Euclidean distance, `Utils.GetDistanceBetweenPoints`. */
  function Dist(num: Numerics, p: Point, q: Point): real {
    num.sqrt(DistSq(p, q))
  }
}
