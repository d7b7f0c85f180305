/**
 * Values shared by every part of the sketch model: optional values, points in
 * real-valued canvas space, the handful of dynamically typed values that a
 * widget can hold, and the JavaScript operators whose semantics differ from
 * Dafny's (truthiness, `||` defaults, truncating remainder).
 */
module Common {

  datatype Option<+T> = None | Some(value: T) {
    function GetOr(default: T): T {
      match this
      case Some(v) => v
      case None => default
    }
  }

  datatype Result<+T, +E> = Ok(value: T) | Err(error: E)

  /** A position in pixels; the browser delivers fractional coordinates. */
  datatype Point = Point(x: real, y: real) {
    function Plus(o: Point): Point { Point(x + o.x, y + o.y) }
    function Minus(o: Point): Point { Point(x - o.x, y - o.y) }
  }

  /**
   * A widget value as JavaScript sees it. `Nil` stands for both `null` and
   * `undefined`, which every operator of the core treats alike.
   */
  datatype Value = Nil | Num(n: real) | Str(s: string) | Bool(b: bool)

  /** JavaScript truthiness (NaN is not representable and never arises). */
  predicate Truthy(v: Value) {
    match v
    case Nil => false
    case Num(n) => n != 0.0
    case Str(s) => s != ""
    case Bool(b) => b
  }

  /** `v || d` for a numeric widget; a truthy number is kept, anything falsy gives `d`. */
  function NumOr(v: Value, d: real): (r: real)
    ensures Truthy(v) && v.Num? ==> r == v.n
    ensures !Truthy(v) ==> r == d
  {
    if v.Num? && v.n != 0.0 then v.n else d
  }

  /** `v || d` for a string-valued widget. */
  function StrOr(v: Value, d: string): (r: string)
    ensures Truthy(v) && v.Str? ==> r == v.s
    ensures !Truthy(v) ==> r == d
  {
    if v.Str? && v.s != "" then v.s else d
  }

  /** `x || d` on a number that is never NaN: zero is the only falsy value. */
  function RealOr(x: real, d: real): (r: real)
    ensures x != 0.0 ==> r == x
    ensures x == 0.0 ==> r == d
  {
    if x != 0.0 then x else d
  }

  function Abs(r: real): real { if r < 0.0 then -r else r }

  function MaxR(a: real, b: real): real { if a < b then b else a }

  function MinI(a: int, b: int): int { if a < b then a else b }

  function MaxI(a: int, b: int): int { if a < b then b else a }

  /**
   * JavaScript's `a % b` on integers: the remainder truncates toward zero, so
   * it takes the sign of the dividend (Dafny's `%` is Euclidean).
   */
  function JsRem(a: int, b: int): (r: int)
    requires b != 0
    ensures a >= 0 ==> 0 <= r < Iabs(b)
    ensures a < 0 ==> -Iabs(b) < r <= 0
  {
    if a >= 0 then a % Iabs(b) else -((-a) % Iabs(b))
  }

  function Iabs(a: int): (r: int)
    ensures r >= 0 && (r == a || r == -a)
  {
    if a < 0 then -a else a
  }
}
