/** Shared vocabulary of the game model: optional values, pygame's integer
    rectangle, the tile size from the game settings, and the few Python
    numeric operations (floor division on floats, int(), round()) whose
    meaning differs from Dafny's. */
module Common {

  datatype Option<T> = None | Some(value: T)

  type PosInt = n: int | n > 0 witness 1

  /** GameSettings.TILE_SIZE, the pixel edge of one map tile. Its value lives in
      the settings file, which is not part of this model; every proof here holds
      for any positive tile size. */
  const TILE_SIZE: PosInt

  /** A pixel position (the game's Position: two floats). */
  datatype Position = Position(x: real, y: real)

  /** pygame.Rect with integer corner and size. */
  datatype Rect = Rect(x: int, y: int, w: int, h: int) {

    /** Rect.collidepoint: the right and bottom edges are outside. */
    predicate CollidePoint(px: int, py: int) {
      x <= px < x + w && y <= py < y + h
    }

    /** Rect.colliderect: the two rectangles overlap strictly on both axes. */
    predicate CollideRect(o: Rect) {
      x < o.x + o.w && o.x < x + w && y < o.y + o.h && o.y < y + h
    }

    function CenterX(): int { x + w / 2 }

    function CenterY(): int { y + h / 2 }
  }

  function Abs(n: int): nat { if n < 0 then -n else n }

  function Max(a: int, b: int): int { if a < b then b else a }

  function Min(a: int, b: int): int { if a < b then a else b }

  function RealMax(a: real, b: real): real { if a < b then b else a }

  function RealMin(a: real, b: real): real { if a < b then a else b }

  /** Python's `int(v // d)` for a float v and a positive integer d. */
  function FloorDiv(v: real, d: PosInt): (q: int)
    ensures q as real <= v / d as real < q as real + 1.0
  {
    (v / d as real).Floor
  }

  /** Every point of the cell [t*d, (t+1)*d) floor-divides to t. */
  lemma FloorDivOfCell(t: int, v: real, d: PosInt)
    requires (t * d) as real <= v < ((t + 1) * d) as real
    ensures FloorDiv(v, d) == t
  {
    var dr := d as real;
    var r := v / dr;
    assert r * dr == v;
    assert (t as real) * dr <= v;
    assert v < (t as real + 1.0) * dr;
    MulMonotone(r, t as real, dr);
    assert !(r * dr < (t as real) * dr);
    assert t as real <= r;
    MulMonotone(r, t as real + 1.0, dr);
    assert r * dr < (t as real + 1.0) * dr;
    assert r < t as real + 1.0;
  }

  /** Scaling by a positive real preserves strict order both ways. */
  lemma MulMonotone(a: real, b: real, d: real)
    requires d > 0.0
    ensures a < b <==> a * d < b * d
  {
  }

  /** Python's `int(v)`: truncation toward zero. */
  function Trunc(v: real): (n: int)
    ensures Abs(n) as real <= (if v < 0.0 then -v else v)
    ensures v >= 0.0 ==> n as real <= v < n as real + 1.0
    ensures v < 0.0 ==> n as real - 1.0 < v <= n as real
  {
    if v >= 0.0 then v.Floor else -((-v).Floor)
  }

  /** Python 3's `round(v)`: to the nearest integer, halves to the even one. */
  function RoundHalfEven(v: real): (n: int)
    ensures -0.5 <= n as real - v <= 0.5
  {
    var f := v.Floor;
    var frac := v - f as real;
    if frac < 0.5 then f
    else if frac > 0.5 then f + 1
    else if f % 2 == 0 then f else f + 1
  }

  /** Rounding and truncation never leave an interval with integer ends. */
  lemma RoundStaysBetween(lo: int, v: real, hi: int)
    requires lo as real <= v <= hi as real
    ensures lo <= RoundHalfEven(v) <= hi
  {
    var f := v.Floor;
    assert lo <= f <= hi;
    if f == hi {
      assert v == hi as real;
    }
  }

  lemma TruncStaysBetween(lo: int, v: real, hi: int)
    requires lo as real <= v <= hi as real
    ensures lo <= Trunc(v) <= hi
  {
  }

  /** The point a fraction `f` of the way from `lo` to `hi`. */
  function Lerp(lo: int, hi: int, f: real): real {
    lo as real + f * (hi - lo) as real
  }

  /** A fraction of `d` lies between 0 and `d`. */
  lemma FractionOf(f: real, d: real)
    requires 0.0 <= f <= 1.0
    ensures d >= 0.0 ==> 0.0 <= f * d <= d
    ensures d < 0.0 ==> d <= f * d <= 0.0
  {
    if d >= 0.0 {
      assert (1.0 - f) * d >= 0.0;
    } else {
      assert (1.0 - f) * (-d) >= 0.0;
    }
  }

  /** The sequence read back to front (used for Python's list.reverse()). */
  function Reversed<T>(s: seq<T>): (r: seq<T>)
    ensures |r| == |s|
  {
    if s == [] then [] else [s[|s| - 1]] + Reversed(s[..|s| - 1])
  }

  lemma ReversedSnoc<T>(s: seq<T>, x: T)
    ensures Reversed(s + [x]) == [x] + Reversed(s)
  {
    assert (s + [x])[..|s|] == s;
  }
}
