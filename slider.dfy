/** The event-driven slider of the interface (src/interface/components/slider.py):
    press on the round handle to grab it, move the mouse to drag it along the
    bar, release to let go. While dragged, the value follows the handle and is
    reported to the change callback. */
module SliderWidget {
  import opened Common

  const HEIGHT := 20
  const HANDLE_RADIUS := 10

  /** The mouse events the slider looks at; anything else is `Other`. */
  datatype Event = ButtonDown(mx: int, my: int) | ButtonUp | Motion(mx: int) | Other

  /** The bar's geometry and range. The handle position divides by the range
      and the drag by the width, so neither may be zero. */
  datatype Bar = Bar(x: int, y: int, width: int, minValue: int, maxValue: int)

  predicate Usable(b: Bar) {
    b.width > 0 && b.minValue != b.maxValue
  }

  /** The changing part: value, handle position and the drag flag. */
  datatype Knob = Knob(value: int, handleX: real, dragging: bool)

  /** The handle position of a value, as __init__ computes it. */
  function HandleFor(b: Bar, value: int): real
    requires Usable(b)
  {
    b.x as real + (value - b.minValue) as real / (b.maxValue - b.minValue) as real * b.width as real
  }

  /** Within the handle circle, edge included. */
  predicate OnHandle(b: Bar, k: Knob, mx: int, my: int) {
    var dx := mx as real - k.handleX;
    var dy := (my - (b.y + HEIGHT / 2)) as real;
    dx * dx + dy * dy <= (HANDLE_RADIUS * HANDLE_RADIUS) as real
  }

  /** The handle position a drag to `mx` gives: clamped to the bar. */
  function Clamped(b: Bar, mx: int): int {
    Max(b.x, Min(b.x + b.width, mx))
  }

  /** The value at a handle position, rounded half to even. */
  function ValueAt(b: Bar, hx: int): int
    requires Usable(b)
  {
    RoundHalfEven(Lerp(b.minValue, b.maxValue, Progress(b, hx)))
  }


  /** How far along the bar a handle position is (0 at the left end, 1 at
      the right end). */
  function Progress(b: Bar, hx: int): (f: real)
    requires Usable(b)
    ensures b.x <= hx <= b.x + b.width ==> 0.0 <= f <= 1.0
  {
    (hx - b.x) as real / b.width as real
  }

  /** handle_event as a function: the new state and the value passed to the change
      callback, if it was called. */
  function React(b: Bar, k: Knob, e: Event, hasCallback: bool): (Knob, Option<int>)
    requires Usable(b)
  {
    match e
    case ButtonDown(mx, my) => (if OnHandle(b, k, mx, my) then k.(dragging := true) else k, None)
    case ButtonUp => (k.(dragging := false), None)
    case Motion(mx) =>
      if k.dragging then
        var hx := Clamped(b, mx);
        var v := ValueAt(b, hx);
        (Knob(v, hx as real, true), if hasCallback then Some(v) else None)
      else (k, None)
    case Other => (k, None)
  }

  /** A press grabs the handle exactly when it lands within the handle
      circle (and never lets go); a release always lets go; motion is only
      heard while dragging, keeps the handle on the bar and calls back with
      the new value. */
  lemma HandleEventEffect(b: Bar, k: Knob, e: Event, hasCallback: bool)
    requires Usable(b)
    ensures var (k', called) := React(b, k, e, hasCallback);
      (e.ButtonDown? ==> k' == k.(dragging := k.dragging || OnHandle(b, k, e.mx, e.my)) && called.None?) &&
      (e.ButtonUp? ==> !k'.dragging && k'.value == k.value && called.None?) &&
      (e.Motion? && !k.dragging ==> k' == k && called.None?) &&
      (e.Motion? && k.dragging ==>
         k'.dragging && b.x as real <= k'.handleX <= (b.x + b.width) as real &&
         Between(b, k'.value) && (called.Some? <==> hasCallback) && (called.Some? ==> called.value == k'.value)) &&
      (e.Other? ==> k' == k && called.None?)
  {
    if e.Motion? && k.dragging {
      DragValueBetween(b, Clamped(b, e.mx));
    }
  }

  /** The value lies within the range, whichever way round the range is. */
  predicate Between(b: Bar, v: int) {
    Min(b.minValue, b.maxValue) <= v <= Max(b.minValue, b.maxValue)
  }

  lemma DragValueBetween(b: Bar, hx: int)
    requires Usable(b) && b.x <= hx <= b.x + b.width
    ensures Between(b, ValueAt(b, hx))
  {
    RoundedLerpBetween(b.minValue, b.maxValue, Progress(b, hx));
  }

  /** Rounding a point of the segment between two integers stays between
      them. */
  lemma RoundedLerpBetween(lo: int, hi: int, f: real)
    requires 0.0 <= f <= 1.0
    ensures Min(lo, hi) <= RoundHalfEven(Lerp(lo, hi, f)) <= Max(lo, hi)
  {
    var v := Lerp(lo, hi, f);
    FractionOf(f, (hi - lo) as real);
    if lo < hi {
      RoundStaysBetween(lo, v, hi);
    } else {
      RoundStaysBetween(hi, v, lo);
    }
  }

  /** Dragging to either end of the bar (or past it) gives the end of the
      range. */
  lemma DragToEnds(b: Bar, mx: int)
    requires Usable(b)
    ensures mx <= b.x ==> ValueAt(b, Clamped(b, mx)) == b.minValue
    ensures mx >= b.x + b.width ==> ValueAt(b, Clamped(b, mx)) == b.maxValue
  {
    if mx >= b.x + b.width {
      var w := b.width as real;
      assert (b.x + b.width - b.x) as real == w;
      assert w / w == 1.0;
      assert Progress(b, b.x + b.width) == 1.0;
    }
  }

  /** The initial handle of a value within the range lies on the bar. */
  lemma HandleOnBar(b: Bar, value: int)
    requires Usable(b) && Between(b, value)
    ensures b.x as real <= HandleFor(b, value) <= (b.x + b.width) as real
  {
    var f := (value - b.minValue) as real / (b.maxValue - b.minValue) as real;
    QuotientInUnit((value - b.minValue) as real, (b.maxValue - b.minValue) as real);
    FractionOf(f, b.width as real);
    assert HandleFor(b, value) == b.x as real + f * b.width as real;
  }

  /** A quotient of two numbers of the same sign, the first no larger in
      size, lies in [0, 1]. */
  lemma QuotientInUnit(a: real, d: real)
    requires d != 0.0 && ((0.0 <= a <= d) || (d <= a <= 0.0))
    ensures 0.0 <= a / d <= 1.0
  {
    var f := a / d;
    assert f * d == a;
    if d > 0.0 {
      MulMonotone(f, 0.0, d);
      MulMonotone(1.0, f, d);
    } else {
      MulMonotone(0.0, f, -d);
      MulMonotone(f, 1.0, -d);
      assert f * (-d) == -a;
    }
  }

  class Slider {
    const bar: Bar
    const hasCallback: bool
    var value: int
    var handleX: real
    var dragging: bool

    function State(): Knob
      reads this
    {
      Knob(value, handleX, dragging)
    }

    constructor (x: int, y: int, width: int, minValue: int, maxValue: int, initial: int, callback: bool)
      requires Usable(Bar(x, y, width, minValue, maxValue))
      ensures bar == Bar(x, y, width, minValue, maxValue) && hasCallback == callback
      ensures State() == Knob(initial, HandleFor(bar, initial), false)
    {
      bar := Bar(x, y, width, minValue, maxValue);
      hasCallback := callback;
      value := initial;
      dragging := false;
      handleX := x as real + (initial - minValue) as real / (maxValue - minValue) as real * width as real;
    }

    /** handle_event; `changed` is the value the change callback received. */
    method HandleEvent(e: Event) returns (changed: Option<int>)
      requires Usable(bar)
      modifies this
      ensures (State(), changed) == React(bar, old(State()), e, hasCallback)
    {
      changed := None;
      match e {
        case ButtonDown(mx, my) =>
          if OnHandle(bar, State(), mx, my) {
            dragging := true;
          }
        case ButtonUp =>
          dragging := false;
        case Motion(mx) =>
          if dragging {
            var hx := Clamped(bar, mx);
            handleX := hx as real;
            value := ValueAt(bar, hx);
            if hasCallback {
              changed := Some(value);
            }
          }
        case Other =>
      }
    }
  }
}
