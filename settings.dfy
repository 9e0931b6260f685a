/** The settings scene (src/scenes/setting_scene.py): a mute checkbox and a
    volume slider polled every frame, and the rule that turns them into the
    volume handed to the sound manager. The checkbox and the volume rule are
    shared with the settings overlay. */
module Settings {
  import opened Common
  import opened SliderWidget
  import Widgets

  // ---------------------------------------------------------------------------
  // Checkbox

  const CHECKBOX_SIZE := 30

  class Checkbox {
    const rect: Rect
    var checked: bool

    constructor (x: int, y: int, default: bool)
      ensures rect == Rect(x, y, CHECKBOX_SIZE, CHECKBOX_SIZE) && checked == default
    {
      rect := Rect(x, y, CHECKBOX_SIZE, CHECKBOX_SIZE);
      checked := default;
    }

    /** update: a click inside the box flips it; anything else leaves it. */
    method Update(mouseX: int, mouseY: int, click: bool)
      modifies this
      ensures checked <==> (old(checked) != (rect.CollidePoint(mouseX, mouseY) && click))
    {
      if rect.CollidePoint(mouseX, mouseY) && click {
        checked := !checked;
      }
    }
  }

  // ---------------------------------------------------------------------------
  // The polled slider: knob position, bar jump and drag

  /** knob_x: the value's place on the bar, truncated to a pixel. */
  function KnobX(b: Bar, value: int): int
    requires Usable(b)
  {
    Trunc(Lerp(b.x, b.x + b.width, Share(b, value)))
  }

  /** How far through the range a value is. */
  function Share(b: Bar, value: int): (f: real)
    requires Usable(b)
    ensures Between(b, value) ==> 0.0 <= f <= 1.0
  {
    (value - b.minValue) as real / (b.maxValue - b.minValue) as real
  }

  /** A value within the range has its knob on the bar. */
  lemma KnobOnBar(b: Bar, value: int)
    requires Usable(b) && Between(b, value)
    ensures b.x <= KnobX(b, value) <= b.x + b.width
  {
    var f := Share(b, value);
    FractionOf(f, b.width as real);
    assert Lerp(b.x, b.x + b.width, f) == b.x as real + f * b.width as real;
    TruncStaysBetween(b.x, Lerp(b.x, b.x + b.width, f), b.x + b.width);
  }

  /** The ends of the range sit at the ends of the bar. */
  lemma KnobAtEnds(b: Bar)
    requires Usable(b)
    ensures KnobX(b, b.minValue) == b.x && KnobX(b, b.maxValue) == b.x + b.width
  {
    var d := (b.maxValue - b.minValue) as real;
    assert Share(b, b.maxValue) == d / d == 1.0;
    assert Share(b, b.minValue) == 0.0;
  }

  /** The knob's hit box: a square of twice the radius centred on the knob. */
  function KnobRect(b: Bar, value: int, radius: int): Rect
    requires Usable(b)
  {
    Rect(KnobX(b, value) - radius, b.y - radius, 2 * radius, 2 * radius)
  }

  /** The value a drag or a bar click at `mx` sets: the mouse clamped to the
      bar, mapped onto the range and truncated toward zero. */
  function DragValue(b: Bar, mx: int): int
    requires Usable(b)
  {
    Trunc(Lerp(b.minValue, b.maxValue, Progress(b, Max(b.x, Min(mx, b.x + b.width)))))
  }

  lemma DragValueInRange(b: Bar, mx: int)
    requires Usable(b)
    ensures Between(b, DragValue(b, mx))
  {
    var f := Progress(b, Max(b.x, Min(mx, b.x + b.width)));
    var v := Lerp(b.minValue, b.maxValue, f);
    FractionOf(f, (b.maxValue - b.minValue) as real);
    if b.minValue < b.maxValue {
      TruncStaysBetween(b.minValue, v, b.maxValue);
    } else {
      TruncStaysBetween(b.maxValue, v, b.minValue);
    }
  }

  /** Dragging to or past either end of the bar gives that end of the range. */
  lemma DragValueAtEnds(b: Bar, mx: int)
    requires Usable(b)
    ensures mx <= b.x ==> DragValue(b, mx) == b.minValue
    ensures mx >= b.x + b.width ==> DragValue(b, mx) == b.maxValue
  {
    assert Progress(b, b.x) == 0.0;
    assert Progress(b, b.x + b.width) == 1.0;
  }

  const SCENE_KNOB_RADIUS := 10

  /** The slider's changing state. */
  datatype Drag = Drag(value: int, dragging: bool)

  /** The bar's hit box: 20 pixels tall, centred on the bar. */
  function BarRect(b: Bar): Rect {
    Rect(b.x, b.y - 10, b.width, 20)
  }

  /** One frame of the scene slider's update: grab the knob, or jump to a
      press on the bar; let go when the button is up; while dragging follow
      the mouse. */
  function SceneSliderStep(b: Bar, s: Drag, mx: int, my: int, leftDown: bool): Drag
    requires Usable(b)
  {
    var grabbed :=
      if !s.dragging then
        if leftDown then
          if KnobRect(b, s.value, SCENE_KNOB_RADIUS).CollidePoint(mx, my) then s.(dragging := true)
          else if BarRect(b).CollidePoint(mx, my) then Drag(DragValue(b, mx), true)
          else s
        else s
      else if !leftDown then s.(dragging := false)
      else s;
    if grabbed.dragging then grabbed.(value := DragValue(b, mx)) else grabbed
  }

  /** Dragging holds exactly while the button stays down after a press on
      the knob or the bar; a value within the range stays within it; a value
      only changes while dragging, and then to the mouse's place on the bar. */
  lemma SceneSliderStepEffect(b: Bar, s: Drag, mx: int, my: int, leftDown: bool)
    requires Usable(b)
    ensures var t := SceneSliderStep(b, s, mx, my, leftDown);
      (t.dragging <==> leftDown && (s.dragging || KnobRect(b, s.value, SCENE_KNOB_RADIUS).CollidePoint(mx, my) ||
                                    BarRect(b).CollidePoint(mx, my))) &&
      (t.dragging ==> t.value == DragValue(b, mx)) &&
      (!t.dragging ==> t.value == s.value) &&
      (Between(b, s.value) ==> Between(b, t.value))
  {
    DragValueInRange(b, mx);
  }

  class SceneSlider {
    const bar: Bar
    var value: int
    var dragging: bool

    function State(): Drag
      reads this
    {
      Drag(value, dragging)
    }

    constructor (x: int, y: int, width: int, minValue: int, maxValue: int, default: int)
      ensures bar == Bar(x, y, width, minValue, maxValue) && State() == Drag(default, false)
    {
      bar := Bar(x, y, width, minValue, maxValue);
      value, dragging := default, false;
    }

    method Update(mouseX: int, mouseY: int, leftDown: bool)
      requires Usable(bar)
      modifies this
      ensures State() == SceneSliderStep(bar, old(State()), mouseX, mouseY, leftDown)
    {
      var knob := KnobRect(bar, value, SCENE_KNOB_RADIUS);
      if !dragging {
        if leftDown {
          if knob.CollidePoint(mouseX, mouseY) {
            dragging := true;
          } else {
            var barRect := Rect(bar.x, bar.y - 10, bar.width, 20);
            if barRect.CollidePoint(mouseX, mouseY) {
              value := DragValue(bar, mouseX);
              dragging := true;
            }
          }
        }
      } else {
        if !leftDown {
          dragging := false;
        }
      }
      if dragging {
        value := DragValue(bar, mouseX);
      }
    }
  }

  // ---------------------------------------------------------------------------
  // Volume

  /** The volume rule: muted means silence, remembering the slider's value
      when it is not zero; otherwise the slider's percentage. */
  function Volume(muted: bool, value: int, lastVolume: int): (real, int) {
    if muted then (0.0, if value != 0 then value else lastVolume)
    else (value as real / 100.0, lastVolume)
  }

  /** Muting silences and keeps a non-zero remembered value non-zero;
      unmuting plays at the slider's percentage, within [0, 1] for a value
      within [0, 100], and forgets nothing. */
  lemma VolumeEffect(muted: bool, value: int, lastVolume: int)
    ensures var (volume, last) := Volume(muted, value, lastVolume);
      (muted ==> volume == 0.0 && (last == value || (value == 0 && last == lastVolume))) &&
      (muted && lastVolume != 0 ==> last != 0) &&
      (!muted ==> volume * 100.0 == value as real && last == lastVolume) &&
      (!muted && 0 <= value <= 100 ==> 0.0 <= volume <= 1.0)
  {
  }

  /** The remembered volume is never zero, starting from the default 50. */
  lemma RememberedNeverZero(muted: seq<bool>, values: seq<int>)
    requires |muted| == |values|
    ensures Remembered(50, muted, values) != 0
  {
    RememberedStaysNonZero(50, muted, values);
  }

  function Remembered(last: int, muted: seq<bool>, values: seq<int>): int
    requires |muted| == |values|
    decreases |muted|
  {
    if muted == [] then last else Remembered(Volume(muted[0], values[0], last).1, muted[1..], values[1..])
  }

  lemma {:induction false} RememberedStaysNonZero(last: int, muted: seq<bool>, values: seq<int>)
    requires |muted| == |values| && last != 0
    ensures Remembered(last, muted, values) != 0
    decreases |muted|
  {
    if muted != [] {
      RememberedStaysNonZero(Volume(muted[0], values[0], last).1, muted[1..], values[1..]);
    }
  }

  const DEFAULT_VOLUME := 50

  class SettingScene {
    const checkboxMute: Checkbox
    const sliderVolume: SceneSlider
    /** The back button, whose callback changes to the menu scene. */
    const backButton: Widgets.HoverButton
    var lastVolumeBeforeMute: int

    constructor ()
      ensures !checkboxMute.checked && checkboxMute.rect == Rect(100, 100, CHECKBOX_SIZE, CHECKBOX_SIZE)
      ensures sliderVolume.bar == Bar(100, 180, 200, 0, 100) && sliderVolume.State() == Drag(50, false)
      ensures backButton.hitbox == Rect(300, 300, 150, 80) && backButton.hasCallback
      ensures backButton.State() == Widgets.Latch(false, Widgets.DefaultImage, false)
      ensures lastVolumeBeforeMute == DEFAULT_VOLUME
      ensures Usable(sliderVolume.bar)
    {
      backButton := new Widgets.HoverButton(300, 300, 150, 80, true, None, None);
      checkboxMute := new Checkbox(100, 100, false);
      sliderVolume := new SceneSlider(100, 180, 200, 0, 100, 50);
      lastVolumeBeforeMute := DEFAULT_VOLUME;
    }

    /** update: the back button, then the checkbox, then the slider, then
        the volume rule. `volume` is what goes to the sound manager; `back`
        says that the back button's callback asked for the menu scene. */
    method Update(mouseX: int, mouseY: int, click: bool, leftDown: bool) returns (volume: real, back: bool)
      requires Usable(sliderVolume.bar) && backButton.hasCallback
      modifies this, backButton, checkboxMute, sliderVolume
      ensures var step := Widgets.LatchStep(old(backButton.State()), backButton.hitbox.CollidePoint(mouseX, mouseY), click);
        backButton.State() == step.0 && (back <==> step.1)
      ensures checkboxMute.checked <==> (old(checkboxMute.checked) != (checkboxMute.rect.CollidePoint(mouseX, mouseY) && click))
      ensures sliderVolume.State() == SceneSliderStep(sliderVolume.bar, old(sliderVolume.State()), mouseX, mouseY, leftDown)
      ensures (volume, lastVolumeBeforeMute) == Volume(checkboxMute.checked, sliderVolume.value, old(lastVolumeBeforeMute))
    {
      back := backButton.Update(mouseX, mouseY, click);
      checkboxMute.Update(mouseX, mouseY, click);
      sliderVolume.Update(mouseX, mouseY, leftDown);
      if checkboxMute.checked {
        if sliderVolume.value != 0 {
          lastVolumeBeforeMute := sliderVolume.value;
        }
        volume := 0.0;
      } else {
        volume := sliderVolume.value as real / 100.0;
      }
    }
  }
}
