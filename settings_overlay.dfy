/** The in-game settings overlay (src/scenes/setting_overlay.py): the same
    mute checkbox and volume rule as the settings scene, with a slider that
    is grabbed only by its knob. Its save, load and back buttons report
    their clicks: saving and loading work on files and are not modelled, and
    closing is the game scene's ResetStep. */
module SettingsOverlay {
  import opened Common
  import opened SliderWidget
  import opened Settings
  import Widgets

  const OVERLAY_KNOB_RADIUS := 12

  /** One frame of the overlay slider's update: a press on the knob grabs it,
      the button being up lets go, and while dragging the value follows the
      mouse. */
  function OverlaySliderStep(b: Bar, s: Drag, mx: int, my: int, pressed: bool): Drag
    requires Usable(b)
  {
    var grabbed :=
      if pressed then
        if KnobRect(b, s.value, OVERLAY_KNOB_RADIUS).CollidePoint(mx, my) && !s.dragging then s.(dragging := true)
        else s
      else s.(dragging := false);
    if grabbed.dragging then grabbed.(value := DragValue(b, mx)) else grabbed
  }

  /** Dragging starts only on the knob and stops whenever the button is up;
      the value moves only while dragging and never leaves the range. */
  lemma OverlaySliderStepEffect(b: Bar, s: Drag, mx: int, my: int, pressed: bool)
    requires Usable(b)
    ensures var t := OverlaySliderStep(b, s, mx, my, pressed);
      (t.dragging <==> pressed && (s.dragging || KnobRect(b, s.value, OVERLAY_KNOB_RADIUS).CollidePoint(mx, my))) &&
      (!s.dragging && t.dragging ==> KnobRect(b, s.value, OVERLAY_KNOB_RADIUS).CollidePoint(mx, my)) &&
      (t.dragging ==> t.value == DragValue(b, mx)) &&
      (!t.dragging ==> t.value == s.value) &&
      (Between(b, s.value) ==> Between(b, t.value))
  {
    DragValueInRange(b, mx);
  }

  /** Unlike the scene's slider, a press on the bar away from the knob does
      not move this one. */
  lemma BarPressIgnored(b: Bar, s: Drag, mx: int, my: int)
    requires Usable(b) && !s.dragging && !KnobRect(b, s.value, OVERLAY_KNOB_RADIUS).CollidePoint(mx, my)
    ensures OverlaySliderStep(b, s, mx, my, true) == s
  {
  }

  class OverlaySlider {
    const bar: Bar
    var value: int
    var dragging: bool

    function State(): Drag
      reads this
    {
      Drag(value, dragging)
    }

    constructor (x: int, y: int, width: int, minValue: int, maxValue: int, default: int)
      ensures bar == Bar(x, y, width, minValue, maxValue) && State() == Drag(default, false)
    {
      bar := Bar(x, y, width, minValue, maxValue);
      value, dragging := default, false;
    }

    method Update(mouseX: int, mouseY: int, mousePressed: bool)
      requires Usable(bar)
      modifies this
      ensures State() == OverlaySliderStep(bar, old(State()), mouseX, mouseY, mousePressed)
    {
      var knob := KnobRect(bar, value, OVERLAY_KNOB_RADIUS);
      if mousePressed {
        if knob.CollidePoint(mouseX, mouseY) && !dragging {
          dragging := true;
        }
      } else {
        dragging := false;
      }
      if dragging {
        value := DragValue(bar, mouseX);
      }
    }
  }

  class SettingOverlay {
    const checkboxMute: Checkbox
    const sliderVolume: OverlaySlider
    const saveButton: Widgets.HoverButton
    const loadButton: Widgets.HoverButton
    const backButton: Widgets.HoverButton
    var lastVolumeBeforeMute: int

    /** The three buttons are separate objects, each with its callback. */
    predicate Valid() {
      saveButton != loadButton && loadButton != backButton && saveButton != backButton &&
      saveButton.hasCallback && loadButton.hasCallback && backButton.hasCallback
    }

    constructor ()
      ensures !checkboxMute.checked && checkboxMute.rect == Rect(480, 230, CHECKBOX_SIZE, CHECKBOX_SIZE)
      ensures sliderVolume.bar == Bar(480, 300, 300, 0, 100) && sliderVolume.State() == Drag(50, false)
      ensures saveButton.hitbox == Rect(530, 380, 120, 50) && loadButton.hitbox == Rect(680, 380, 120, 50)
      ensures backButton.hitbox == Rect(605, 460, 120, 50)
      ensures forall b :: b in [saveButton, loadButton, backButton] ==>
                b.State() == Widgets.Latch(false, Widgets.DefaultImage, false)
      ensures Valid()
      ensures lastVolumeBeforeMute == DEFAULT_VOLUME && Usable(sliderVolume.bar)
    {
      checkboxMute := new Checkbox(480, 230, false);
      sliderVolume := new OverlaySlider(480, 300, 300, 0, 100, 50);
      lastVolumeBeforeMute := DEFAULT_VOLUME;
      saveButton := new Widgets.HoverButton(530, 380, 120, 50, true, None, None);
      loadButton := new Widgets.HoverButton(680, 380, 120, 50, true, None, None);
      backButton := new Widgets.HoverButton(605, 460, 120, 50, true, None, None);
    }

    /** update: the save, load and back buttons in that order, then the
        checkbox, then the slider, then the shared volume rule. `volume` is
        what goes to the sound manager; `save`, `load` and `close` say which
        buttons' callbacks ran. */
    method Update(mouseX: int, mouseY: int, click: bool, mousePressed: bool)
      returns (volume: real, save: bool, load: bool, close: bool)
      requires Usable(sliderVolume.bar) && Valid()
      modifies this, saveButton, loadButton, backButton, checkboxMute, sliderVolume
      ensures var step := Widgets.LatchStep(old(saveButton.State()), saveButton.hitbox.CollidePoint(mouseX, mouseY), click);
        saveButton.State() == step.0 && (save <==> step.1)
      ensures var step := Widgets.LatchStep(old(loadButton.State()), loadButton.hitbox.CollidePoint(mouseX, mouseY), click);
        loadButton.State() == step.0 && (load <==> step.1)
      ensures var step := Widgets.LatchStep(old(backButton.State()), backButton.hitbox.CollidePoint(mouseX, mouseY), click);
        backButton.State() == step.0 && (close <==> step.1)
      ensures checkboxMute.checked <==> (old(checkboxMute.checked) != (checkboxMute.rect.CollidePoint(mouseX, mouseY) && click))
      ensures sliderVolume.State() == OverlaySliderStep(sliderVolume.bar, old(sliderVolume.State()), mouseX, mouseY, mousePressed)
      ensures (volume, lastVolumeBeforeMute) == Volume(checkboxMute.checked, sliderVolume.value, old(lastVolumeBeforeMute))
    {
      save := saveButton.Update(mouseX, mouseY, click);
      load := loadButton.Update(mouseX, mouseY, click);
      close := backButton.Update(mouseX, mouseY, click);
      checkboxMute.Update(mouseX, mouseY, click);
      sliderVolume.Update(mouseX, mouseY, mousePressed);
      if checkboxMute.checked {
        if sliderVolume.value != 0 {
          lastVolumeBeforeMute := sliderVolume.value;
        }
        volume := 0.0;
      } else {
        volume := sliderVolume.value as real / 100.0;
      }
    }
  }
}
