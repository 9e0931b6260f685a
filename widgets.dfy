/** The image button of the interface (src/interface/components/button.py):
    it shows its hover image and moves by a small offset while the mouse is
    over it, and calls its callback once when the mouse is pressed over it,
    not again until the mouse has been released. */
module Widgets {
  import opened Common

  /** Which of the two images the button shows. */
  datatype Image = DefaultImage | HoverImage

  /** The per-frame state: hover flag, the image shown and the click latch. */
  datatype Latch = Latch(hovered: bool, image: Image, wasClicked: bool)

  /** One frame of update: the new state and whether the click went through
      (the callback itself runs only when there is one). */
  function LatchStep(s: Latch, over: bool, pressed: bool): (Latch, bool) {
    var clicked := over && pressed && !s.wasClicked;
    var was := if clicked then true else s.wasClicked;
    (Latch(over, if over then HoverImage else DefaultImage, pressed && was), clicked)
  }

  /** The hover image is shown exactly while hovered; a click goes through
      exactly when the mouse is pressed over the button and the latch is
      open; releasing the mouse always opens the latch. */
  lemma LatchStepEffect(s: Latch, over: bool, pressed: bool)
    ensures var (t, clicked) := LatchStep(s, over, pressed);
      t.hovered == over && (t.image == HoverImage <==> over) &&
      (clicked <==> over && pressed && !s.wasClicked) &&
      (!pressed ==> !t.wasClicked) &&
      (clicked ==> t.wasClicked)
  {
  }

  /** Frames of input: mouse over the button, mouse button down. */
  datatype Frame = Frame(over: bool, pressed: bool)

  function Clicks(s: Latch, frames: seq<Frame>): nat
    decreases |frames|
  {
    if frames == [] then 0
    else
      var step := LatchStep(s, frames[0].over, frames[0].pressed);
      (if step.1 then 1 else 0) + Clicks(step.0, frames[1..])
  }

  /** Frames on which the mouse goes down (it was up on the frame before). */
  function PressesBegun(down: bool, frames: seq<Frame>): nat
    decreases |frames|
  {
    if frames == [] then 0
    else (if frames[0].pressed && !down then 1 else 0) + PressesBegun(frames[0].pressed, frames[1..])
  }

  /** At most one click per continuous press: the clicks never outnumber the
      presses begun, plus one for a press already under way whose click has
      not happened yet. (`down` is the mouse state of the frame before; the
      latch can only be closed while the mouse is down.) */
  lemma {:induction false} AtMostOneClickPerPress(s: Latch, down: bool, frames: seq<Frame>)
    requires s.wasClicked ==> down
    ensures Clicks(s, frames) <= PressesBegun(down, frames) + if down && !s.wasClicked then 1 else 0
    decreases |frames|
  {
    if frames != [] {
      var step := LatchStep(s, frames[0].over, frames[0].pressed);
      AtMostOneClickPerPress(step.0, frames[0].pressed, frames[1..]);
    }
  }

  /** Where draw puts the image: the hitbox corner, moved by the hover
      offset while hovered. */
  function DrawOrigin(hitbox: Rect, hovered: bool, offsetX: int, offsetY: int): (int, int) {
    if hovered then (hitbox.x + offsetX, hitbox.y + offsetY) else (hitbox.x, hitbox.y)
  }

  /** The offsets a button gets when none are given. */
  const DEFAULT_HOVER_OFFSET_X := 0
  const DEFAULT_HOVER_OFFSET_Y := 3

  /** The image sits on the hitbox corner unless hovered, and hovering moves
      it by exactly the hover offset; with the default offsets, 3 pixels
      straight down. */
  lemma HoverMovesByOffset(hitbox: Rect, offsetX: int, offsetY: int)
    ensures DrawOrigin(hitbox, false, offsetX, offsetY) == (hitbox.x, hitbox.y)
    ensures DrawOrigin(hitbox, true, offsetX, offsetY).0 - DrawOrigin(hitbox, false, offsetX, offsetY).0 == offsetX
    ensures DrawOrigin(hitbox, true, offsetX, offsetY).1 - DrawOrigin(hitbox, false, offsetX, offsetY).1 == offsetY
    ensures DrawOrigin(hitbox, true, DEFAULT_HOVER_OFFSET_X, DEFAULT_HOVER_OFFSET_Y) == (hitbox.x, hitbox.y + 3)
  {
  }

  class HoverButton {
    const hitbox: Rect
    const hasCallback: bool
    const hoverOffsetX: int
    const hoverOffsetY: int
    var isHovered: bool
    var image: Image
    var wasClicked: bool

    function State(): Latch
      reads this
    {
      Latch(isHovered, image, wasClicked)
    }

    constructor (x: int, y: int, width: int, height: int, callback: bool, offsetX: Option<int>, offsetY: Option<int>)
      ensures hitbox == Rect(x, y, width, height) && hasCallback == callback
      ensures hoverOffsetX == (if offsetX.Some? then offsetX.value else DEFAULT_HOVER_OFFSET_X)
      ensures hoverOffsetY == (if offsetY.Some? then offsetY.value else DEFAULT_HOVER_OFFSET_Y)
      ensures State() == Latch(false, DefaultImage, false)
    {
      hitbox := Rect(x, y, width, height);
      hasCallback := callback;
      hoverOffsetX := if offsetX.Some? then offsetX.value else DEFAULT_HOVER_OFFSET_X;
      hoverOffsetY := if offsetY.Some? then offsetY.value else DEFAULT_HOVER_OFFSET_Y;
      isHovered, image, wasClicked := false, DefaultImage, false;
    }

    /** update: `called` says that the callback ran this frame. */
    method Update(mouseX: int, mouseY: int, mousePressed: bool) returns (called: bool)
      modifies this
      ensures var step := LatchStep(old(State()), hitbox.CollidePoint(mouseX, mouseY), mousePressed);
        State() == step.0 && (called <==> step.1 && hasCallback)
    {
      called := false;
      if hitbox.CollidePoint(mouseX, mouseY) {
        isHovered := true;
        image := HoverImage;
        if mousePressed && !wasClicked {
          wasClicked := true;
          if hasCallback {
            called := true;
          }
        }
      } else {
        isHovered := false;
        image := DefaultImage;
      }
      if !mousePressed {
        wasClicked := false;
      }
    }
  }
}
