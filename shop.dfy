/** The shop overlay (src/scenes/shop_overlay.py): buying an item for coins
    from the bag's item list, and the timed message that reports it. */
module Shop {
  import opened Common
  import opened Bags
  import Widgets

  /** An entry of the shop's catalogue. */
  datatype Offer = Offer(name: string, price: int, spritePath: string)

  /** The catalogue, in button order. */
  const Catalogue: seq<Offer> := [
    Offer("Potion", 1, "ingame_ui/potion.png"),
    Offer("Pokeball", 1, "ingame_ui/ball.png")
  ]

  const COINS := "Coins"
  const NO_COINS_MESSAGE := "Not enough Coins!"
  /** Seconds a message stays up. */
  const MESSAGE_SECONDS := 2.0

  function BoughtMessage(name: string): string {
    "Bought " + name + "!"
  }

  /** The index of the first entry with this name (the loops that `break` on
      the first match). */
  function FirstNamed(items: seq<Item>, name: string): (k: Option<nat>)
    ensures k.Some? ==> k.value < |items| && items[k.value].name == name &&
                        forall j :: 0 <= j < k.value ==> items[j].name != name
    ensures k.None? ==> forall j :: 0 <= j < |items| ==> items[j].name != name
    decreases |items|
  {
    if items == [] then None
    else if items[0].name == name then Some(0)
    else
      var k := FirstNamed(items[1..], name);
      if k.Some? then Some(k.value + 1) else None
  }

  /** buy_item on the item list: pay with the first "Coins" entry, then add
      one to the first entry of that name or append a new entry. The flag
      says whether the purchase went through. */
  function Purchase(items: seq<Item>, offer: Offer): (seq<Item>, bool) {
    var c := FirstNamed(items, COINS);
    if c.Some? && items[c.value].count >= offer.price then
      var paid := items[c.value := items[c.value].(count := items[c.value].count - offer.price)];
      var k := FirstNamed(paid, offer.name);
      if k.Some? then (paid[k.value := paid[k.value].(count := paid[k.value].count + 1)], true)
      else (paid + [Item(offer.name, 1, offer.spritePath)], true)
    else (items, false)
  }

  /** A purchase succeeds iff a "Coins" entry exists and the first one holds
      at least the price; a failed one changes nothing. */
  lemma PurchaseSucceedsIffAffordable(items: seq<Item>, offer: Offer)
    ensures Purchase(items, offer).1 <==>
      exists c :: 0 <= c < |items| && items[c].name == COINS && items[c].count >= offer.price &&
                  forall j :: 0 <= j < c ==> items[j].name != COINS
    ensures !Purchase(items, offer).1 ==> Purchase(items, offer).0 == items
  {
    var c := FirstNamed(items, COINS);
    if c.Some? {
      assert items[c.value].name == COINS;
    }
  }

  /** A successful purchase of an item that is not the coins: the first coin
      entry loses exactly the price, the first entry of that item gains one
      (or one new entry with count 1 is appended), and nothing else changes. */
  lemma PurchaseEffect(items: seq<Item>, offer: Offer, c: nat)
    requires offer.name != COINS
    requires c < |items| && items[c].name == COINS && items[c].count >= offer.price
    requires forall j :: 0 <= j < c ==> items[j].name != COINS
    ensures Purchase(items, offer).1
    ensures Purchase(items, offer).0[c] == items[c].(count := items[c].count - offer.price)
    ensures var items', k := Purchase(items, offer).0, FirstNamed(items, offer.name);
      k.Some? ==>
        |items'| == |items| && items'[k.value] == items[k.value].(count := items[k.value].count + 1) &&
        forall i :: 0 <= i < |items| && i != c && i != k.value ==> items'[i] == items[i]
    ensures var items' := Purchase(items, offer).0;
      FirstNamed(items, offer.name).None? ==>
        |items'| == |items| + 1 && items'[|items|] == Item(offer.name, 1, offer.spritePath) &&
        forall i :: 0 <= i < |items| && i != c ==> items'[i] == items[i]
  {
    var c' := FirstNamed(items, COINS);
    assert c'.Some? && c'.value == c;
    var paid := items[c := items[c].(count := items[c].count - offer.price)];
    NamesKept(items, paid, offer.name);
  }

  /** Changing counts keeps the first entry of every name where it was. */
  lemma NamesKept(items: seq<Item>, items': seq<Item>, name: string)
    requires |items'| == |items| && forall i :: 0 <= i < |items| ==> items'[i].name == items[i].name
    ensures FirstNamed(items', name) == FirstNamed(items, name)
    decreases |items|
  {
    if items != [] {
      NamesKept(items[1..], items'[1..], name);
    }
  }

  /** The coins plus the bought items' worth never change: what leaves the
      coin entry is the price of what was added. */
  lemma PurchaseKeepsCount(items: seq<Item>, offer: Offer)
    requires offer.name != COINS
    ensures Purchase(items, offer).1 ==>
      Total(Purchase(items, offer).0) == Total(items) - offer.price + 1
    ensures !Purchase(items, offer).1 ==> Total(Purchase(items, offer).0) == Total(items)
  {
    var c := FirstNamed(items, COINS);
    if c.Some? && items[c.value].count >= offer.price {
      var paid := items[c.value := items[c.value].(count := items[c.value].count - offer.price)];
      TotalUpdate(items, c.value, paid[c.value]);
      var k := FirstNamed(paid, offer.name);
      if k.Some? {
        var bought := paid[k.value := paid[k.value].(count := paid[k.value].count + 1)];
        TotalUpdate(paid, k.value, bought[k.value]);
        assert Purchase(items, offer) == (bought, true);
      } else {
        var bought := paid + [Item(offer.name, 1, offer.spritePath)];
        TotalAppend(paid, Item(offer.name, 1, offer.spritePath));
        assert Purchase(items, offer) == (bought, true);
      }
    } else {
      assert Purchase(items, offer) == (items, false);
    }
  }

  /** The sum of all counts in the list. */
  function Total(items: seq<Item>): int
    decreases |items|
  {
    if items == [] then 0 else Total(items[..|items| - 1]) + items[|items| - 1].count
  }

  lemma {:induction false} TotalUpdate(items: seq<Item>, i: nat, e: Item)
    requires i < |items|
    ensures Total(items[i := e]) == Total(items) - items[i].count + e.count
    decreases |items|
  {
    var n := |items| - 1;
    var items' := items[i := e];
    assert items'[..n] == if i == n then items[..n] else items[..n][i := e];
    if i < n {
      TotalUpdate(items[..n], i, e);
    }
  }

  lemma TotalAppend(items: seq<Item>, e: Item)
    ensures Total(items + [e]) == Total(items) + e.count
  {
    assert (items + [e])[..|items|] == items;
  }

  // ---------------------------------------------------------------------------
  // The message timer

  /** The message and its timer. */
  datatype Notice = Notice(message: string, timer: real)

  /** The timer part of update, as written: count down, and clear the message
      only once the timer has gone below zero. */
  function Tick(n: Notice, dt: real): Notice {
    if n.timer > 0.0 then
      var t := n.timer - dt;
      if t < 0.0 then Notice("", 0.0) else Notice(n.message, t)
    else n
  }

  function Ticks(n: Notice, dts: seq<real>): Notice
    decreases |dts|
  {
    if dts == [] then n else Ticks(Tick(n, dts[0]), dts[1..])
  }

  function Sum(dts: seq<real>): real
    decreases |dts|
  {
    if dts == [] then 0.0 else dts[0] + Sum(dts[1..])
  }

  predicate NonNegative(dts: seq<real>) {
    forall i :: 0 <= i < |dts| ==> dts[i] >= 0.0
  }

  /** The message stays up while less time than the timer has passed. */
  lemma {:induction false} MessageShownWhileTimerRuns(n: Notice, dts: seq<real>)
    requires NonNegative(dts) && Sum(dts) < n.timer
    ensures Ticks(n, dts).message == n.message
    ensures Ticks(n, dts).timer == n.timer - Sum(dts)
    decreases |dts|
  {
    if dts != [] {
      assert NonNegative(dts[1..]) by {
        forall i | 0 <= i < |dts| - 1 ensures dts[1..][i] >= 0.0 {
          assert dts[1..][i] == dts[i + 1];
        }
      }
      SumNonNegative(dts[1..]);
      MessageShownWhileTimerRuns(Tick(n, dts[0]), dts[1..]);
    }
  }

  lemma {:induction false} SumNonNegative(dts: seq<real>)
    requires NonNegative(dts)
    ensures Sum(dts) >= 0.0
    decreases |dts|
  {
    if dts != [] {
      assert NonNegative(dts[1..]) by {
        forall i | 0 <= i < |dts| - 1 ensures dts[1..][i] >= 0.0 {
          assert dts[1..][i] == dts[i + 1];
        }
      }
      SumNonNegative(dts[1..]);
    }
  }

  /** As written, a timer that reaches exactly zero keeps its message for
      good: after a two-second message and two one-second frames the text
      is never cleared by later frames. */
  lemma {:induction false} MessageStuckAtZero(msg: string, later: seq<real>)
    ensures Ticks(Notice(msg, MESSAGE_SECONDS), [1.0, 1.0] + later).message == msg
  {
    var n := Notice(msg, MESSAGE_SECONDS);
    assert Tick(n, 1.0) == Notice(msg, 1.0);
    assert Tick(Notice(msg, 1.0), 1.0) == Notice(msg, 0.0);
    assert ([1.0, 1.0] + later)[1..] == [1.0] + later;
    assert ([1.0] + later)[1..] == later;
    StoppedStaysStopped(Notice(msg, 0.0), later);
  }

  lemma {:induction false} StoppedStaysStopped(n: Notice, dts: seq<real>)
    requires n.timer <= 0.0
    ensures Ticks(n, dts) == n
    decreases |dts|
  {
    if dts != [] {
      StoppedStaysStopped(Tick(n, dts[0]), dts[1..]);
    }
  }

  /** The timer step as evidently intended: clear the message once the timer
      has run out, including when it lands on exactly zero. */
  function TickToZero(n: Notice, dt: real): Notice {
    if n.timer > 0.0 then
      var t := n.timer - dt;
      if t <= 0.0 then Notice("", 0.0) else Notice(n.message, t)
    else n
  }

  function TicksToZero(n: Notice, dts: seq<real>): Notice
    decreases |dts|
  {
    if dts == [] then n else TicksToZero(TickToZero(n, dts[0]), dts[1..])
  }

  /** With the corrected step, a message whose timer was running is gone once
      frames adding up to the timer have passed. */
  lemma {:induction false} MessageClearedAfterTimer(n: Notice, dts: seq<real>)
    requires n.timer > 0.0 && NonNegative(dts) && Sum(dts) >= n.timer
    ensures TicksToZero(n, dts) == Notice("", 0.0)
    decreases |dts|
  {
    var n1 := TickToZero(n, dts[0]);
    assert NonNegative(dts[1..]) by {
      forall i | 0 <= i < |dts| - 1 ensures dts[1..][i] >= 0.0 {
        assert dts[1..][i] == dts[i + 1];
      }
    }
    if n1.timer > 0.0 {
      MessageClearedAfterTimer(n1, dts[1..]);
    } else {
      ClearedStaysCleared(dts[1..]);
    }
  }

  lemma {:induction false} ClearedStaysCleared(dts: seq<real>)
    ensures TicksToZero(Notice("", 0.0), dts) == Notice("", 0.0)
    decreases |dts|
  {
    if dts != [] {
      ClearedStaysCleared(dts[1..]);
    }
  }

  // ---------------------------------------------------------------------------
  // The overlay's buttons: one buy button per catalogue entry, then the close
  // button.

  const PANEL_WIDTH := 600
  const PANEL_HEIGHT := 500
  /** The index of the close button, after the buy buttons. */
  const CLOSE := |Catalogue|

  /** The hitboxes init_shop_items and the constructor give the buttons, for
      a panel whose corner is (x, y). */
  function ShopHitboxes(x: int, y: int): (r: seq<Rect>)
    ensures |r| == CLOSE + 1
  {
    seq(|Catalogue|, idx requires 0 <= idx < |Catalogue| => Rect(x + PANEL_WIDTH - 140, y + 80 + idx * (80 + 10) + 10, 100, 50))
    + [Rect(x + PANEL_WIDTH / 2 - 50, y + PANEL_HEIGHT - 70, 100, 50)]
  }

  /** What a frame of the overlay changes: the bag's items, the notice and
      whether the overlay is shown. */
  datatype ShopState = ShopState(items: seq<Item>, shown: Notice, visible: bool)

  /** The callback of button `i`: a buy button runs buy_item on its offer,
      the close button hides the overlay. */
  function Callback(t: ShopState, i: nat): ShopState {
    if i < |Catalogue| then
      var (items, ok) := Purchase(t.items, Catalogue[i]);
      ShopState(items, Notice(if ok then BoughtMessage(Catalogue[i].name) else NO_COINS_MESSAGE, MESSAGE_SECONDS), t.visible)
    else ShopState(t.items, t.shown, false)
  }

  /** The callbacks of the clicked buttons, run in order. */
  function Callbacks(t: ShopState, clicked: seq<nat>): ShopState
    decreases |clicked|
  {
    if clicked == [] then t else Callback(Callbacks(t, clicked[..|clicked| - 1]), clicked[|clicked| - 1])
  }

  /** The overlay stays shown after a frame's callbacks iff it was shown and
      no close button was clicked; the close button keeps the bag and the
      notice as they were. */
  lemma {:induction false} CallbacksVisible(t: ShopState, clicked: seq<nat>)
    ensures Callbacks(t, clicked).visible <==> t.visible && forall k :: 0 <= k < |clicked| ==> clicked[k] < CLOSE
    decreases |clicked|
  {
    if clicked != [] {
      var n := |clicked| - 1;
      var prev := Callbacks(t, clicked[..n]);
      assert Callbacks(t, clicked) == Callback(prev, clicked[n]);
      CallbacksVisible(t, clicked[..n]);
      CallbackEffect(prev, clicked[n]);
      assert forall k :: 0 <= k < n ==> clicked[..n][k] == clicked[k];
    }
  }

  lemma CallbackEffect(t: ShopState, i: nat)
    ensures Callback(t, i).visible <==> t.visible && i < |Catalogue|
    ensures i < |Catalogue| ==> Callback(t, i).items == Purchase(t.items, Catalogue[i]).0 && Callback(t, i).visible == t.visible
    ensures i < |Catalogue| ==> Callback(t, i).shown.timer == MESSAGE_SECONDS
    ensures i >= |Catalogue| ==> Callback(t, i) == t.(visible := false)
  {
  }

  /** The indices of the buttons whose click goes through in one frame, in
      button order, given their latches before the frame. */
  function ClickedButtons(hitboxes: seq<Rect>, latches: seq<Widgets.Latch>, mouseX: int, mouseY: int, pressed: bool): seq<nat>
    requires |latches| == |hitboxes|
    decreases |hitboxes|
  {
    if hitboxes == [] then []
    else
      var n := |hitboxes| - 1;
      ClickedButtons(hitboxes[..n], latches[..n], mouseX, mouseY, pressed) +
      (if Widgets.LatchStep(latches[n], hitboxes[n].CollidePoint(mouseX, mouseY), pressed).1 then [n] else [])
  }

  /** Every button's latch after the frame. */
  function LatchesStep(hitboxes: seq<Rect>, latches: seq<Widgets.Latch>, mouseX: int, mouseY: int, pressed: bool): (r: seq<Widgets.Latch>)
    requires |latches| == |hitboxes|
    ensures |r| == |hitboxes|
  {
    seq(|hitboxes|, i requires 0 <= i < |hitboxes| => Widgets.LatchStep(latches[i], hitboxes[i].CollidePoint(mouseX, mouseY), pressed).0)
  }

  lemma ClickedButtonsSnoc(hitboxes: seq<Rect>, latches: seq<Widgets.Latch>, i: int, mouseX: int, mouseY: int, pressed: bool)
    requires |latches| == |hitboxes| && 0 <= i < |hitboxes|
    ensures ClickedButtons(hitboxes[..i + 1], latches[..i + 1], mouseX, mouseY, pressed) ==
            ClickedButtons(hitboxes[..i], latches[..i], mouseX, mouseY, pressed) +
            (if Widgets.LatchStep(latches[i], hitboxes[i].CollidePoint(mouseX, mouseY), pressed).1 then [i] else [])
  {
    assert hitboxes[..i + 1][..i] == hitboxes[..i] && latches[..i + 1][..i] == latches[..i];
  }

  predicate Increasing(s: seq<nat>) {
    forall k, m :: 0 <= k < m < |s| ==> s[k] < s[m]
  }

  /** Button `i` is clicked in a frame exactly when the mouse is pressed over
      it and its latch is open; the clicked buttons come in increasing
      order, so no button runs its callback twice in a frame. */
  lemma {:induction false} ClickedButtonsExactly(hitboxes: seq<Rect>, latches: seq<Widgets.Latch>, mouseX: int, mouseY: int, pressed: bool)
    requires |latches| == |hitboxes|
    ensures forall i :: i in ClickedButtons(hitboxes, latches, mouseX, mouseY, pressed) <==>
      0 <= i < |hitboxes| && hitboxes[i].CollidePoint(mouseX, mouseY) && pressed && !latches[i].wasClicked
    ensures Increasing(ClickedButtons(hitboxes, latches, mouseX, mouseY, pressed))
    decreases |hitboxes|
  {
    if hitboxes != [] {
      var n := |hitboxes| - 1;
      ClickedButtonsExactly(hitboxes[..n], latches[..n], mouseX, mouseY, pressed);
      var c0 := ClickedButtons(hitboxes[..n], latches[..n], mouseX, mouseY, pressed);
      var fires := Widgets.LatchStep(latches[n], hitboxes[n].CollidePoint(mouseX, mouseY), pressed).1;
      assert ClickedButtons(hitboxes, latches, mouseX, mouseY, pressed) == c0 + (if fires then [n] else []);
      forall i | 0 <= i < n
        ensures hitboxes[..n][i] == hitboxes[i] && latches[..n][i] == latches[i]
      {
      }
      forall k | 0 <= k < |c0|
        ensures c0[k] < n
      {
        assert c0[k] in c0;
      }
      var c := c0 + (if fires then [n] else []);
      forall k, m | 0 <= k < m < |c|
        ensures c[k] < c[m]
      {
        assert c[k] == c0[k];
        if m < |c0| {
          assert c[m] == c0[m];
        } else {
          assert c[m] == n;
        }
      }
    }
  }

  /** Holding the mouse buys once: a button clicked in one frame is not
      clicked again in the next frame while the mouse stays pressed,
      wherever it is. */
  lemma HeldMouseBuysOnce(hitboxes: seq<Rect>, latches: seq<Widgets.Latch>, x1: int, y1: int, x2: int, y2: int, i: nat)
    requires |latches| == |hitboxes|
    requires i in ClickedButtons(hitboxes, latches, x1, y1, true)
    ensures i !in ClickedButtons(hitboxes, LatchesStep(hitboxes, latches, x1, y1, true), x2, y2, true)
  {
    ClickedButtonsExactly(hitboxes, latches, x1, y1, true);
    ClickedButtonsExactly(hitboxes, LatchesStep(hitboxes, latches, x1, y1, true), x2, y2, true);
  }

  // ---------------------------------------------------------------------------
  // The overlay

  class ShopOverlay {
    var visible: bool
    var message: string
    var messageTimer: real
    /** The game manager's bag, shared with the rest of the game. */
    const bag: Bag
    /** The panel's corner, centred on the screen. */
    const x: int
    const y: int
    /** The buy buttons in catalogue order, then the close button. */
    const buttons: seq<Widgets.HoverButton>

    function Shown(): Notice
      reads this
    {
      Notice(message, messageTimer)
    }

    function State(): ShopState
      reads this, bag
    {
      ShopState(bag.items, Shown(), visible)
    }

    function Hitboxes(): (r: seq<Rect>)
      ensures |r| == |buttons|
    {
      seq(|buttons|, i requires 0 <= i < |buttons| => buttons[i].hitbox)
    }

    function Latches(): (r: seq<Widgets.Latch>)
      reads set b | b in buttons
      ensures |r| == |buttons|
    {
      seq(|buttons|, i requires 0 <= i < |buttons| reads set b | b in buttons => buttons[i].State())
    }

    /** One buy button per offer and the close button, each its own object
        and each with a callback. */
    predicate Valid() {
      |buttons| == CLOSE + 1 &&
      (forall i, j :: 0 <= i < j < |buttons| ==> buttons[i] != buttons[j]) &&
      (forall i :: 0 <= i < |buttons| ==> buttons[i].hasCallback)
    }

    constructor (b: Bag, screenWidth: int, screenHeight: int)
      ensures bag == b && !visible && Shown() == Notice("", 0.0)
      ensures x == (screenWidth - PANEL_WIDTH) / 2 && y == (screenHeight - PANEL_HEIGHT) / 2
      ensures Valid() && Hitboxes() == ShopHitboxes(x, y)
      ensures forall i :: 0 <= i < |buttons| ==> buttons[i].State() == Widgets.Latch(false, Widgets.DefaultImage, false)
    {
      bag := b;
      visible := false;
      message, messageTimer := "", 0.0;
      var x0 := (screenWidth - PANEL_WIDTH) / 2;
      var y0 := (screenHeight - PANEL_HEIGHT) / 2;
      x, y := x0, y0;
      var boxes := ShopHitboxes(x0, y0);
      var made: seq<Widgets.HoverButton> := [];
      for i := 0 to CLOSE + 1
        invariant |made| == i
        invariant forall j :: 0 <= j < i ==> made[j].hitbox == boxes[j] && made[j].hasCallback
        invariant forall j :: 0 <= j < i ==> made[j].State() == Widgets.Latch(false, Widgets.DefaultImage, false)
        invariant forall j, k :: 0 <= j < k < i ==> made[j] != made[k]
      {
        var r := boxes[i];
        var button := new Widgets.HoverButton(r.x, r.y, r.w, r.h, true, None, None);
        made := made + [button];
      }
      buttons := made;
    }

    /** set_message: show a text for two seconds. */
    method SetMessage(text: string)
      modifies this
      ensures Shown() == Notice(text, MESSAGE_SECONDS) && visible == old(visible)
    {
      message := text;
      messageTimer := MESSAGE_SECONDS;
    }

    /** buy_item for the catalogue entry behind button `index`. */
    method BuyItem(index: nat)
      requires index < |Catalogue|
      modifies this, bag
      ensures bag.items == Purchase(old(bag.items), Catalogue[index]).0
      ensures bag.monsters == old(bag.monsters) && visible == old(visible)
      ensures Shown() == Notice(if Purchase(old(bag.items), Catalogue[index]).1 then BoughtMessage(Catalogue[index].name)
                                else NO_COINS_MESSAGE, MESSAGE_SECONDS)
    {
      var offer := Catalogue[index];
      var items := bag.items;
      var coin: Option<nat> := None;
      for i := 0 to |items|
        invariant forall j :: 0 <= j < i ==> items[j].name != COINS
      {
        if items[i].name == COINS {
          coin := Some(i);
          break;
        }
      }
      assert coin == FirstNamed(items, COINS);
      if coin.Some? && items[coin.value].count >= offer.price {
        items := items[coin.value := items[coin.value].(count := items[coin.value].count - offer.price)];
        var found: Option<nat> := None;
        for i := 0 to |items|
          invariant forall j :: 0 <= j < i ==> items[j].name != offer.name
        {
          if items[i].name == offer.name {
            found := Some(i);
            break;
          }
        }
        assert found == FirstNamed(items, offer.name);
        if found.Some? {
          items := items[found.value := items[found.value].(count := items[found.value].count + 1)];
        } else {
          items := items + [Item(offer.name, 1, offer.spritePath)];
        }
        bag.items := items;
        SetMessage(BoughtMessage(offer.name));
      } else {
        SetMessage(NO_COINS_MESSAGE);
      }
    }

    /** close_overlay, as far as the overlay itself goes; the call back into
        the game scene is modelled there. */
    method CloseOverlay()
      modifies this
      ensures !visible && Shown() == old(Shown())
    {
      visible := false;
    }

    /** One button's update inside update, with its callback when it is
        clicked: buy_item for a buy button, close_overlay for the close
        button. */
    method PressButton(i: nat, mouseX: int, mouseY: int, pressed: bool) returns (called: bool)
      requires Valid() && i < |buttons|
      modifies this, bag, buttons[i]
      ensures var step := Widgets.LatchStep(old(buttons[i].State()), buttons[i].hitbox.CollidePoint(mouseX, mouseY), pressed);
        buttons[i].State() == step.0 && called == step.1
      ensures State() == if called then Callback(old(State()), i) else old(State())
      ensures bag.monsters == old(bag.monsters)
    {
      called := buttons[i].Update(mouseX, mouseY, pressed);
      if called {
        if i < CLOSE {
          BuyItem(i);
        } else {
          CloseOverlay();
        }
      }
    }

    /** The button loop of update: every button in order, with the
        callbacks of those clicked (`clicked`, their indices). */
    method RunButtons(mouseX: int, mouseY: int, pressed: bool) returns (clicked: seq<nat>)
      requires Valid()
      modifies this, bag, set b | b in buttons
      ensures clicked == ClickedButtons(Hitboxes(), old(Latches()), mouseX, mouseY, pressed)
      ensures Latches() == LatchesStep(Hitboxes(), old(Latches()), mouseX, mouseY, pressed)
      ensures State() == Callbacks(old(State()), clicked)
      ensures bag.monsters == old(bag.monsters)
    {
      clicked := [];
      ghost var boxes := Hitboxes();
      ghost var latches0 := Latches();
      ghost var latches1 := LatchesStep(boxes, latches0, mouseX, mouseY, pressed);
      for i := 0 to |buttons|
        invariant clicked == ClickedButtons(boxes[..i], latches0[..i], mouseX, mouseY, pressed)
        invariant State() == Callbacks(old(State()), clicked)
        invariant bag.monsters == old(bag.monsters)
        invariant forall j :: 0 <= j < i ==> buttons[j].State() == latches1[j]
        invariant forall j :: i <= j < |buttons| ==> buttons[j].State() == latches0[j]
      {
        var called := PressButton(i, mouseX, mouseY, pressed);
        assert buttons[i].State() == latches1[i];
        ClickedButtonsSnoc(boxes, latches0, i, mouseX, mouseY, pressed);
        if called {
          assert Callbacks(old(State()), clicked + [i]) == Callback(Callbacks(old(State()), clicked), i) by {
            assert (clicked + [i])[..|clicked|] == clicked;
          }
          clicked := clicked + [i];
        }
      }
      assert boxes[..|buttons|] == boxes && latches0[..|buttons|] == latches0;
      assert Latches() == latches1;
    }

    /** update: nothing while hidden; otherwise every button is updated in
        order and the callbacks of the clicked ones run, then the message
        timer runs as written. `closed` reports that the close button asked
        the game scene to close its page. */
    method Update(dt: real, mouseX: int, mouseY: int, pressed: bool) returns (clicked: seq<nat>, closed: bool)
      requires Valid()
      modifies this, bag, set b | b in buttons
      ensures clicked == if old(visible) then ClickedButtons(Hitboxes(), old(Latches()), mouseX, mouseY, pressed) else []
      ensures Latches() == if old(visible) then LatchesStep(Hitboxes(), old(Latches()), mouseX, mouseY, pressed) else old(Latches())
      ensures var t := Callbacks(old(State()), clicked);
        State() == if old(visible) then t.(shown := Tick(t.shown, dt)) else old(State())
      ensures closed <==> CLOSE in clicked
      ensures bag.monsters == old(bag.monsters)
    {
      clicked, closed := [], false;
      if !visible {
        return;
      }
      clicked := RunButtons(mouseX, mouseY, pressed);
      closed := CLOSE in clicked;
      if messageTimer > 0.0 {
        messageTimer := messageTimer - dt;
        if messageTimer < 0.0 {
          messageTimer := 0.0;
          message := "";
        }
      }
    }
  }
}
