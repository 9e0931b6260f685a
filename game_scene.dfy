/** The overworld scene (src/scenes/game_scene.py): which overlay page is
    open, what the E key does, and the per-frame selection of enemy trainers
    to warn about and of the closest one. */
module GameScene {
  import opened Common
  import opened ShopNpc
  import opened Backpack
  import Shop

  /** overlay_type: None, "setting" or "backpack". */
  datatype Overlay = NoOverlay | SettingPage | BackpackPage

  /** The overlay state: the scene's overlay_type and the backpack's
      visibility flag. */
  datatype Overlays = Overlays(kind: Overlay, backpackVisible: bool)

  /** open_setting_overlay */
  function OpenSettingStep(o: Overlays): (o': Overlays)
    ensures o'.kind == SettingPage && o'.backpackVisible == o.backpackVisible
  {
    o.(kind := SettingPage)
  }

  /** open_backpack_overlay */
  function OpenBackpackStep(o: Overlays): (o': Overlays)
    ensures o'.kind == BackpackPage && o'.backpackVisible
  {
    Overlays(BackpackPage, true)
  }

  /** close_overlay: no page is open afterwards, and the backpack is hidden
      exactly when it was the open page. */
  function CloseStep(o: Overlays): (o': Overlays)
    ensures o'.kind == NoOverlay
    ensures o'.backpackVisible <==> o.backpackVisible && o.kind != BackpackPage
  {
    if o.kind == BackpackPage then Overlays(NoOverlay, false) else o.(kind := NoOverlay)
  }

  /** The setting overlay's own close_overlay only resets overlay_type. */
  function ResetStep(o: Overlays): (o': Overlays)
    ensures o'.kind == NoOverlay && o'.backpackVisible == o.backpackVisible
  {
    o.(kind := NoOverlay)
  }

  /** The backpack page is current only while the backpack is visible.
      (The converse fails from the start: the backpack overlay is created
      visible with no page open.) */
  predicate Consistent(o: Overlays) {
    o.kind == BackpackPage ==> o.backpackVisible
  }

  /** Every page switch leaves a consistent state, whatever state it starts
      from, so the invariant holds after any switch. */
  lemma StepsKeepConsistent(o: Overlays)
    ensures Consistent(OpenBackpackStep(o))
    ensures Consistent(CloseStep(o))
    ensures Consistent(OpenSettingStep(o))
    ensures Consistent(ResetStep(o))
  {
  }

  /** Opening a page and closing it again leaves no page open; the settings
      page leaves the backpack flag as it was. Closing twice is closing once. */
  lemma OpenThenClose(o: Overlays)
    ensures CloseStep(OpenBackpackStep(o)) == Overlays(NoOverlay, false)
    ensures CloseStep(OpenSettingStep(o)) == Overlays(NoOverlay, o.backpackVisible)
    ensures CloseStep(CloseStep(o)) == CloseStep(o)
  {
  }

  /** The two ways of closing agree except on the backpack page, where only
      the scene's close_overlay hides the backpack. */
  lemma ResetAgreesWithClose(o: Overlays)
    ensures ResetStep(o) == CloseStep(o) <==> o.kind != BackpackPage || !o.backpackVisible
  {
  }

  // ---------------------------------------------------------------------
  // The E key

  /** What pressing E does. ShopNPC defines no open_shop, so the first
      branch ends in the AttributeError the game raises there; the model
      reports which NPC was touched. */
  datatype Interaction = Nothing | OpenShop(npc: nat) | StartBattle | StartCatch

  /** The index of the first rectangle that overlaps `r`. */
  function FirstOverlap(r: Rect, rects: seq<Rect>): (k: Option<nat>)
    ensures k.None? <==> forall i :: 0 <= i < |rects| ==> !r.CollideRect(rects[i])
    ensures k.Some? ==> k.value < |rects| && r.CollideRect(rects[k.value]) &&
                        forall i :: 0 <= i < k.value ==> !r.CollideRect(rects[i])
  {
    if rects == [] then None
    else if r.CollideRect(rects[0]) then Some(0)
    else
      var k := FirstOverlap(r, rects[1..]);
      if k.None? then None else Some(k.value + 1)
  }

  function NpcRects(npcs: seq<Npc>): (rs: seq<Rect>)
    ensures |rs| == |npcs| && forall i :: 0 <= i < |npcs| ==> rs[i] == npcs[i].rect
  {
    seq(|npcs|, i requires 0 <= i < |npcs| => npcs[i].rect)
  }

  /** The E-key branch of update, given the player's rectangle, the NPCs,
      the bushes and the closest enemy as last selected. */
  function EKey(kind: Overlay, pressed: bool, player: Rect, npcs: seq<Npc>, bushes: seq<Rect>,
                closest: Option<nat>): Interaction
  {
    if kind != NoOverlay || !pressed then Nothing
    else
      var n := FirstOverlap(player, NpcRects(npcs));
      if n.Some? then OpenShop(n.value)
      else if closest.Some? then StartBattle
      else if FirstOverlap(player, bushes).Some? then StartCatch
      else Nothing
  }

  /** E does nothing while a page is open. Otherwise an overlapping NPC
      comes first (the first one in the list), then a selected enemy, then
      an overlapping bush. */
  lemma EKeyPriority(kind: Overlay, pressed: bool, player: Rect, npcs: seq<Npc>, bushes: seq<Rect>,
                     closest: Option<nat>)
    ensures var a := EKey(kind, pressed, player, npcs, bushes, closest);
      var touchesNpc := exists i :: 0 <= i < |npcs| && player.CollideRect(npcs[i].rect);
      var touchesBush := exists i :: 0 <= i < |bushes| && player.CollideRect(bushes[i]);
      (kind != NoOverlay || !pressed ==> a == Nothing) &&
      (a.OpenShop? <==> kind == NoOverlay && pressed && touchesNpc) &&
      (a.OpenShop? ==> a.npc < |npcs| && player.CollideRect(npcs[a.npc].rect) &&
                       forall i :: 0 <= i < a.npc ==> !player.CollideRect(npcs[i].rect)) &&
      (a == StartBattle <==> kind == NoOverlay && pressed && !touchesNpc && closest.Some?) &&
      (a == StartCatch <==> kind == NoOverlay && pressed && !touchesNpc && closest.None? && touchesBush)
  {
    var rs := NpcRects(npcs);
    if exists i :: 0 <= i < |npcs| && player.CollideRect(npcs[i].rect) {
      var i :| 0 <= i < |npcs| && player.CollideRect(npcs[i].rect);
      assert player.CollideRect(rs[i]);
    }
  }

  // ---------------------------------------------------------------------
  // Enemy warnings

  /** The warning radius, in pixels. */
  const WARNING_RADIUS := 120

  function DistSq(a: Rect, b: Rect): int {
    var dx, dy := a.CenterX() - b.CenterX(), a.CenterY() - b.CenterY();
    dx * dx + dy * dy
  }

  predicate InRange(player: Rect, enemy: Rect) {
    DistSq(player, enemy) <= WARNING_RADIUS * WARNING_RADIUS
  }

  /** The enemies within the warning radius, in list order. */
  function Warnings(player: Rect, enemies: seq<Rect>): seq<Rect> {
    if enemies == [] then []
    else
      var last := enemies[|enemies| - 1];
      Warnings(player, enemies[..|enemies| - 1]) + if InRange(player, last) then [last] else []
  }

  /** Exactly the enemies in range are warned about. */
  lemma {:induction false} WarningsExactly(player: Rect, enemies: seq<Rect>)
    ensures forall r :: r in Warnings(player, enemies) <==>
      exists i :: 0 <= i < |enemies| && enemies[i] == r && InRange(player, r)
    ensures |Warnings(player, enemies)| <= |enemies|
  {
    if enemies != [] {
      var init, last := enemies[..|enemies| - 1], enemies[|enemies| - 1];
      WarningsExactly(player, init);
      forall r ensures r in Warnings(player, enemies) <==>
        exists i :: 0 <= i < |enemies| && enemies[i] == r && InRange(player, r)
      {
        if r in Warnings(player, init) {
          var i :| 0 <= i < |init| && init[i] == r && InRange(player, r);
          assert enemies[i] == r;
        }
        if exists i :: 0 <= i < |enemies| && enemies[i] == r && InRange(player, r) {
          var i :| 0 <= i < |enemies| && enemies[i] == r && InRange(player, r);
          if i < |init| {
            assert init[i] == r;
          }
        }
      }
    }
  }

  /** `c` is the closest-enemy choice among the first `n` enemies: None if
      none of them is in range, otherwise an in-range enemy at the minimal
      squared distance that no earlier in-range enemy ties. */
  predicate SelectsUpTo(player: Rect, enemies: seq<Rect>, n: nat, c: Option<nat>)
    requires n <= |enemies|
  {
    (c.None? <==> forall j :: 0 <= j < n ==> !InRange(player, enemies[j])) &&
    (c.Some? ==>
      c.value < n && InRange(player, enemies[c.value]) &&
      (forall j :: 0 <= j < n && InRange(player, enemies[j]) ==>
         DistSq(player, enemies[c.value]) <= DistSq(player, enemies[j])) &&
      (forall j :: 0 <= j < c.value && InRange(player, enemies[j]) ==>
         DistSq(player, enemies[c.value]) < DistSq(player, enemies[j])))
  }

  predicate Selects(player: Rect, enemies: seq<Rect>, c: Option<nat>) {
    SelectsUpTo(player, enemies, |enemies|, c)
  }

  /** The choice is determined: at most one index satisfies the description. */
  lemma SelectionIsUnique(player: Rect, enemies: seq<Rect>, c1: Option<nat>, c2: Option<nat>)
    requires Selects(player, enemies, c1) && Selects(player, enemies, c2)
    ensures c1 == c2
  {
    if c1.Some? && c2.Some? {
      var i, j := c1.value, c2.value;
      assert DistSq(player, enemies[i]) <= DistSq(player, enemies[j]) <= DistSq(player, enemies[i]);
    }
  }

  /** The closest enemy is one of those warned about. */
  lemma ClosestIsWarned(player: Rect, enemies: seq<Rect>, c: Option<nat>)
    requires Selects(player, enemies, c) && c.Some?
    ensures enemies[c.value] in Warnings(player, enemies)
  {
    WarningsExactly(player, enemies);
  }

  /** The scan in update: reset the warnings and the choice, then walk the
      enemies in order, warning about those in range and keeping the first
      one at the smallest squared distance seen so far (strict `<`). */
  method ScanEnemies(player: Rect, enemies: seq<Rect>) returns (warnings: seq<Rect>, closest: Option<nat>)
    ensures warnings == Warnings(player, enemies)
    ensures Selects(player, enemies, closest)
  {
    warnings, closest := [], None;
    var minDistSq: Option<int> := None;
    for i := 0 to |enemies|
      invariant warnings == Warnings(player, enemies[..i])
      invariant SelectsUpTo(player, enemies, i, closest)
      invariant minDistSq.Some? <==> closest.Some?
      invariant closest.Some? ==> minDistSq.value == DistSq(player, enemies[closest.value])
    {
      assert enemies[..i + 1][..i] == enemies[..i];
      var d := DistSq(player, enemies[i]);
      if d <= WARNING_RADIUS * WARNING_RADIUS {
        warnings := warnings + [enemies[i]];
        if minDistSq.None? || d < minDistSq.value {
          minDistSq := Some(d);
          closest := Some(i);
        }
      }
    }
    assert enemies[..|enemies|] == enemies;
  }

  // ---------------------------------------------------------------------
  // The scene

  /** Where the bushes lie, in tiles from the player's starting corner. */
  const BUSH_OFFSETS: seq<(int, int)> :=
    [(-7, 0), (11, 0), (7, 4), (14, 0), (26, -1), (28, 3), (33, 1), (35, 3), (31, 6), (7, 7)]

  /** The bush rectangles for a player whose corner is at (px, py). */
  function Bushes(px: int, py: int): seq<Rect> {
    seq(|BUSH_OFFSETS|, i requires 0 <= i < |BUSH_OFFSETS| =>
      Rect(px + BUSH_OFFSETS[i].0 * TILE_SIZE, py + BUSH_OFFSETS[i].1 * TILE_SIZE, TILE_SIZE, TILE_SIZE))
  }

  /** No two bushes overlap, and none overlaps the tile the player starts on. */
  lemma BushesApart(px: int, py: int)
    ensures forall i, j :: 0 <= i < j < |Bushes(px, py)| ==> !Bushes(px, py)[i].CollideRect(Bushes(px, py)[j])
    ensures forall i :: 0 <= i < |Bushes(px, py)| ==>
      !Rect(px, py, TILE_SIZE, TILE_SIZE).CollideRect(Bushes(px, py)[i])
  {
    var bs := Bushes(px, py);
    forall i, j | 0 <= i < j < |bs| ensures !bs[i].CollideRect(bs[j]) {
      TilesApart(px, py, BUSH_OFFSETS[i], BUSH_OFFSETS[j]);
    }
    forall i | 0 <= i < |bs| ensures !Rect(px, py, TILE_SIZE, TILE_SIZE).CollideRect(bs[i]) {
      TilesApart(px, py, (0, 0), BUSH_OFFSETS[i]);
    }
  }

  /** Tile-sized squares at different whole-tile offsets do not overlap. */
  lemma TilesApart(px: int, py: int, a: (int, int), b: (int, int))
    requires a != b
    ensures !Rect(px + a.0 * TILE_SIZE, py + a.1 * TILE_SIZE, TILE_SIZE, TILE_SIZE).CollideRect(
              Rect(px + b.0 * TILE_SIZE, py + b.1 * TILE_SIZE, TILE_SIZE, TILE_SIZE))
  {
    StepApart(a.0, b.0);
    StepApart(b.0, a.0);
    StepApart(a.1, b.1);
    StepApart(b.1, a.1);
  }

  lemma StepApart(a: int, b: int)
    ensures a < b ==> a * TILE_SIZE + TILE_SIZE <= b * TILE_SIZE
  {
    if a < b {
      var k: nat := b - a - 1;
      var t: nat := TILE_SIZE;
      assert k * t >= 0;
      assert b * TILE_SIZE == a * TILE_SIZE + TILE_SIZE + k * t;
    }
  }

  /** The shop keeper's tile and sprite. */
  const SHOP_TILE_X := 18
  const SHOP_TILE_Y := 30
  const SHOP_SPRITE := "menu_sprites/menusprite1.png"

  class GameScene {
    var overlayType: Overlay
    const backpack: BackpackOverlay
    const bushes: seq<Rect>
    const shopNpcs: seq<Npc>
    var enemyWarnings: seq<Rect>
    var closestEnemy: Option<nat>

    function Pages(): Overlays
      reads this, backpack
    {
      Overlays(overlayType, backpack.visible)
    }

    /** The scene as built around a loaded manager whose player's corner is
        at (px, py): the bushes around that corner, one shop keeper, no page
        open, no warnings. Loading the save file is not modelled, and the
        screen size comes from the game settings. */
    constructor (px: int, py: int, screenWidth: int, screenHeight: int)
      ensures bushes == Bushes(px, py)
      ensures shopNpcs == [NewNpc(SHOP_TILE_X, SHOP_TILE_Y, SHOP_SPRITE)]
      ensures fresh(backpack) && Pages() == Overlays(NoOverlay, true) && Consistent(Pages())
      ensures backpack.State() == Contents([], [], [])
      ensures enemyWarnings == [] && closestEnemy.None?
    {
      overlayType := NoOverlay;
      backpack := new BackpackOverlay(screenWidth, screenHeight);
      bushes := Bushes(px, py);
      shopNpcs := [NewNpc(SHOP_TILE_X, SHOP_TILE_Y, SHOP_SPRITE)];
      enemyWarnings, closestEnemy := [], None;
    }

    method OpenSettingOverlay()
      modifies this
      ensures Pages() == OpenSettingStep(old(Pages()))
      ensures enemyWarnings == old(enemyWarnings) && closestEnemy == old(closestEnemy)
    {
      overlayType := SettingPage;
    }

    method OpenBackpackOverlay()
      modifies this, backpack
      ensures Pages() == OpenBackpackStep(old(Pages()))
      ensures backpack.State() == old(backpack.State())
      ensures enemyWarnings == old(enemyWarnings) && closestEnemy == old(closestEnemy)
    {
      overlayType := BackpackPage;
      backpack.visible := true;
    }

    method CloseOverlay()
      modifies this, backpack
      ensures Pages() == CloseStep(old(Pages()))
      ensures backpack.State() == old(backpack.State())
      ensures enemyWarnings == old(enemyWarnings) && closestEnemy == old(closestEnemy)
    {
      if overlayType == BackpackPage {
        backpack.visible := false;
      }
      overlayType := NoOverlay;
    }

    /** The setting overlay's close_overlay, which writes the scene's
        overlay_type directly. */
    method ResetOverlayType()
      modifies this
      ensures Pages() == ResetStep(old(Pages()))
      ensures enemyWarnings == old(enemyWarnings) && closestEnemy == old(closestEnemy)
    {
      overlayType := NoOverlay;
    }

    /** The E-key branch and the enemy scan of update. `eRect` is the player
        rectangle the E branch builds (tile-sized); `scanRect` the one the
        scan builds (image-sized), None when the manager has no player. An
        interaction returns from update at once, so the scan of that frame
        does not run and the previous choice stays; and the E branch always
        sees the choice of the previous frame. */
    method Update(ePressed: bool, eRect: Rect, scanRect: Option<Rect>, enemies: seq<Rect>)
      returns (action: Interaction)
      modifies this
      ensures action == EKey(old(overlayType), ePressed, eRect, shopNpcs, bushes, old(closestEnemy))
      ensures action != Nothing ==> enemyWarnings == old(enemyWarnings) && closestEnemy == old(closestEnemy)
      ensures action == Nothing && scanRect.None? ==> enemyWarnings == [] && closestEnemy.None?
      ensures action == Nothing && scanRect.Some? ==>
        enemyWarnings == Warnings(scanRect.value, enemies) && Selects(scanRect.value, enemies, closestEnemy)
      ensures overlayType == old(overlayType)
    {
      action := EKey(overlayType, ePressed, eRect, shopNpcs, bushes, closestEnemy);
      if action != Nothing {
        return;
      }
      enemyWarnings, closestEnemy := [], None;
      if scanRect.Some? {
        enemyWarnings, closestEnemy := ScanEnemies(scanRect.value, enemies);
      }
    }
  }

  /** The shop overlay's close_overlay: hide the shop, then close the
      scene's page if the shop has a scene. */
  method CloseShopOverlay(shop: Shop.ShopOverlay, scene: GameScene?)
    requires scene != null ==> shop != scene.backpack as object
    modifies shop, if scene != null then {scene, scene.backpack} else {}
    ensures !shop.visible && shop.Shown() == old(shop.Shown())
    ensures scene != null ==> scene.Pages() == CloseStep(old(scene.Pages()))
  {
    shop.CloseOverlay();
    if scene != null {
      scene.CloseOverlay();
    }
  }
}
