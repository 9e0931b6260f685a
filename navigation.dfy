/** The navigation overlay (src/scenes/navigation_overlay.py): a few buttons
    that each name a destination; choosing one computes the destination tile
    from the current map's spawn point, finds a route from the player's tile
    and hands it to the player. */
module Navigation {
  import opened Common
  import opened Pathfinder
  import opened Maps
  import opened PlayerEntity
  import opened GameManagerModel

  /** The tile a pixel position lies in (`int(p // TILE_SIZE)` on each axis). */
  function TileOf(p: Position): (t: Tile)
    ensures (t.x * TILE_SIZE) as real <= p.x && (t.y * TILE_SIZE) as real <= p.y
    ensures p.x < ((t.x + 1) * TILE_SIZE) as real && p.y < ((t.y + 1) * TILE_SIZE) as real
  {
    var t := Tile(FloorDiv(p.x, TILE_SIZE), FloorDiv(p.y, TILE_SIZE));
    CellBounds(p.x, t.x);
    CellBounds(p.y, t.y);
    t
  }

  lemma CellBounds(v: real, q: int)
    requires q == FloorDiv(v, TILE_SIZE)
    ensures (q * TILE_SIZE) as real <= v < ((q + 1) * TILE_SIZE) as real
  {
    var d := TILE_SIZE as real;
    var lo, hi := q as real, (q + 1) as real;
    QuotientBounds(v, d, lo, hi);
    IntMulAsReal(q, TILE_SIZE);
    IntMulAsReal(q + 1, TILE_SIZE);
  }

  /** lo <= v/d < hi means lo*d <= v < hi*d, for a positive d. */
  lemma QuotientBounds(v: real, d: real, lo: real, hi: real)
    requires d > 0.0 && lo <= v / d < hi
    ensures lo * d <= v < hi * d
  {
    var r := v / d;
    assert r * d == v;
    ScaleBetween(lo, r, hi, d);
  }

  lemma ScaleBetween(lo: real, r: real, hi: real, d: real)
    requires d > 0.0 && lo <= r < hi
    ensures lo * d <= r * d < hi * d
  {
    MulMonotone(r, lo, d);
    MulMonotone(r, hi, d);
  }

  /** Any pixel of a tile's cell maps back to that tile. */
  lemma TileOfCell(t: Tile, p: Position)
    requires (t.x * TILE_SIZE) as real <= p.x < ((t.x + 1) * TILE_SIZE) as real
    requires (t.y * TILE_SIZE) as real <= p.y < ((t.y + 1) * TILE_SIZE) as real
    ensures TileOf(p) == t
  {
    FloorDivOfCell(t.x, p.x, TILE_SIZE);
    FloorDivOfCell(t.y, p.y, TILE_SIZE);
  }

  /** The destination table: HOME is the spawn tile, SHOP two right and one
      down from it, GYM nine right and six up; other names have none. */
  function GoalTile(name: string, spawn: Position): (g: Option<Tile>)
    ensures g.Some? <==> name in {"HOME", "SHOP", "GYM"}
  {
    var home := TileOf(spawn);
    if name == "HOME" then Some(home)
    else if name == "SHOP" then Some(Tile(home.x + 2, home.y + 1))
    else if name == "GYM" then Some(Tile(home.x + 9, home.y - 6))
    else None
  }

  /** On a map whose spawn was loaded from tile (tx, ty), the destinations are
      fixed offsets from that tile. */
  lemma GoalTilesFromSpawnTile(tx: int, ty: int)
    ensures GoalTile("HOME", SpawnFromTile(tx, ty)) == Some(Tile(tx, ty))
    ensures GoalTile("SHOP", SpawnFromTile(tx, ty)) == Some(Tile(tx + 2, ty + 1))
    ensures GoalTile("GYM", SpawnFromTile(tx, ty)) == Some(Tile(tx + 9, ty - 6))
  {
    SpawnRoundTrip(tx, ty);
  }

  /** What start_navigation did. `Crashed` stands for the exceptions it lets
      escape: a current map key with no map, or no player once a destination
      is known. */
  datatype Outcome = NoManager | Crashed | UnknownTarget | NoPath | Routed(route: seq<Tile>)

  /** start_navigation: with a manager, a known destination and a player, find
      a route from the player's tile and, when there is one, give it to the
      player. The request to close the overlay that follows is not part of
      this model. */
  method StartNavigation(gm: GameManager?, targetName: string) returns (outcome: Outcome)
    modifies if gm != null && gm.player != null then {gm.player} else {}
    ensures gm == null ==> outcome == NoManager
    ensures gm != null && gm.currentMapKey !in gm.maps ==> outcome == Crashed
    ensures gm != null && gm.currentMapKey in gm.maps ==>
      var goal := GoalTile(targetName, gm.maps[gm.currentMapKey].spawn);
      (goal.None? ==> outcome == UnknownTarget) &&
      (goal.Some? && gm.player == null ==> outcome == Crashed) &&
      (goal.Some? && gm.player != null ==>
        var start := TileOf(Position(old(gm.player.x), old(gm.player.y)));
        (outcome == NoPath || outcome.Routed?) &&
        (outcome == NoPath ==> start == goal.value || forall r :: !Reaches(start, r, goal.value, IsBlocked)) &&
        (outcome.Routed? ==> Reaches(start, outcome.route, goal.value, IsBlocked) && start !in outcome.route &&
                             (InBounds(start) && InBounds(goal.value) ==> |outcome.route| == Manhattan(start, goal.value)) &&
                             (forall r :: Reaches(start, r, goal.value, IsBlocked) ==> |outcome.route| <= |r|) &&
                             gm.player.path == outcome.route[1..] && gm.player.isAutoMoving &&
                             gm.player.x == old(gm.player.x) && gm.player.y == old(gm.player.y) &&
                             gm.player.targetTile == old(gm.player.targetTile) &&
                             gm.player.direction == old(gm.player.direction)))
    ensures gm != null && gm.player != null && !outcome.Routed? ==> gm.player.State() == old(gm.player.State())
  {
    if gm == null {
      return NoManager;
    }
    if gm.currentMapKey !in gm.maps {
      return Crashed;
    }
    var currentMap := gm.maps[gm.currentMapKey];
    var player := gm.player;
    var goal := GoalTile(targetName, currentMap.spawn);
    if goal.None? {
      return UnknownTarget;
    }
    if player == null {
      return Crashed;
    }
    var start := TileOf(Position(player.x, player.y));
    var path := FindPathOnMap(start, goal.value);
    if path == [] {
      return NoPath;
    }
    player.SetPath(path);
    return Routed(path);
  }

  /** start_navigation to HOME as the source behaves after try_switch_map,
      which makes the player's position the map's spawn object: every move
      of the player moves the spawn too, so HOME is always the player's own
      tile and no route is ever found. */
  method SharedSpawnGoesNowhere(gm: GameManager) returns (outcome: Outcome)
    requires gm.player != null && gm.currentMapKey in gm.maps
    requires gm.maps[gm.currentMapKey].spawn == Position(gm.player.x, gm.player.y)
    modifies gm.player
    ensures outcome == NoPath
  {
    outcome := StartNavigation(gm, "HOME");
  }

  /** start_navigation to HOME with the spawn kept where the map file put it
      (tile (tx, ty)), as intended: from any other tile of the grid the
      player is given a route that ends on the spawn tile. */
  method FixedSpawnReachesHome(gm: GameManager, tx: int, ty: int) returns (outcome: Outcome)
    requires gm.player != null && gm.currentMapKey in gm.maps
    requires gm.maps[gm.currentMapKey].spawn == SpawnFromTile(tx, ty)
    requires InBounds(Tile(tx, ty)) && InBounds(TileOf(Position(gm.player.x, gm.player.y)))
    requires TileOf(Position(gm.player.x, gm.player.y)) != Tile(tx, ty)
    modifies gm.player
    ensures outcome.Routed? && outcome.route != [] && outcome.route[|outcome.route| - 1] == Tile(tx, ty)
  {
    var start := TileOf(Position(gm.player.x, gm.player.y));
    GoalTilesFromSpawnTile(tx, ty);
    StaircaseIsRoute(start, Tile(tx, ty));
    outcome := StartNavigation(gm, "HOME");
  }

  // ---------------------------------------------------------------------------
  // The overlay's buttons: press over the button, release over it to fire.

  /** The button's two flags. */
  datatype Press = Press(hovered: bool, pressed: bool)

  /** One frame of SimpleNavButton.update: the new flags and whether the
      action fired. */
  function PressStep(s: Press, over: bool, down: bool): (Press, bool) {
    if over then
      if down then (Press(true, true), false)
      else (Press(true, false), s.pressed)
    else (Press(false, false), false)
  }

  /** The action fires exactly on a release over the button after a press,
      and the latch is always open afterwards; leaving the button clears it
      silently. */
  lemma PressStepFires(s: Press, over: bool, down: bool)
    ensures PressStep(s, over, down).1 <==> over && !down && s.pressed
    ensures PressStep(s, over, down).1 ==> !PressStep(s, over, down).0.pressed
    ensures PressStep(s, over, down).0.pressed <==> over && down
    ensures PressStep(s, over, down).0.hovered == over
  {
  }

  /** A frame of mouse input: is the mouse over the button, is the left
      button down. */
  datatype Frame = Frame(over: bool, down: bool)

  function Fires(s: Press, frames: seq<Frame>): nat
    decreases |frames|
  {
    if frames == [] then 0
    else
      var step := PressStep(s, frames[0].over, frames[0].down);
      (if step.1 then 1 else 0) + Fires(step.0, frames[1..])
  }

  /** Frames on which a press over the button begins. */
  function PressesBegun(s: Press, frames: seq<Frame>): nat
    decreases |frames|
  {
    if frames == [] then 0
    else
      var step := PressStep(s, frames[0].over, frames[0].down);
      (if !s.pressed && step.0.pressed then 1 else 0) + PressesBegun(step.0, frames[1..])
  }

  /** Each press fires the action at most once. */
  lemma {:induction false} AtMostOncePerPress(s: Press, frames: seq<Frame>)
    ensures Fires(s, frames) <= PressesBegun(s, frames) + if s.pressed then 1 else 0
    decreases |frames|
  {
    if frames != [] {
      var step := PressStep(s, frames[0].over, frames[0].down);
      AtMostOncePerPress(step.0, frames[1..]);
    }
  }

  class NavButton {
    const rect: Rect
    var isHovered: bool
    var isPressed: bool

    function Flags(): Press
      reads this
    {
      Press(isHovered, isPressed)
    }

    constructor (r: Rect)
      ensures rect == r && Flags() == Press(false, false)
    {
      rect := r;
      isHovered, isPressed := false, false;
    }

    /** update: `fired` says that the button's action ran this frame. */
    method Update(mouseX: int, mouseY: int, leftDown: bool) returns (fired: bool)
      modifies this
      ensures (Flags(), fired) == PressStep(old(Flags()), rect.CollidePoint(mouseX, mouseY), leftDown)
    {
      fired := false;
      isHovered := rect.CollidePoint(mouseX, mouseY);
      if isHovered {
        if leftDown {
          isPressed := true;
        } else {
          if isPressed {
            fired := true;
          }
          isPressed := false;
        }
      } else {
        isPressed := false;
      }
    }
  }
}
