/** The player entity (entities/player.py): the waypoint follower that walks a
    route produced by the path finder, and the grid snap used after a blocked
    move. Keyboard movement and the animation base class are not modelled. */
module PlayerEntity {
  import opened Common
  import opened Pathfinder

  datatype Direction = Up | Down | Left | Right

  /** The `axis` argument of _snap_to_grid: 'x', 'y' or 'both'. */
  datatype Axis = AxisX | AxisY | AxisBoth

  /** What one frame of automatic movement reads and writes. */
  datatype Navigation = Navigation(x: real, y: real, direction: Direction,
                                   path: seq<Tile>, target: Option<Tile>, autoMoving: bool)

  /** The continuous part of a frame of movement: given the vector (dx, dy) to
      the target pixel, how far the player moves. In the game this is the
      vector normalised and scaled by speed and frame time. */
  type Motion = (real, real) -> (real, real)

  function RealAbs(v: real): real { if v < 0.0 then -v else v }

  /** The facing rule of move_along_path: the axis with the larger offset wins,
      and a tie goes to the vertical axis. */
  function Facing(dx: real, dy: real): (d: Direction)
    ensures RealAbs(dx) > RealAbs(dy) ==> (d == Right <==> dx > 0.0) && (d == Left <==> dx <= 0.0)
    ensures RealAbs(dx) <= RealAbs(dy) ==> (d == Down <==> dy > 0.0) && (d == Up <==> dy <= 0.0)
  {
    if RealAbs(dx) > RealAbs(dy) then (if dx > 0.0 then Right else Left)
    else (if dy > 0.0 then Down else Up)
  }

  /** The pixel corner of a tile. */
  function TilePixel(t: Tile): (real, real) {
    ((t.x * TILE_SIZE) as real, (t.y * TILE_SIZE) as real)
  }

  /** Within 5 pixels of the target (compared as squared distances). */
  predicate Close(dx: real, dy: real) {
    dx * dx + dy * dy < 25.0
  }

  /** One frame of move_along_path as a function of the state before it. */
  function FollowStep(s: Navigation, motion: Motion): Navigation {
    if s.path == [] && s.target.None? then
      s.(autoMoving := false)
    else
      var s1 := if s.target.None? then s.(target := Some(s.path[0]), path := s.path[1..]) else s;
      var pixel := TilePixel(s1.target.value);
      var dx, dy := pixel.0 - s1.x, pixel.1 - s1.y;
      if Close(dx, dy) then
        s1.(x := pixel.0, y := pixel.1, target := None)
      else
        var move := motion(dx, dy);
        s1.(x := s1.x + move.0, y := s1.y + move.1, direction := Facing(dx, dy))
  }

  /** Waypoints still to visit, the current target included. */
  function Remaining(s: Navigation): nat {
    |s.path| + if s.target.Some? then 1 else 0
  }

  class Player {
    var x: real
    var y: real
    var direction: Direction
    var path: seq<Tile>
    var targetTile: Option<Tile>
    var isAutoMoving: bool

    function State(): Navigation
      reads this
    {
      Navigation(x, y, direction, path, targetTile, isAutoMoving)
    }

    /** A player at pixel (x0, y0) that is not navigating. The initial facing
        comes from the entity base class, which is not part of this model. */
    constructor (x0: real, y0: real, facing: Direction)
      ensures State() == Navigation(x0, y0, facing, [], None, false)
    {
      x, y, direction := x0, y0, facing;
      path, targetTile, isAutoMoving := [], None, false;
    }

    /** set_path: take the route, drop its first tile, and start navigating
        (even when nothing is left to walk). */
    method SetPath(route: seq<Tile>)
      modifies this
      ensures State() == SetPathStep(old(State()), route)
    {
      path := route;
      if |path| > 0 {
        path := path[1..];
      }
      isAutoMoving := true;
    }

    /** move_along_path: pick the next waypoint when there is no target, snap
        onto the target when within 5 pixels, otherwise move towards it. */
    method MoveAlongPath(motion: Motion)
      modifies this
      ensures State() == FollowStep(old(State()), motion)
    {
      ghost var s0 := State();
      if path == [] && targetTile.None? {
        isAutoMoving := false;
        return;
      }
      if targetTile.None? {
        // The path is not empty here, so the source's fallback branch for an
        // empty path cannot be taken.
        targetTile := Some(path[0]);
        path := path[1..];
      }
      ghost var s1 := State();
      assert s1 == if s0.target.None? then s0.(target := Some(s0.path[0]), path := s0.path[1..]) else s0;
      var target := targetTile.value;
      var targetX := (target.x * TILE_SIZE) as real;
      var targetY := (target.y * TILE_SIZE) as real;
      var dx := targetX - x;
      var dy := targetY - y;
      if Close(dx, dy) {
        x, y := targetX, targetY;
        targetTile := None;
        assert State() == s1.(x := targetX, y := targetY, target := None);
      } else {
        var move := motion(dx, dy);
        x, y := x + move.0, y + move.1;
        direction := Facing(dx, dy);
        assert State() == s1.(x := s1.x + move.0, y := s1.y + move.1, direction := Facing(dx, dy));
      }
    }

    /** update: follow the route while navigating; otherwise the frame goes to
        keyboard handling, which is outside this model and reported by
        `manual`. */
    method Update(motion: Motion) returns (manual: bool)
      modifies this
      ensures manual == !old(isAutoMoving)
      ensures old(isAutoMoving) ==> State() == FollowStep(old(State()), motion)
      ensures !old(isAutoMoving) ==> State() == old(State())
    {
      manual := !isAutoMoving;
      if isAutoMoving {
        MoveAlongPath(motion);
      }
    }

    /** _snap_to_grid: round the chosen coordinates to the nearest multiple of
        the tile size (halves to the even multiple). */
    method SnapToGrid(axis: Axis)
      modifies this
      ensures x == (if axis != AxisY then Snap(old(x)) else old(x))
      ensures y == (if axis != AxisX then Snap(old(y)) else old(y))
      ensures direction == old(direction) && path == old(path)
      ensures targetTile == old(targetTile) && isAutoMoving == old(isAutoMoving)
    {
      if axis == AxisX || axis == AxisBoth {
        x := (RoundHalfEven(x / TILE_SIZE as real) * TILE_SIZE) as real;
      }
      if axis == AxisY || axis == AxisBoth {
        y := (RoundHalfEven(y / TILE_SIZE as real) * TILE_SIZE) as real;
      }
    }
  }

  /** One coordinate snapped to the tile grid. */
  function Snap(v: real): real {
    (RoundHalfEven(v / TILE_SIZE as real) * TILE_SIZE) as real
  }

  /** A snapped coordinate is a grid line, and the nearest one: it is at most
      half a tile away. */
  lemma SnapIsNearestGridLine(v: real)
    ensures (Snap(v) / TILE_SIZE as real).Floor as real == Snap(v) / TILE_SIZE as real
    ensures 2.0 * RealAbs(Snap(v) - v) <= TILE_SIZE as real
  {
    var ts := TILE_SIZE as real;
    var q := v / ts;
    var k := RoundHalfEven(q);
    SnapAsProduct(v);
    var e := k as real - q;
    MulBetween(e, ts);
    assert v == q * ts;
    assert Snap(v) - v == e * ts;
  }

  lemma SnapAsProduct(v: real)
    ensures Snap(v) == RoundHalfEven(v / TILE_SIZE as real) as real * TILE_SIZE as real
    ensures Snap(v) / TILE_SIZE as real == RoundHalfEven(v / TILE_SIZE as real) as real
  {
    var k := RoundHalfEven(v / TILE_SIZE as real);
    IntMulAsReal(k, TILE_SIZE);
  }

  lemma IntMulAsReal(a: int, b: int)
    ensures (a * b) as real == a as real * b as real
  {
  }

  lemma MulBetween(e: real, ts: real)
    requires ts > 0.0 && -0.5 <= e <= 0.5
    ensures 2.0 * RealAbs(e * ts) <= ts
  {
    if e >= 0.0 {
      assert e * ts <= 0.5 * ts;
    } else {
      assert e * ts >= -0.5 * ts;
    }
  }

  /** Snapping twice is snapping once. */
  lemma SnapIdempotent(v: real)
    ensures Snap(Snap(v)) == Snap(v)
  {
    var k := RoundHalfEven(v / TILE_SIZE as real);
    SnapAsProduct(v);
    assert RoundHalfEven(k as real) == k;
  }

  // ---------------------------------------------------------------------------
  // Properties of the waypoint follower

  /** A frame never adds waypoints; it uses one up exactly when it snaps onto
      the target, and navigation stops only once nothing is left. */
  lemma FollowStepProgress(s: Navigation, motion: Motion)
    ensures Remaining(FollowStep(s, motion)) <= Remaining(s)
    ensures s.autoMoving && !FollowStep(s, motion).autoMoving ==> Remaining(s) == 0
    ensures Remaining(s) == 0 ==> FollowStep(s, motion) == s.(autoMoving := false)
    ensures FollowStep(s, motion).target.None? && Remaining(s) > 0 ==> Remaining(FollowStep(s, motion)) == Remaining(s) - 1
  {
  }

  /** The waypoints still to walk are always a suffix of the route, taken in
      order from its front. */
  lemma FollowStepTakesFront(s: Navigation, motion: Motion)
    ensures var s' := FollowStep(s, motion);
      (s.target.None? && s.path != [] ==> s'.path == s.path[1..] && (s'.target == Some(s.path[0]) || s'.target.None?)) &&
      (s.target.Some? ==> s'.path == s.path && (s'.target == s.target || s'.target.None?))
  {
  }

  /** When a frame clears the target the player stands exactly on that tile's
      pixel corner; otherwise it moved by the motion step and faces the way
      the facing rule says. */
  lemma FollowStepSnapsOnTile(s: Navigation, motion: Motion)
    requires s.target.Some? || s.path != []
    ensures
      var t := if s.target.Some? then s.target.value else s.path[0];
      var s' := FollowStep(s, motion);
      var (tx, ty) := TilePixel(t);
      (s'.target.None? ==> s'.x == tx && s'.y == ty && s'.direction == s.direction) &&
      (s'.target.Some? ==> s'.target == Some(t) && !Close(tx - s.x, ty - s.y) &&
                           s'.direction == Facing(tx - s.x, ty - s.y) &&
                           s'.x == s.x + motion(tx - s.x, ty - s.y).0 && s'.y == s.y + motion(tx - s.x, ty - s.y).1)
  {
  }

  /** `n` frames of move_along_path. */
  function Frames(s: Navigation, motion: Motion, n: nat): Navigation
    decreases n
  {
    if n == 0 then s else Frames(FollowStep(s, motion), motion, n - 1)
  }

  lemma {:induction false} FramesAdd(s: Navigation, motion: Motion, a: nat, b: nat)
    ensures Frames(s, motion, a + b) == Frames(Frames(s, motion, a), motion, b)
    decreases a
  {
    if a > 0 {
      FramesAdd(FollowStep(s, motion), motion, a - 1, b);
    }
  }

  /** The motion step that covers the whole vector in one frame. */
  function Exact(dx: real, dy: real): (real, real) { (dx, dy) }

  /** With a motion step that lands on the target, every waypoint takes one
      or two frames: within 2 frames per waypoint the player stands on the
      last tile of the route with nothing left to walk, and the frame after
      that ends navigation. */
  lemma {:induction false} ExactFollowReachesEnd(s: Navigation) returns (n: nat)
    requires s.target.None? && s.path != []
    ensures n <= 2 * |s.path|
    ensures var e := Frames(s, Exact, n);
      (e.x, e.y) == TilePixel(s.path[|s.path| - 1]) && e.target.None? && e.path == [] && e.autoMoving == s.autoMoving
    ensures !Frames(s, Exact, n + 1).autoMoving
    decreases |s.path|
  {
    var k, next := ExactOneWaypoint(s);
    if |s.path| == 1 {
      n := k;
      FramesAdd(s, Exact, k, 1);
    } else {
      var m := ExactFollowReachesEnd(next);
      n := k + m;
      FramesAdd(s, Exact, k, m);
      FramesAdd(s, Exact, k, m + 1);
    }
  }

  /** With the exact motion step, the first waypoint is reached and cleared
      in one frame when the player is already within 5 pixels of it, and in
      two frames otherwise. */
  lemma ExactOneWaypoint(s: Navigation) returns (k: nat, next: Navigation)
    requires s.target.None? && s.path != []
    ensures 1 <= k <= 2 && next == Frames(s, Exact, k)
    ensures (next.x, next.y) == TilePixel(s.path[0]) && next.target.None?
    ensures next.path == s.path[1..] && next.autoMoving == s.autoMoving
  {
    var p := TilePixel(s.path[0]);
    var s1 := FollowStep(s, Exact);
    if Close(p.0 - s.x, p.1 - s.y) {
      k, next := 1, s1;
    } else {
      assert s1.x == p.0 && s1.y == p.1 && s1.target == Some(s.path[0]);
      k, next := 2, FollowStep(s1, Exact);
      assert Frames(s1, Exact, 1) == next;
    }
  }

  // ---------------------------------------------------------------------------
  // set_path drops the first step of the route

  /** set_path as written: the route loses its first tile, which the code
      takes to be the player's own tile. The path finder's routes never
      contain the start tile, so this is the first step to walk. */
  function SetPathStep(s: Navigation, route: seq<Tile>): Navigation {
    s.(path := if route == [] then [] else route[1..], autoMoving := true)
  }

  /** set_path as evidently intended: the route is walked as given. */
  function FollowRouteStep(s: Navigation, route: seq<Tile>): Navigation {
    s.(path := route, autoMoving := true)
  }

  /** As written, a route of a single tile (a goal next to the player) leaves
      nothing to walk: on every later frame the player is where it was and no
      longer navigating, whatever the motion step. */
  lemma AdjacentGoalNeverReached(s: Navigation, t: Tile, motion: Motion, n: nat)
    requires s.target.None? && n >= 1
    ensures var e := Frames(SetPathStep(s, [t]), motion, n);
      e.x == s.x && e.y == s.y && !e.autoMoving && e.path == [] && e.target.None?
  {
    var s1 := SetPathStep(s, [t]);
    assert s1.path == [] && s1.target.None?;
    IdleStaysIdle(FollowStep(s1, motion), motion, n - 1);
  }

  /** A follower with nothing to walk stays put and stops navigating. */
  lemma {:induction false} IdleStaysIdle(s: Navigation, motion: Motion, n: nat)
    requires s.path == [] && s.target.None? && !s.autoMoving
    ensures Frames(s, motion, n) == s
    decreases n
  {
    if n > 0 {
      assert FollowStep(s, motion) == s;
      IdleStaysIdle(s, motion, n - 1);
    }
  }

  /** With the route kept whole, the player stands on the route's last tile
      after at most two frames per tile (with the exact motion step), and the
      frame after that ends navigation. */
  lemma CorrectedRouteReachesGoal(s: Navigation, route: seq<Tile>) returns (n: nat)
    requires s.target.None? && route != []
    ensures n <= 2 * |route|
    ensures var e := Frames(FollowRouteStep(s, route), Exact, n);
      (e.x, e.y) == TilePixel(route[|route| - 1]) && e.path == [] && e.autoMoving
    ensures !Frames(FollowRouteStep(s, route), Exact, n + 1).autoMoving
  {
    n := ExactFollowReachesEnd(FollowRouteStep(s, route));
  }
}
