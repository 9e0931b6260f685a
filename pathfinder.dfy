/** Tile-grid route finding (utils/pathfinder.py): a breadth-first search over
    the 4-connected grid [0,100) x [0,100), with a caller-supplied obstacle test. */
module Pathfinder {
  import opened Common

  datatype Tile = Tile(x: int, y: int)

  /** Edge of the square grid the search stays inside. */
  const GRID_SIZE := 100

  predicate InBounds(t: Tile) {
    0 <= t.x < GRID_SIZE && 0 <= t.y < GRID_SIZE
  }

  /** A tile the search may step onto. */
  predicate Walkable(t: Tile, blocked: Tile -> bool) {
    InBounds(t) && !blocked(t)
  }

  /** The neighbours in the order the search visits them: right, left, down, up. */
  function Neighbors(t: Tile): seq<Tile> {
    [Tile(t.x + 1, t.y), Tile(t.x - 1, t.y), Tile(t.x, t.y + 1), Tile(t.x, t.y - 1)]
  }

  function Manhattan(a: Tile, b: Tile): nat {
    Abs(a.x - b.x) + Abs(a.y - b.y)
  }

  /** Two tiles differ by exactly 1 in exactly one coordinate. */
  predicate Adjacent(a: Tile, b: Tile) {
    Manhattan(a, b) == 1
  }

  /** `route` is a walk that starts next to `from` (which is not part of it),
      moves one tile at a time and only visits walkable tiles. */
  predicate IsRoute(from: Tile, route: seq<Tile>, blocked: Tile -> bool)
    decreases |route|
  {
    route == [] ||
    (Adjacent(from, route[0]) && Walkable(route[0], blocked) && IsRoute(route[0], route[1..], blocked))
  }

  /** A non-empty route that ends at `goal`. */
  predicate Reaches(from: Tile, route: seq<Tile>, goal: Tile, blocked: Tile -> bool) {
    route != [] && route[|route| - 1] == goal && IsRoute(from, route, blocked)
  }

  /** The obstacle test of the game: no tile is blocked. */
  function IsBlocked(t: Tile): bool {
    false
  }

  ghost function Grid(): set<Tile> {
    set x, y | 0 <= x < GRID_SIZE && 0 <= y < GRID_SIZE :: Tile(x, y)
  }

  lemma InGrid(t: Tile)
    requires InBounds(t)
    ensures t in Grid()
  {
    assert t == Tile(t.x, t.y);
  }

  /** Discovering new tiles strictly shrinks the part of the grid not yet
      discovered (the measure that makes the search terminate). */
  lemma GridShrinks(start: Tile, blocked: Tile -> bool, keys0: set<Tile>, cameFrom: map<Tile, Option<Tile>>, dist: map<Tile, nat>)
    requires Tree(start, blocked, cameFrom, dist) && start in keys0 && keys0 <= cameFrom.Keys
    ensures cameFrom.Keys == keys0 || Grid() - cameFrom.Keys < Grid() - keys0
  {
    if cameFrom.Keys != keys0 {
      var t :| t in cameFrom.Keys && t !in keys0;
      InGrid(t);
    }
  }

  lemma AdjacentIsNeighbor(a: Tile, b: Tile)
    requires Adjacent(a, b)
    ensures b in Neighbors(a)
  {
    if a.x == b.x {
      assert b == Tile(a.x, a.y + 1) || b == Tile(a.x, a.y - 1);
    } else {
      assert b == Tile(a.x + 1, a.y) || b == Tile(a.x - 1, a.y);
    }
  }

  // ---------------------------------------------------------------------------
  // The state of the search, as predicates over the queue, came_from and the
  // (ghost) breadth-first distance of every discovered tile.

  /** Every discovered tile other than `start` is walkable and was reached
      from an adjacent discovered tile one step closer to `start`. */
  ghost predicate Tree(start: Tile, blocked: Tile -> bool, cameFrom: map<Tile, Option<Tile>>, dist: map<Tile, nat>) {
    cameFrom.Keys == dist.Keys && start in dist && dist[start] == 0 && cameFrom[start] == None &&
    forall t {:trigger cameFrom[t]} :: t in cameFrom && t != start ==>
      cameFrom[t].Some? && cameFrom[t].value in dist && Adjacent(cameFrom[t].value, t) &&
      Walkable(t, blocked) && dist[t] == dist[cameFrom[t].value] + 1
  }

  /** The queue starts with `start` and holds exactly the discovered tiles,
      each of them once (as many entries as came_from has keys). */
  ghost predicate Queue(start: Tile, queue: seq<Tile>, cameFrom: map<Tile, Option<Tile>>, dist: map<Tile, nat>) {
    |queue| >= 1 && queue[0] == start && |queue| == |cameFrom| &&
    (forall i :: 0 <= i < |queue| ==> queue[i] in dist) &&
    (forall t :: t in dist ==> t in queue)
  }

  /** Breadth-first layering: the popped tiles are at most `level` away, the
      waiting ones before `mid` exactly `level`, those after it `level + 1`. */
  ghost predicate Layered(queue: seq<Tile>, head: nat, mid: nat, level: nat, dist: map<Tile, nat>) {
    head <= mid <= |queue| &&
    (forall i :: 0 <= i < head ==> queue[i] in dist && dist[queue[i]] <= level) &&
    (forall i :: head <= i < mid ==> queue[i] in dist && dist[queue[i]] == level) &&
    (forall i :: mid <= i < |queue| ==> queue[i] in dist && dist[queue[i]] == level + 1)
  }

  /** `n`, if walkable, has been discovered no further away than `bound`. */
  ghost predicate Discovered(n: Tile, bound: nat, blocked: Tile -> bool, dist: map<Tile, nat>) {
    Walkable(n, blocked) ==> n in dist && dist[n] <= bound
  }

  /** The first `k` neighbours of `t` have been looked at. */
  ghost predicate ExpandedUpTo(t: Tile, k: nat, blocked: Tile -> bool, dist: map<Tile, nat>) {
    t in dist &&
    (k > 0 ==> Discovered(Neighbors(t)[0], dist[t] + 1, blocked, dist)) &&
    (k > 1 ==> Discovered(Neighbors(t)[1], dist[t] + 1, blocked, dist)) &&
    (k > 2 ==> Discovered(Neighbors(t)[2], dist[t] + 1, blocked, dist)) &&
    (k > 3 ==> Discovered(Neighbors(t)[3], dist[t] + 1, blocked, dist))
  }

  ghost predicate Expanded(t: Tile, blocked: Tile -> bool, dist: map<Tile, nat>) {
    ExpandedUpTo(t, 4, blocked, dist)
  }

  /** The tiles already popped are not the goal and have been expanded. */
  ghost predicate Explored(goal: Tile, blocked: Tile -> bool, queue: seq<Tile>, head: nat, dist: map<Tile, nat>)
    requires head <= |queue|
    decreases head
  {
    head == 0 ||
    (Explored(goal, blocked, queue, head - 1, dist) && queue[head - 1] != goal && Expanded(queue[head - 1], blocked, dist))
  }

  lemma {:induction false} ExploredAt(goal: Tile, blocked: Tile -> bool, queue: seq<Tile>, head: nat, dist: map<Tile, nat>, i: nat)
    requires head <= |queue| && Explored(goal, blocked, queue, head, dist) && i < head
    ensures queue[i] != goal && Expanded(queue[i], blocked, dist)
    decreases head
  {
    if i < head - 1 {
      ExploredAt(goal, blocked, queue, head - 1, dist, i);
    }
  }

  // ---------------------------------------------------------------------------
  // The search

  /** find_path: breadth-first search from `start` to `goal`; the result is the
      route from the tile after `start` up to and including `goal`, or [] when
      `goal` cannot be reached (or is `start`). */
  method FindPath(start: Tile, goal: Tile, blocked: Tile -> bool) returns (path: seq<Tile>)
    ensures start == goal ==> path == []
    ensures path != [] ==> Reaches(start, path, goal, blocked) && start !in path
    ensures start != goal ==> forall r :: Reaches(start, r, goal, blocked) ==> path != [] && |path| <= |r|
    ensures !Walkable(goal, blocked) ==> path == []
  {
    var found, cameFrom, dist, level := Search(start, goal, blocked);
    if !found {
      return [];
    }
    path := Backtrack(start, goal, blocked, cameFrom, dist);
    if path != [] {
      RouteWalkable(start, path, blocked);
    }
    if start != goal {
      forall r | Reaches(start, r, goal, blocked)
        ensures |path| <= |r|
      {
        RouteBound(start, r, goal, blocked, dist, level);
      }
    }
  }

  /** The first half of find_path: the breadth-first loop. When it meets the
      goal, every tile closer to `start` than the goal has been expanded; when
      the queue runs dry, no route reaches the goal. */
  method Search(start: Tile, goal: Tile, blocked: Tile -> bool)
    returns (found: bool, cameFrom: map<Tile, Option<Tile>>, ghost dist: map<Tile, nat>, ghost level: nat)
    ensures found ==> GoalPopped(start, goal, blocked, cameFrom, dist, level)
    ensures !found ==> start != goal && forall r :: !Reaches(start, r, goal, blocked)
  {
    var queue := [start];
    var head: nat := 0;
    cameFrom := map[start := None];
    dist := map[start := 0];
    level := 0;
    ghost var mid: nat := 1;
    found := false;

    while head < |queue|
      invariant Searching(start, goal, blocked, queue, head, mid, level, cameFrom, dist)
      decreases Grid() - cameFrom.Keys, |queue| - head
    {
      ghost var seen := cameFrom.Keys;
      mid, level := NextLevel(start, goal, blocked, queue, head, mid, level, cameFrom, dist);
      if queue[head] == goal {
        ClosedBelowGoal(start, goal, blocked, queue, cameFrom, head, mid, level, dist);
        return true, cameFrom, dist, level;
      }
      queue, cameFrom, dist := Expand(start, goal, blocked, queue, head, mid, level, cameFrom, dist);
      head := head + 1;
      GridShrinks(start, blocked, seen, cameFrom, dist);
    }
    NotFoundMeansUnreachable(start, goal, blocked, queue, head, cameFrom, dist);
  }

  /** The goal has been popped at distance `level`, and every tile closer to
      `start` has been expanded. */
  ghost predicate GoalPopped(start: Tile, goal: Tile, blocked: Tile -> bool, cameFrom: map<Tile, Option<Tile>>,
                             dist: map<Tile, nat>, level: nat)
  {
    Tree(start, blocked, cameFrom, dist) && goal in cameFrom && dist[goal] == level &&
    forall n :: n in dist && dist[n] < level ==> Expanded(n, blocked, dist)
  }

  /** The state of the neighbour loop after looking at `k` neighbours of the
      tile at the head of the queue: the search invariants hold, the queue and
      came_from only grew, and those neighbours have been discovered. */
  ghost predicate Expanding(start: Tile, goal: Tile, blocked: Tile -> bool, head: nat, mid: nat, level: nat,
                            queue0: seq<Tile>, cameFrom0: map<Tile, Option<Tile>>, k: nat,
                            queue: seq<Tile>, cameFrom: map<Tile, Option<Tile>>, dist: map<Tile, nat>)
  {
    head < mid <= |queue0| <= |queue| && queue[..|queue0|] == queue0 &&
    Growing(start, blocked, queue0, cameFrom0, queue, cameFrom, dist) &&
    Layering(goal, blocked, head, mid, level, queue0, k, queue, dist)
  }

  /** The part of Expanding about the search tree and the queue it feeds. */
  ghost predicate Growing(start: Tile, blocked: Tile -> bool, queue0: seq<Tile>, cameFrom0: map<Tile, Option<Tile>>,
                          queue: seq<Tile>, cameFrom: map<Tile, Option<Tile>>, dist: map<Tile, nat>)
    requires |queue0| <= |queue|
  {
    Tree(start, blocked, cameFrom, dist) && Queue(start, queue, cameFrom, dist) &&
    start in cameFrom0 && cameFrom0.Keys <= cameFrom.Keys && (cameFrom.Keys == cameFrom0.Keys ==> |queue| == |queue0|)
  }

  /** The part of Expanding about distances: layers, explored tiles, and the
      neighbours of the current tile looked at so far. */
  ghost predicate Layering(goal: Tile, blocked: Tile -> bool, head: nat, mid: nat, level: nat,
                           queue0: seq<Tile>, k: nat, queue: seq<Tile>, dist: map<Tile, nat>)
    requires head < |queue0|
  {
    Layered(queue, head, mid, level, dist) &&
    Explored(goal, blocked, queue, head, dist) &&
    ExpandedUpTo(queue0[head], k, blocked, dist)
  }

  /** The invariant of the outer loop of find_path. */
  ghost predicate Searching(start: Tile, goal: Tile, blocked: Tile -> bool, queue: seq<Tile>, head: nat, mid: nat, level: nat,
                            cameFrom: map<Tile, Option<Tile>>, dist: map<Tile, nat>)
  {
    Tree(start, blocked, cameFrom, dist) && Queue(start, queue, cameFrom, dist) &&
    Layered(queue, head, mid, level, dist) && Explored(goal, blocked, queue, head, dist)
  }

  /** Popping a tile that is not the goal and looking at all its neighbours
      moves the head on and keeps the invariant. */
  lemma Advance(start: Tile, goal: Tile, blocked: Tile -> bool, head: nat, mid: nat, level: nat,
                queue0: seq<Tile>, cameFrom0: map<Tile, Option<Tile>>,
                queue: seq<Tile>, cameFrom: map<Tile, Option<Tile>>, dist: map<Tile, nat>)
    requires Expanding(start, goal, blocked, head, mid, level, queue0, cameFrom0, 4, queue, cameFrom, dist)
    requires queue0[head] != goal
    ensures Searching(start, goal, blocked, queue, head + 1, mid, level, cameFrom, dist)
    ensures cameFrom0.Keys <= cameFrom.Keys && (cameFrom.Keys == cameFrom0.Keys ==> |queue| == |queue0|)
  {
    assert queue[head] == queue0[head];
  }

  /** When the waiting tiles of the current distance are used up, the next
      distance begins. */
  lemma NextLevel(start: Tile, goal: Tile, blocked: Tile -> bool, queue: seq<Tile>, head: nat, mid0: nat, level0: nat,
                  cameFrom: map<Tile, Option<Tile>>, dist: map<Tile, nat>)
    returns (mid: nat, level: nat)
    requires Searching(start, goal, blocked, queue, head, mid0, level0, cameFrom, dist) && head < |queue|
    ensures Searching(start, goal, blocked, queue, head, mid, level, cameFrom, dist) && head < mid
  {
    if head == mid0 {
      mid, level := |queue|, level0 + 1;
    } else {
      mid, level := mid0, level0;
    }
  }

  /** The inner loop of find_path: look at the four neighbours of the tile at
      the head of the queue and discover each walkable one not seen before. */
  method Expand(start: Tile, goal: Tile, blocked: Tile -> bool, queue0: seq<Tile>, head: nat,
                ghost mid: nat, ghost level: nat, cameFrom0: map<Tile, Option<Tile>>, ghost dist0: map<Tile, nat>)
    returns (queue: seq<Tile>, cameFrom: map<Tile, Option<Tile>>, ghost dist: map<Tile, nat>)
    requires Searching(start, goal, blocked, queue0, head, mid, level, cameFrom0, dist0) && head < mid
    requires queue0[head] != goal
    ensures Searching(start, goal, blocked, queue, head + 1, mid, level, cameFrom, dist)
    ensures cameFrom0.Keys <= cameFrom.Keys && (cameFrom.Keys == cameFrom0.Keys ==> |queue| == |queue0|)
  {
    queue, cameFrom, dist := queue0, cameFrom0, dist0;
    var current := queue[head];
    var neighbors := Neighbors(current);
    for k := 0 to 4
      invariant Expanding(start, goal, blocked, head, mid, level, queue0, cameFrom0, k, queue, cameFrom, dist)
    {
      var next := neighbors[k];
      if InBounds(next) && !blocked(next) && next !in cameFrom {
        Discover(start, goal, blocked, head, mid, level, queue0, cameFrom0, k, queue, cameFrom, dist);
        queue := queue + [next];
        cameFrom := cameFrom[next := Some(current)];
        dist := dist[next := level + 1];
      } else {
        SkipNeighbor(start, queue, cameFrom, head, mid, level, dist, k, blocked);
      }
    }
    Advance(start, goal, blocked, head, mid, level, queue0, cameFrom0, queue, cameFrom, dist);
  }

  lemma Discover(start: Tile, goal: Tile, blocked: Tile -> bool, head: nat, mid: nat, level: nat,
                 queue0: seq<Tile>, cameFrom0: map<Tile, Option<Tile>>, k: nat,
                 queue: seq<Tile>, cameFrom: map<Tile, Option<Tile>>, dist: map<Tile, nat>)
    requires Expanding(start, goal, blocked, head, mid, level, queue0, cameFrom0, k, queue, cameFrom, dist) && k < 4
    requires Walkable(Neighbors(queue0[head])[k], blocked) && Neighbors(queue0[head])[k] !in cameFrom
    ensures
      var next := Neighbors(queue0[head])[k];
      Expanding(start, goal, blocked, head, mid, level, queue0, cameFrom0, k + 1,
                queue + [next], cameFrom[next := Some(queue0[head])], dist[next := level + 1])
  {
    var next := Neighbors(queue0[head])[k];
    DiscoverGrows(start, goal, blocked, head, mid, level, queue0, cameFrom0, k, queue, cameFrom, dist);
    DiscoverLayers(start, goal, blocked, head, mid, level, queue0, cameFrom0, k, queue, cameFrom, dist);
    assert (queue + [next])[..|queue0|] == queue[..|queue0|];
  }

  lemma DiscoverGrows(start: Tile, goal: Tile, blocked: Tile -> bool, head: nat, mid: nat, level: nat,
                      queue0: seq<Tile>, cameFrom0: map<Tile, Option<Tile>>, k: nat,
                      queue: seq<Tile>, cameFrom: map<Tile, Option<Tile>>, dist: map<Tile, nat>)
    requires Expanding(start, goal, blocked, head, mid, level, queue0, cameFrom0, k, queue, cameFrom, dist) && k < 4
    requires Walkable(Neighbors(queue0[head])[k], blocked) && Neighbors(queue0[head])[k] !in cameFrom
    ensures
      var next := Neighbors(queue0[head])[k];
      Growing(start, blocked, queue0, cameFrom0, queue + [next], cameFrom[next := Some(queue0[head])], dist[next := level + 1])
  {
    var current := queue0[head];
    var next := Neighbors(current)[k];
    assert queue[head] == current;
    EnqueueTree(start, blocked, cameFrom, dist, current, next);
    EnqueueQueue(start, queue, cameFrom, dist, next, Some(current), level + 1);
  }

  lemma DiscoverLayers(start: Tile, goal: Tile, blocked: Tile -> bool, head: nat, mid: nat, level: nat,
                       queue0: seq<Tile>, cameFrom0: map<Tile, Option<Tile>>, k: nat,
                       queue: seq<Tile>, cameFrom: map<Tile, Option<Tile>>, dist: map<Tile, nat>)
    requires Expanding(start, goal, blocked, head, mid, level, queue0, cameFrom0, k, queue, cameFrom, dist) && k < 4
    requires Walkable(Neighbors(queue0[head])[k], blocked) && Neighbors(queue0[head])[k] !in cameFrom
    ensures
      var next := Neighbors(queue0[head])[k];
      Layering(goal, blocked, head, mid, level, queue0, k + 1, queue + [next], dist[next := level + 1])
  {
    var current := queue0[head];
    var next := Neighbors(current)[k];
    assert queue[head] == current;
    EnqueueLayered(queue, head, mid, level, dist, next);
    ghost var dist' := dist[next := level + 1];
    assert Extends(dist, dist');
    EnqueueExplored(goal, blocked, queue, head, dist, dist', next);
    ExpandedExtends(current, k, blocked, dist, dist');
  }

  /** The second half of find_path: walk back from the goal along came_from,
      then reverse the collected tiles. */
  method Backtrack(start: Tile, goal: Tile, blocked: Tile -> bool, cameFrom: map<Tile, Option<Tile>>, ghost dist: map<Tile, nat>)
    returns (path: seq<Tile>)
    requires Tree(start, blocked, cameFrom, dist) && goal in cameFrom
    ensures |path| == dist[goal]
    ensures start == goal ==> path == []
    ensures path != [] ==> Reaches(start, path, goal, blocked) && start !in path
  {
    var rev: seq<Tile> := [];
    var current := goal;
    while current != start
      invariant current in dist
      invariant |rev| + dist[current] == dist[goal]
      invariant IsRoute(current, Reversed(rev), blocked)
      invariant rev == [] ==> current == goal
      invariant rev != [] ==> rev[0] == goal
      invariant start !in rev
      decreases dist[current]
    {
      var parent := cameFrom[current].value;
      ReversedSnoc(rev, current);
      rev := rev + [current];
      current := parent;
    }
    path := Reversed(rev);
    ReversedEnds(rev);
  }

  /** find_path as the game calls it, with the constant obstacle test. */
  method FindPathOnMap(start: Tile, goal: Tile) returns (path: seq<Tile>)
    ensures path != [] ==> Reaches(start, path, goal, IsBlocked) && start !in path
    ensures start != goal ==> forall r :: Reaches(start, r, goal, IsBlocked) ==> path != [] && |path| <= |r|
    ensures InBounds(start) && InBounds(goal) ==> |path| == Manhattan(start, goal)
  {
    path := FindPath(start, goal, IsBlocked);
    if InBounds(start) && InBounds(goal) && start != goal {
      StaircaseIsRoute(start, goal);
      ghost var r := Staircase(start, goal);
      assert Reaches(start, r, goal, IsBlocked);
      RouteAtLeastManhattan(start, path, IsBlocked);
    }
  }

  // ---------------------------------------------------------------------------
  // Facts about the search state

  /** Discovered distances never change once assigned. */
  ghost predicate Extends(dist: map<Tile, nat>, dist': map<Tile, nat>) {
    forall t :: t in dist ==> t in dist' && dist'[t] == dist[t]
  }

  lemma ExpandedExtends(t: Tile, k: nat, blocked: Tile -> bool, dist: map<Tile, nat>, dist': map<Tile, nat>)
    requires ExpandedUpTo(t, k, blocked, dist) && Extends(dist, dist')
    ensures ExpandedUpTo(t, k, blocked, dist')
  {
  }

  lemma EnqueueTree(start: Tile, blocked: Tile -> bool, cameFrom: map<Tile, Option<Tile>>, dist: map<Tile, nat>,
                    current: Tile, next: Tile)
    requires Tree(start, blocked, cameFrom, dist) && current in dist
    requires Adjacent(current, next) && Walkable(next, blocked) && next !in cameFrom
    ensures Tree(start, blocked, cameFrom[next := Some(current)], dist[next := dist[current] + 1])
  {
  }

  lemma EnqueueQueue(start: Tile, queue: seq<Tile>, cameFrom: map<Tile, Option<Tile>>, dist: map<Tile, nat>,
                     next: Tile, parent: Option<Tile>, d: nat)
    requires Queue(start, queue, cameFrom, dist) && cameFrom.Keys == dist.Keys && next !in cameFrom
    ensures Queue(start, queue + [next], cameFrom[next := parent], dist[next := d])
  {
    var queue' := queue + [next];
    assert queue'[|queue|] == next;
    forall i | 0 <= i < |queue|
      ensures queue'[i] == queue[i]
    {
    }
  }

  lemma EnqueueLayered(queue: seq<Tile>, head: nat, mid: nat, level: nat, dist: map<Tile, nat>, next: Tile)
    requires Layered(queue, head, mid, level, dist) && next !in dist
    ensures Layered(queue + [next], head, mid, level, dist[next := level + 1])
  {
    var queue' := queue + [next];
    forall i | 0 <= i < |queue|
      ensures queue'[i] == queue[i]
    {
    }
  }

  lemma {:induction false} EnqueueExplored(goal: Tile, blocked: Tile -> bool, queue: seq<Tile>, head: nat,
                                          dist: map<Tile, nat>, dist': map<Tile, nat>, next: Tile)
    requires head <= |queue| && Explored(goal, blocked, queue, head, dist) && Extends(dist, dist')
    ensures Explored(goal, blocked, queue + [next], head, dist')
    decreases head
  {
    if head > 0 {
      EnqueueExplored(goal, blocked, queue, head - 1, dist, dist', next);
      assert (queue + [next])[head - 1] == queue[head - 1];
      ExpandedExtends(queue[head - 1], 4, blocked, dist, dist');
    }
  }

  /** A neighbour the search does not enqueue is either not walkable or was
      discovered already, no further away than one step past the head. */
  lemma SkipNeighbor(start: Tile, queue: seq<Tile>, cameFrom: map<Tile, Option<Tile>>, head: nat, mid: nat, level: nat,
                     dist: map<Tile, nat>, k: nat, blocked: Tile -> bool)
    requires Queue(start, queue, cameFrom, dist) && cameFrom.Keys == dist.Keys
    requires Layered(queue, head, mid, level, dist) && head < mid
    requires k < 4 && ExpandedUpTo(queue[head], k, blocked, dist)
    requires Walkable(Neighbors(queue[head])[k], blocked) ==> Neighbors(queue[head])[k] in cameFrom
    ensures ExpandedUpTo(queue[head], k + 1, blocked, dist)
  {
    var next := Neighbors(queue[head])[k];
    if Walkable(next, blocked) {
      var i := IndexOf(next, queue);
    }
  }

  lemma ReversedEnds<T>(s: seq<T>)
    ensures s != [] ==> Reversed(s)[|s| - 1] == s[0]
    ensures forall x :: x in Reversed(s) <==> x in s
  {
    if s != [] {
      ReversedEnds(s[..|s| - 1]);
      assert s == s[..|s| - 1] + [s[|s| - 1]];
      if |s| > 1 {
        assert Reversed(s)[|s| - 1] == Reversed(s[..|s| - 1])[|s| - 2];
      }
    }
  }

  lemma IndexOf(t: Tile, queue: seq<Tile>) returns (i: nat)
    requires t in queue
    ensures i < |queue| && queue[i] == t
  {
    i :| 0 <= i < |queue| && queue[i] == t;
  }

  /** When the goal has just been popped, every tile closer to the start than
      the goal has already been expanded. */
  lemma ClosedBelowGoal(start: Tile, goal: Tile, blocked: Tile -> bool, queue: seq<Tile>, cameFrom: map<Tile, Option<Tile>>,
                        head: nat, mid: nat, level: nat, dist: map<Tile, nat>)
    requires Searching(start, goal, blocked, queue, head, mid, level, cameFrom, dist)
    requires head < mid && queue[head] == goal
    ensures GoalPopped(start, goal, blocked, cameFrom, dist, level)
  {
    forall n | n in dist && dist[n] < level
      ensures Expanded(n, blocked, dist)
    {
      var i := IndexOf(n, queue);
      ExploredAt(goal, blocked, queue, head, dist, i);
    }
  }

  /** A route from an expanded-enough region to the goal is never shorter than
      the breadth-first distance says. */
  lemma {:induction false} RouteBound(from: Tile, r: seq<Tile>, goal: Tile, blocked: Tile -> bool, dist: map<Tile, nat>, goalDist: nat)
    requires forall n :: n in dist && dist[n] < goalDist ==> Expanded(n, blocked, dist)
    requires from in dist
    requires Reaches(from, r, goal, blocked)
    requires goal in dist && dist[goal] == goalDist
    ensures goalDist <= dist[from] + |r|
    decreases |r|
  {
    if dist[from] < goalDist {
      AdjacentIsNeighbor(from, r[0]);
      if |r| > 1 {
        RouteBound(r[0], r[1..], goal, blocked, dist, goalDist);
      }
    }
  }

  /** When the queue runs dry without meeting the goal, no route reaches it. */
  lemma NotFoundMeansUnreachable(start: Tile, goal: Tile, blocked: Tile -> bool, queue: seq<Tile>, head: nat,
                                 cameFrom: map<Tile, Option<Tile>>, dist: map<Tile, nat>)
    requires Queue(start, queue, cameFrom, dist) && head == |queue| && Explored(goal, blocked, queue, head, dist)
    ensures start != goal
    ensures forall r :: !Reaches(start, r, goal, blocked)
  {
    ExploredAt(goal, blocked, queue, head, dist, 0);
    forall n | n in dist
      ensures Expanded(n, blocked, dist)
    {
      var i := IndexOf(n, queue);
      ExploredAt(goal, blocked, queue, head, dist, i);
    }
    forall r | Reaches(start, r, goal, blocked)
      ensures false
    {
      RouteStaysDiscovered(start, r, blocked, dist);
      var i := IndexOf(goal, queue);
      ExploredAt(goal, blocked, queue, head, dist, i);
    }
  }

  lemma {:induction false} RouteStaysDiscovered(from: Tile, r: seq<Tile>, blocked: Tile -> bool, dist: map<Tile, nat>)
    requires forall n :: n in dist ==> Expanded(n, blocked, dist)
    requires from in dist
    requires IsRoute(from, r, blocked)
    ensures forall t :: t in r ==> t in dist
    decreases |r|
  {
    if r != [] {
      AdjacentIsNeighbor(from, r[0]);
      RouteStaysDiscovered(r[0], r[1..], blocked, dist);
      assert r == [r[0]] + r[1..];
    }
  }

  /** Every tile of a route is inside the grid and not blocked. */
  lemma {:induction false} RouteWalkable(from: Tile, r: seq<Tile>, blocked: Tile -> bool)
    requires IsRoute(from, r, blocked)
    ensures forall i :: 0 <= i < |r| ==> Walkable(r[i], blocked)
    decreases |r|
  {
    if r != [] {
      RouteWalkable(r[0], r[1..], blocked);
      forall i | 1 <= i < |r| ensures Walkable(r[i], blocked) {
        assert r[i] == r[1..][i - 1];
      }
    }
  }

  // ---------------------------------------------------------------------------
  // Open grid: shortest routes are exactly Manhattan long

  /** Walk along x first, then along y. */
  function Staircase(a: Tile, b: Tile): seq<Tile>
    decreases Manhattan(a, b)
  {
    if a == b then []
    else
      var next :=
        if a.x < b.x then Tile(a.x + 1, a.y)
        else if a.x > b.x then Tile(a.x - 1, a.y)
        else if a.y < b.y then Tile(a.x, a.y + 1)
        else Tile(a.x, a.y - 1);
      [next] + Staircase(next, b)
  }

  lemma {:induction false} StaircaseIsRoute(a: Tile, b: Tile)
    requires InBounds(a) && InBounds(b) && a != b
    ensures Reaches(a, Staircase(a, b), b, IsBlocked)
    ensures |Staircase(a, b)| == Manhattan(a, b)
    decreases Manhattan(a, b)
  {
    var s := Staircase(a, b);
    var next := s[0];
    assert s[1..] == Staircase(next, b);
    if next != b {
      StaircaseIsRoute(next, b);
    }
  }

  lemma {:induction false} RouteAtLeastManhattan(from: Tile, r: seq<Tile>, blocked: Tile -> bool)
    requires IsRoute(from, r, blocked) && r != []
    ensures Manhattan(from, r[|r| - 1]) <= |r|
    decreases |r|
  {
    if |r| > 1 {
      RouteAtLeastManhattan(r[0], r[1..], blocked);
    }
  }
}
