/** One game map (maps/map.py) as the data the game keeps after loading it:
    the spawn point, the teleporters, and the collision rectangles baked from
    the Tiled layers. Loading and rendering through pytmx are not modelled;
    the visible layers are given as sequences of (x, y, gid) entries. */
module Maps {
  import opened Common

  /** A teleporter: a pixel position and the key of the destination map. */
  datatype Teleport = Teleport(pos: Position, destination: string)

  /** One (x, y, gid) entry of a Tiled tile layer; gid 0 is an empty cell. */
  datatype TileEntry = TileEntry(x: int, y: int, gid: int)

  /** A visible layer of the map file, tile layer or not. */
  datatype Layer = Layer(name: string, isTileLayer: bool, tiles: seq<TileEntry>)

  datatype MapData = MapData(pathName: string, spawn: Position, teleporters: seq<Teleport>, collisionMap: seq<Rect>)

  // ---------------------------------------------------------------------------
  // Layer names

  /** str.lower() on ASCII letters; other characters are kept as they are. */
  function LowerChar(c: char): (r: char)
    ensures 'A' <= c <= 'Z' ==> 'a' <= r <= 'z' && r as int == c as int + 32
    ensures !('A' <= c <= 'Z') ==> r == c
  {
    if 'A' <= c <= 'Z' then (c as int + 32) as char else c
  }

  function Lower(s: string): (r: string)
    ensures |r| == |s| && forall i :: 0 <= i < |s| ==> r[i] == LowerChar(s[i])
  {
    seq(|s|, i requires 0 <= i < |s| => LowerChar(s[i]))
  }

  predicate OccursAt(s: string, sub: string, i: int) {
    0 <= i && i + |sub| <= |s| && s[i..i + |sub|] == sub
  }

  /** Python's `sub in s` for strings. */
  predicate Contains(s: string, sub: string) {
    exists i | 0 <= i <= |s| :: OccursAt(s, sub, i)
  }

  /** The layers _create_collision_map takes: tile layers whose lower-cased
      name mentions "collision" or "house". */
  predicate Solid(layer: Layer) {
    layer.isTileLayer && (Contains(Lower(layer.name), "collision") || Contains(Lower(layer.name), "house"))
  }

  /** A word cannot occur where its first letter never does. */
  lemma MissingFirstChar(s: string, sub: string)
    requires |sub| > 0 && forall i :: 0 <= i < |s| ==> s[i] != sub[0]
    ensures !Contains(s, sub)
  {
    forall i | 0 <= i <= |s|
      ensures !OccursAt(s, sub, i)
    {
      if i + |sub| <= |s| {
        assert s[i..i + |sub|][0] == s[i];
      }
    }
  }

  /** Which layers are solid, for every layer: never one that is not a tile
      layer, always a tile layer whose name begins with "collision" or
      "house" in any mix of case, and never one whose name has no c and no
      h in either case. */
  lemma SolidByName(layer: Layer)
    ensures !layer.isTileLayer ==> !Solid(layer)
    ensures layer.isTileLayer && (OccursAt(Lower(layer.name), "collision", 0) || OccursAt(Lower(layer.name), "house", 0)) ==>
            Solid(layer)
    ensures (forall i :: 0 <= i < |layer.name| ==> layer.name[i] !in "cChH") ==> !Solid(layer)
  {
    var l := Lower(layer.name);
    if forall i :: 0 <= i < |layer.name| ==> layer.name[i] !in "cChH" {
      forall i | 0 <= i < |l|
        ensures l[i] != 'c' && l[i] != 'h'
      {
        assert layer.name[i] !in "cChH";
      }
      MissingFirstChar(l, "collision");
      MissingFirstChar(l, "house");
    }
  }

  lemma SolidExamples()
    ensures Solid(Layer("Collision", true, []))
    ensures Solid(Layer("HouseWalls", true, []))
    ensures !Solid(Layer("Collision", false, []))
    ensures !Solid(Layer("Ground", true, []))
  {
    assert OccursAt(Lower("Collision"), "collision", 0);
    assert OccursAt(Lower("HouseWalls"), "house", 0);
    var g := Lower("Ground");
    assert g == "ground";
    MissingFirstChar(g, "collision");
    MissingFirstChar(g, "house");
  }

  // ---------------------------------------------------------------------------
  // The collision map

  /** The rectangle of one map cell. */
  function CellRect(t: TileEntry): (r: Rect)
    ensures r.w == TILE_SIZE && r.h == TILE_SIZE
    ensures r.CollidePoint(t.x * TILE_SIZE, t.y * TILE_SIZE)
  {
    Rect(t.x * TILE_SIZE, t.y * TILE_SIZE, TILE_SIZE, TILE_SIZE)
  }

  /** The rectangles of the non-empty cells, in layer order. */
  function CellRects(tiles: seq<TileEntry>): seq<Rect>
  {
    if tiles == [] then []
    else
      var last := tiles[|tiles| - 1];
      CellRects(tiles[..|tiles| - 1]) + if last.gid != 0 then [CellRect(last)] else []
  }

  function LayerRects(layer: Layer): seq<Rect> {
    if Solid(layer) then CellRects(layer.tiles) else []
  }

  /** The collision map as _create_collision_map builds it. */
  function CollisionRects(layers: seq<Layer>): seq<Rect>
  {
    if layers == [] then []
    else CollisionRects(layers[..|layers| - 1]) + LayerRects(layers[|layers| - 1])
  }

  /** _create_collision_map: one TILE_SIZE square per non-empty cell of every
      solid layer, appended layer by layer and cell by cell. */
  method CreateCollisionMap(layers: seq<Layer>) returns (rects: seq<Rect>)
    ensures rects == CollisionRects(layers)
  {
    rects := [];
    for i := 0 to |layers|
      invariant rects == CollisionRects(layers[..i])
    {
      var layer := layers[i];
      assert layers[..i + 1][..i] == layers[..i];
      if layer.isTileLayer && (Contains(Lower(layer.name), "collision") || Contains(Lower(layer.name), "house")) {
        for j := 0 to |layer.tiles|
          invariant rects == CollisionRects(layers[..i]) + CellRects(layer.tiles[..j])
        {
          var t := layer.tiles[j];
          assert layer.tiles[..j + 1][..j] == layer.tiles[..j];
          if t.gid != 0 {
            rects := rects + [Rect(t.x * TILE_SIZE, t.y * TILE_SIZE, TILE_SIZE, TILE_SIZE)];
          }
        }
        assert layer.tiles[..|layer.tiles|] == layer.tiles;
      }
    }
    assert layers[..|layers|] == layers;
  }

  /** A cell rectangle comes from a non-empty cell, and every non-empty cell
      has one. */
  lemma {:induction false} CellRectsExactly(tiles: seq<TileEntry>, r: Rect)
    ensures r in CellRects(tiles) <==> exists k :: 0 <= k < |tiles| && tiles[k].gid != 0 && r == CellRect(tiles[k])
    decreases |tiles|
  {
    if tiles != [] {
      var init := tiles[..|tiles| - 1];
      CellRectsExactly(init, r);
      if r in CellRects(tiles) && r !in CellRects(init) {
        assert r == CellRect(tiles[|tiles| - 1]);
      }
      if exists k :: 0 <= k < |tiles| && tiles[k].gid != 0 && r == CellRect(tiles[k]) {
        var k :| 0 <= k < |tiles| && tiles[k].gid != 0 && r == CellRect(tiles[k]);
        if k < |tiles| - 1 {
          assert init[k] == tiles[k];
        }
      }
    }
  }

  /** One rectangle per non-empty cell: the collision map is exactly as long
      as the solid layers have non-empty cells. */
  function NonEmptyCells(tiles: seq<TileEntry>): nat {
    if tiles == [] then 0
    else NonEmptyCells(tiles[..|tiles| - 1]) + if tiles[|tiles| - 1].gid != 0 then 1 else 0
  }

  function SolidCells(layers: seq<Layer>): nat {
    if layers == [] then 0
    else SolidCells(layers[..|layers| - 1]) + if Solid(layers[|layers| - 1]) then NonEmptyCells(layers[|layers| - 1].tiles) else 0
  }

  lemma {:induction false} CollisionRectsCount(layers: seq<Layer>)
    ensures |CollisionRects(layers)| == SolidCells(layers)
    decreases |layers|
  {
    if layers != [] {
      CollisionRectsCount(layers[..|layers| - 1]);
      CellRectsCount(layers[|layers| - 1].tiles);
    }
  }

  lemma {:induction false} CellRectsCount(tiles: seq<TileEntry>)
    ensures |CellRects(tiles)| == NonEmptyCells(tiles)
    decreases |tiles|
  {
    if tiles != [] {
      CellRectsCount(tiles[..|tiles| - 1]);
    }
  }

  /** A rectangle is in the collision map iff it is the cell of a non-empty
      entry of a solid layer. */
  lemma {:induction false} CollisionRectsExactly(layers: seq<Layer>, r: Rect)
    ensures r in CollisionRects(layers) <==>
      exists i, k :: 0 <= i < |layers| && Solid(layers[i]) && 0 <= k < |layers[i].tiles| &&
                     layers[i].tiles[k].gid != 0 && r == CellRect(layers[i].tiles[k])
    decreases |layers|
  {
    if layers != [] {
      var init := layers[..|layers| - 1];
      var last := layers[|layers| - 1];
      CollisionRectsExactly(init, r);
      CellRectsExactly(last.tiles, r);
      if exists i, k :: 0 <= i < |layers| && Solid(layers[i]) && 0 <= k < |layers[i].tiles| &&
                        layers[i].tiles[k].gid != 0 && r == CellRect(layers[i].tiles[k]) {
        var i, k :| 0 <= i < |layers| && Solid(layers[i]) && 0 <= k < |layers[i].tiles| &&
                    layers[i].tiles[k].gid != 0 && r == CellRect(layers[i].tiles[k]);
        if i < |layers| - 1 {
          assert init[i] == layers[i];
        }
      }
      if r in CollisionRects(layers) && r !in CollisionRects(init) {
        assert r in LayerRects(last);
        var k :| 0 <= k < |last.tiles| && last.tiles[k].gid != 0 && r == CellRect(last.tiles[k]);
        assert Solid(layers[|layers| - 1]);
      }
    }
  }

  // ---------------------------------------------------------------------------
  // Queries

  /** Some collision rectangle of the map overlaps `r`. */
  predicate Collides(m: MapData, r: Rect) {
    exists i :: 0 <= i < |m.collisionMap| && r.CollideRect(m.collisionMap[i])
  }

  /** check_collision: scan the collision rectangles in order. */
  method CheckCollision(m: MapData, r: Rect) returns (hit: bool)
    ensures hit <==> Collides(m, r)
  {
    for i := 0 to |m.collisionMap|
      invariant forall j :: 0 <= j < i ==> !r.CollideRect(m.collisionMap[j])
    {
      if r.CollideRect(m.collisionMap[i]) {
        return true;
      }
    }
    return false;
  }

  /** Two pixel positions lie in the same map cell. */
  predicate SameCell(a: Position, b: Position) {
    FloorDiv(a.x, TILE_SIZE) == FloorDiv(b.x, TILE_SIZE) && FloorDiv(a.y, TILE_SIZE) == FloorDiv(b.y, TILE_SIZE)
  }

  /** check_teleport: the first teleporter in the same cell as `pos`, if any. */
  method CheckTeleport(m: MapData, pos: Position) returns (tp: Option<Teleport>)
    ensures tp.None? <==> forall i :: 0 <= i < |m.teleporters| ==> !SameCell(m.teleporters[i].pos, pos)
    ensures tp.Some? ==> exists i :: 0 <= i < |m.teleporters| && tp.value == m.teleporters[i] &&
                                     SameCell(m.teleporters[i].pos, pos) &&
                                     forall j :: 0 <= j < i ==> !SameCell(m.teleporters[j].pos, pos)
  {
    for i := 0 to |m.teleporters|
      invariant forall j :: 0 <= j < i ==> !SameCell(m.teleporters[j].pos, pos)
    {
      var teleport := m.teleporters[i];
      if FloorDiv(teleport.pos.x, TILE_SIZE) != FloorDiv(pos.x, TILE_SIZE) {
        continue;
      }
      if FloorDiv(teleport.pos.y, TILE_SIZE) != FloorDiv(pos.y, TILE_SIZE) {
        continue;
      }
      return Some(teleport);
    }
    return None;
  }

  /** Every pixel of a cell is in the same cell as the cell's corner. */
  lemma InsideCell(tx: int, ty: int, pos: Position)
    requires (tx * TILE_SIZE) as real <= pos.x < ((tx + 1) * TILE_SIZE) as real
    requires (ty * TILE_SIZE) as real <= pos.y < ((ty + 1) * TILE_SIZE) as real
    ensures SameCell(SpawnFromTile(tx, ty), pos)
  {
    FloorDivOfCell(tx, pos.x, TILE_SIZE);
    FloorDivOfCell(ty, pos.y, TILE_SIZE);
    FloorDivOfCell(tx, (tx * TILE_SIZE) as real, TILE_SIZE);
    FloorDivOfCell(ty, (ty * TILE_SIZE) as real, TILE_SIZE);
  }

  // ---------------------------------------------------------------------------
  // The spawn point in the save file is a tile; in memory it is a pixel.

  /** from_dict: the spawn tile scaled to pixels. */
  function SpawnFromTile(tx: int, ty: int): Position {
    Position((tx * TILE_SIZE) as real, (ty * TILE_SIZE) as real)
  }

  /** to_dict: the spawn pixel floor-divided back to a tile. */
  function SpawnToTile(p: Position): (int, int) {
    (FloorDiv(p.x, TILE_SIZE), FloorDiv(p.y, TILE_SIZE))
  }

  lemma SpawnRoundTrip(tx: int, ty: int)
    ensures SpawnToTile(SpawnFromTile(tx, ty)) == (tx, ty)
  {
    FloorDivOfCell(tx, (tx * TILE_SIZE) as real, TILE_SIZE);
    FloorDivOfCell(ty, (ty * TILE_SIZE) as real, TILE_SIZE);
  }
}
