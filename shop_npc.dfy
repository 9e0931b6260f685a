/** The stationary shop keeper (src/entities/shop_npc.py): placed on a tile,
    it occupies exactly that tile and is "near" the player when the centres
    of their rectangles are within a given distance. It never moves, so it is
    a value here. */
module ShopNpc {
  import opened Common

  /** is_player_near's default interaction distance, in pixels. */
  const DEFAULT_DISTANCE := 50

  datatype Npc = Npc(position: Position, rect: Rect, spritePath: string)

  /** The constructor: tile coordinates become pixel coordinates, and the
      interaction rectangle is one tile large at that corner. */
  function NewNpc(tx: int, ty: int, spritePath: string): (n: Npc)
    ensures n.position.x == n.rect.x as real && n.position.y == n.rect.y as real
    ensures n.rect.w == TILE_SIZE && n.rect.h == TILE_SIZE
  {
    Npc(Position((tx * TILE_SIZE) as real, (ty * TILE_SIZE) as real),
        Rect(tx * TILE_SIZE, ty * TILE_SIZE, TILE_SIZE, TILE_SIZE),
        spritePath)
  }

  /** The rectangle covers exactly the pixels of the NPC's tile. */
  lemma NpcCoversItsTile(tx: int, ty: int, spritePath: string, px: int, py: int)
    ensures NewNpc(tx, ty, spritePath).rect.CollidePoint(px, py) <==>
            px / TILE_SIZE == tx && py / TILE_SIZE == ty
  {
    PixelInTile(tx, px);
    PixelInTile(ty, py);
  }

  /** A pixel lies in [t*TS, (t+1)*TS) exactly when it divides down to t. */
  lemma PixelInTile(t: int, p: int)
    ensures t * TILE_SIZE <= p < t * TILE_SIZE + TILE_SIZE <==> p / TILE_SIZE == t
  {
    var q, r := p / TILE_SIZE, p % TILE_SIZE;
    assert p == q * TILE_SIZE + r && 0 <= r < TILE_SIZE;
    if q < t {
      assert q * TILE_SIZE <= (t - 1) * TILE_SIZE;
    } else if q > t {
      assert q * TILE_SIZE >= (t + 1) * TILE_SIZE;
    }
  }

  /** is_player_near: the squared distance between the centres of the
      player's rectangle and the NPC's is at most distance². The result sits
      between the diamond |dx| + |dy| <= |distance| and the box
      |dx|, |dy| <= |distance|. */
  function IsPlayerNear(n: Npc, player: Rect, distance: int): (near: bool)
    ensures var dx, dy := player.CenterX() - n.rect.CenterX(), player.CenterY() - n.rect.CenterY();
            (near ==> Abs(dx) <= Abs(distance) && Abs(dy) <= Abs(distance)) &&
            (Abs(dx) + Abs(dy) <= Abs(distance) ==> near)
  {
    var dx := player.CenterX() - n.rect.CenterX();
    var dy := player.CenterY() - n.rect.CenterY();
    SquareBounds(dx, dy, distance);
    dx * dx + dy * dy <= distance * distance
  }

  lemma SquareBounds(dx: int, dy: int, d: int)
    ensures dx * dx + dy * dy <= d * d ==> Abs(dx) <= Abs(d) && Abs(dy) <= Abs(d)
    ensures Abs(dx) + Abs(dy) <= Abs(d) ==> dx * dx + dy * dy <= d * d
  {
    var a, b, c := Abs(dx), Abs(dy), Abs(d);
    assert dx * dx == a * a && dy * dy == b * b && d * d == c * c;
    SquareGrows(a, c);
    SquareGrows(b, c);
    assert a * a >= 0 && b * b >= 0;
    SumSquared(a, b, c);
  }

  lemma SquareGrows(a: nat, c: nat)
    ensures a > c ==> a * a > c * c
  {
    if a > c {
      assert a * a >= a * (c + 1);
      assert a * (c + 1) > c * c;
    }
  }

  lemma SumSquared(a: nat, b: nat, c: nat)
    ensures a + b <= c ==> a * a + b * b <= c * c
  {
    if a + b <= c {
      assert c * c >= c * (a + b);
      assert c * (a + b) >= (a + b) * (a + b);
      assert (a + b) * (a + b) == a * a + 2 * a * b + b * b;
      assert a * b >= 0;
    }
  }

  /** A larger interaction distance accepts everything a smaller one does. */
  lemma NearMonotone(n: Npc, player: Rect, d1: int, d2: int)
    requires 0 <= d1 <= d2
    ensures IsPlayerNear(n, player, d1) ==> IsPlayerNear(n, player, d2)
  {
    assert d1 * d1 <= d1 * d2 <= d2 * d2;
  }

  /** A player whose rectangle is the NPC's own is near at any distance. */
  lemma SamePlaceIsNear(n: Npc, distance: int)
    ensures IsPlayerNear(n, n.rect, distance)
  {
    assert distance * distance >= 0;
  }
}
