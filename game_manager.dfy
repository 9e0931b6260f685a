/** The game manager (src/core/managers/game_manager.py): the loaded maps, the
    key of the current one, the player, the enemy trainers of every map, and
    the two-phase map switch (request now, apply on a later frame). Saving and
    loading are not modelled. */
module GameManagerModel {
  import opened Common
  import opened Maps
  import opened PlayerEntity
  import opened Bags

  /** The fields the map switch works on. */
  datatype Switch = Switch(currentMapKey: string, shouldChangeScene: bool, nextMap: string)

  /** switch_map: a known target is recorded and the change requested; an
      unknown one is refused (with a warning) and nothing changes. */
  function RequestSwitch(s: Switch, maps: map<string, MapData>, target: string): (s': Switch)
    ensures target !in maps ==> s' == s
    ensures target in maps ==> s'.shouldChangeScene && s'.nextMap == target
    ensures s'.currentMapKey == s.currentMapKey
  {
    if target !in maps then s else s.(nextMap := target, shouldChangeScene := true)
  }

  /** try_switch_map: apply a pending request and clear it. */
  function ApplySwitch(s: Switch): (s': Switch)
    ensures !s.shouldChangeScene ==> s' == s
    ensures s.shouldChangeScene ==> s' == Switch(s.nextMap, false, "")
  {
    if s.shouldChangeScene then Switch(s.nextMap, false, "") else s
  }

  /** The manager's invariant: a pending request names a loaded map. */
  predicate PendingIsLoaded(s: Switch, maps: map<string, MapData>) {
    s.shouldChangeScene ==> s.nextMap in maps
  }

  /** Both steps keep the invariant, and applying leaves nothing pending. */
  lemma SwitchKeepsInvariant(s: Switch, maps: map<string, MapData>, target: string)
    requires PendingIsLoaded(s, maps)
    ensures PendingIsLoaded(RequestSwitch(s, maps, target), maps)
    ensures PendingIsLoaded(ApplySwitch(s), maps)
    ensures !ApplySwitch(s).shouldChangeScene
  {
  }

  /** Requesting a loaded map and applying it makes that map current, and the
      current map is a loaded one whenever a request was applied. */
  lemma RequestThenApply(s: Switch, maps: map<string, MapData>, target: string)
    requires PendingIsLoaded(s, maps)
    ensures target in maps ==> ApplySwitch(RequestSwitch(s, maps, target)).currentMapKey == target
    ensures target !in maps ==> ApplySwitch(RequestSwitch(s, maps, target)) == ApplySwitch(s)
    ensures s.shouldChangeScene ==> ApplySwitch(s).currentMapKey in maps
  {
  }

  /** A second request before the switch is applied overrides the first. */
  lemma LastRequestWins(s: Switch, maps: map<string, MapData>, a: string, b: string)
    requires a in maps && b in maps
    ensures RequestSwitch(RequestSwitch(s, maps, a), maps, b) == RequestSwitch(s, maps, b)
  {
  }

  class GameManager {
    var maps: map<string, MapData>
    var currentMapKey: string
    var player: Player?
    var enemyTrainers: map<string, seq<Rect>>
    var bag: Bag
    var shouldChangeScene: bool
    var nextMap: string

    function Switching(): Switch
      reads this
    {
      Switch(currentMapKey, shouldChangeScene, nextMap)
    }

    /** Enemy trainers are modelled by their animation rectangles, the only
        part of them the manager looks at. A missing bag starts empty. */
    constructor (maps0: map<string, MapData>, startMap: string, player0: Player?,
                 trainers: map<string, seq<Rect>>, bag0: Option<Bag>)
      ensures maps == maps0 && player == player0 && enemyTrainers == trainers
      ensures Switching() == Switch(startMap, false, "")
      ensures bag0.Some? ==> bag == bag0.value
      ensures bag0.None? ==> fresh(bag) && bag.items == [] && bag.monsters == []
      ensures PendingIsLoaded(Switching(), maps)
    {
      maps, currentMapKey, player, enemyTrainers := maps0, startMap, player0, trainers;
      if bag0.Some? {
        bag := bag0.value;
      } else {
        bag := new Bag([], []);
      }
      shouldChangeScene, nextMap := false, "";
    }

    /** current_map; None where the game raises KeyError. */
    function CurrentMap(): (m: Option<MapData>)
      reads this
      ensures m.Some? <==> currentMapKey in maps
      ensures m.Some? ==> m.value == maps[currentMapKey]
    {
      if currentMapKey in maps then Some(maps[currentMapKey]) else None
    }

    /** current_enemy_trainers; None where the game raises KeyError. */
    function CurrentEnemyTrainers(): (es: Option<seq<Rect>>)
      reads this
      ensures es.Some? <==> currentMapKey in enemyTrainers
      ensures es.Some? ==> es.value == enemyTrainers[currentMapKey]
    {
      if currentMapKey in enemyTrainers then Some(enemyTrainers[currentMapKey]) else None
    }

    method SwitchMap(target: string)
      modifies this
      ensures Switching() == RequestSwitch(old(Switching()), maps, target)
      ensures maps == old(maps) && player == old(player) && enemyTrainers == old(enemyTrainers) && bag == old(bag)
    {
      if target !in maps {
        return;
      }
      nextMap := target;
      shouldChangeScene := true;
    }

    /** try_switch_map: apply a pending switch and move the player (if any)
        to the new map's spawn point. */
    method TrySwitchMap()
      requires PendingIsLoaded(Switching(), maps)
      modifies this, player
      ensures Switching() == ApplySwitch(old(Switching()))
      ensures maps == old(maps) && player == old(player) && enemyTrainers == old(enemyTrainers) && bag == old(bag)
      ensures player != null && old(shouldChangeScene) ==>
        player.x == maps[currentMapKey].spawn.x && player.y == maps[currentMapKey].spawn.y &&
        player.path == old(player.path) && player.targetTile == old(player.targetTile) &&
        player.isAutoMoving == old(player.isAutoMoving) && player.direction == old(player.direction)
      ensures player != null && !old(shouldChangeScene) ==> player.State() == old(player.State())
    {
      if shouldChangeScene {
        currentMapKey := nextMap;
        nextMap := "";
        shouldChangeScene := false;
        if player != null {
          var spawn := maps[currentMapKey].spawn;
          player.x, player.y := spawn.x, spawn.y;
        }
      }
    }

    /** check_collision: the current map's collision rectangles first, then
        the current map's enemy trainers. None stands for the KeyError the
        game raises when the current key has no map, or (only once the map
        check has failed) no trainer list. */
    method CheckCollision(r: Rect) returns (hit: Option<bool>)
      ensures currentMapKey !in maps ==> hit.None?
      ensures currentMapKey in maps && Collides(maps[currentMapKey], r) ==> hit == Some(true)
      ensures currentMapKey in maps && !Collides(maps[currentMapKey], r) ==>
        (hit.Some? <==> currentMapKey in enemyTrainers) &&
        (hit.Some? ==> (hit.value <==> exists i :: 0 <= i < |enemyTrainers[currentMapKey]| &&
                                                  r.CollideRect(enemyTrainers[currentMapKey][i])))
    {
      if currentMapKey !in maps {
        return None;
      }
      var onMap := Maps.CheckCollision(maps[currentMapKey], r);
      if onMap {
        return Some(true);
      }
      if currentMapKey !in enemyTrainers {
        return None;
      }
      var trainers := enemyTrainers[currentMapKey];
      for i := 0 to |trainers|
        invariant forall j :: 0 <= j < i ==> !r.CollideRect(trainers[j])
      {
        if r.CollideRect(trainers[i]) {
          return Some(true);
        }
      }
      return Some(false);
    }
  }
}
