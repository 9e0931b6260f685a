# A verified model of the RPG's navigation, map and interface core

The game is a top-down pygame RPG. The player walks on a tile map between
buildings, and can ask for automatic navigation to HOME, SHOP or GYM. It can
also talk to a shop keeper who sells items for coins, fight trainers in a
turn-based battle scene and catch monsters in bushes. The overlays for
settings, backpack and shop are driven by small mouse widgets.

This project models that core in Dafny and proves what each part promises:

- **Route finding** (`pathfinder.dfy`): `find_path` is a breadth-first search
  over the 4-connected 100×100 tile grid, with no heuristic. The proofs show
  that the route it returns:
  - is a real walk to the goal that leaves out the start;
  - is as short as any route;
  - is `[]` exactly when the goal is the start or unreachable.

  With the game's obstacle test, which blocks nothing, the route `find_path`
  returns between two in-grid tiles has Manhattan length.
- **The player** (`player.dfy`):
  - `set_path`, `update`, `_snap_to_grid` and `move_along_path`, whose
    waypoint-following state machine is proved to make progress and to end
    on the last tile;
  - the continuous motion step is a parameter, because it depends on speed
    and frame time.
- **Starting a navigation** (`navigation.dfy`): `start_navigation` and the
  overlay's press-and-release buttons.
- **The map** (`maps.dfy`): the collision map built from the solid layers, the
  collision test and the teleporter lookup.
- **The game manager** (`game_manager.dfy`): the two-phase map switch and the
  lookup of the current map and trainers.
- **Shop** (`shop.dfy`, `shop_npc.dfy`): purchases against the bag, the timed
  message, and the shop keeper's tile and proximity test.
- **Battle and catch** (`battle.dfy`, `catch.dfy`): the turn-based actions and
  the two button variants, one firing on the rising edge and one firing every
  frame.
- **Widgets and settings** (`widgets.dfy`, `slider.dfy`, `settings.dfy`,
  `settings_overlay.dfy`): the image button, the event-driven slider, and the
  two settings pages with their checkbox, slider and volume rule.
- **Backpack and game scene** (`backpack.dfy`, `game_scene.dfy`): the item grid
  and its resynchronisation with the bag, the overlay switches, the E-key
  interaction and the enemy-warning scan.

Objects the source updates in place are classes, each with a `State()` view.
Their methods are proved equal to pure step functions on that view, and the
lemmas about the step functions carry the properties. Floats are modelled as
reals. Python's `//`, `int()` and `round()` are written out explicitly in
`common.dfy`. The game's tile size comes from a settings file that is not part
of this model, so `TILE_SIZE` is an arbitrary positive constant, and every
proof holds for any such value.

## Model

| member | source | states |
|---|---|---|
| Pathfinder.FindPath | src/utils/pathfinder.py:3-62 | the result is [] when start is the goal or the goal is off-grid or blocked; a non-empty result is a walk of adjacent walkable tiles ending at the goal that never contains start; whenever any route reaches the goal the result is non-empty and no longer than that route |
| Pathfinder.Search | src/utils/pathfinder.py:11-53 | the breadth-first loop terminates; when it pops the goal every tile nearer to start than the goal has had all four neighbours examined; when the queue runs dry start is not the goal and no route reaches it |
| Pathfinder.Backtrack | src/utils/pathfinder.py:55-62 | walking came_from back from the goal and reversing yields a path whose length is the goal's breadth-first distance, empty iff goal is start, otherwise a route from start to goal not containing start |
| Pathfinder.FindPathOnMap | src/utils/pathfinder.py:64-82 | with is_blocked's constant False: the result is a shortest route, and when both tiles are in the grid its length is exactly their Manhattan distance |
| Pathfinder.NotFoundMeansUnreachable | src/utils/pathfinder.py:18-53 | once every discovered tile has been expanded without meeting the goal, no route from start reaches it |
| Pathfinder.ClosedBelowGoal | src/utils/pathfinder.py:18-24 | at the moment the goal is popped every discovered tile nearer to start has been expanded (breadth-first order) |
| Pathfinder.RouteBound | src/utils/pathfinder.py:18-48 | a route to the goal from a discovered tile is at least as long as the goal's distance minus that tile's |
| Pathfinder.RouteStaysDiscovered | src/utils/pathfinder.py:34-48 | when every discovered tile is expanded, every tile of a route from a discovered tile is discovered |
| Pathfinder.RouteWalkable | src/utils/pathfinder.py:35-43 | every tile of a route lies inside the grid and passes the obstacle test |
| Pathfinder.StaircaseIsRoute | src/utils/pathfinder.py:64-82 | with nothing blocked, the walk along x then along y between two distinct in-grid tiles is a route to the second of Manhattan length |
| Pathfinder.RouteAtLeastManhattan | src/utils/pathfinder.py:27-32 | a 4-connected route cannot end closer than its length in Manhattan distance |
| Pathfinder.GridShrinks | src/utils/pathfinder.py:45-48 | discovering a tile strictly shrinks the undiscovered part of the finite grid (the search's termination measure) |
| Pathfinder.AdjacentIsNeighbor | src/utils/pathfinder.py:27-32 | every tile adjacent to the current one is among the four neighbours examined |
| Pathfinder.Expand | src/utils/pathfinder.py:26-48 | examining the four neighbours of the head tile keeps the breadth-first invariants and only grows the queue and came_from |
| PlayerEntity.Facing | src/entities/player.py:186-189 | horizontal motion dominates faces right iff dx > 0 and left otherwise; otherwise faces down iff dy > 0 and up otherwise |
| PlayerEntity.Player.constructor | src/entities/player.py:15-22 | a new player has no path, no target tile and is not navigating |
| PlayerEntity.Player.SetPath | src/entities/player.py:25-30 | the path becomes the route minus its first tile and navigation is switched on, nothing else changes |
| PlayerEntity.Player.Update | src/entities/player.py:42-51 | while navigating one frame is one waypoint step; otherwise the navigation state is untouched and manual input is reported |
| PlayerEntity.Player.SnapToGrid | src/entities/player.py:128-133 | the chosen axes are rounded to the nearest multiple of the tile size, the other axis and all navigation state are kept |
| PlayerEntity.Player.MoveAlongPath | src/entities/player.py:149-189 | one frame of the waypoint follower equals the step function whose progress and arrival are proved below |
| PlayerEntity.SnapIsNearestGridLine | src/entities/player.py:128-133 | a snapped coordinate is a whole number of tiles and lies within half a tile of the original |
| PlayerEntity.SnapIdempotent | src/entities/player.py:128-133 | snapping an already snapped coordinate changes nothing |
| PlayerEntity.FollowStepProgress | src/entities/player.py:150-177 | a frame never increases the number of waypoints left; navigation stops only with nothing left; reaching a tile removes exactly one waypoint |
| PlayerEntity.FollowStepTakesFront | src/entities/player.py:154-160 | without a target the front of the path becomes the target; with one the path is untouched |
| PlayerEntity.FollowStepSnapsOnTile | src/entities/player.py:162-189 | within 5 pixels the player lands exactly on the target tile and keeps its facing; otherwise it moves by the motion step and faces the target |
| PlayerEntity.FramesAdd | src/entities/player.py:42-51 | running a+b frames is running a frames then b frames |
| PlayerEntity.ExactFollowReachesEnd | src/entities/player.py:149-189 | with an exact motion step the player stands on the last tile of its path, with nothing left, within two frames per waypoint, and the next frame ends navigation |
| PlayerEntity.ExactOneWaypoint | src/entities/player.py:149-189 | one waypoint takes one or two frames and leaves the player exactly on that tile with the rest of the path |
| PlayerEntity.IdleStaysIdle | src/entities/player.py:150-152 | a player with no path, no target and navigation off stays put forever |
| PlayerEntity.AdjacentGoalNeverReached | src/entities/player.py:25-30 | as written, a one-tile route (a goal next to the player) leaves nothing to walk: the player never moves and navigation ends |
| PlayerEntity.CorrectedRouteReachesGoal | src/entities/player.py:25-30 | keeping the route's first tile, the player reaches the route's last tile within two frames per tile and then stops |
| Maps.LowerChar | src/maps/map.py:94 | ASCII upper-case letters map to their lower-case counterpart, every other character is unchanged |
| Maps.Lower | src/maps/map.py:94 | lower() maps each character independently and keeps the length |
| Maps.MissingFirstChar | src/maps/map.py:94 | a name lacking the first character of a word does not contain that word |
| Maps.SolidByName | src/maps/map.py:93-94 | for every layer: a non-tile layer is never solid; a tile layer whose name begins with "collision" or "house" in any case is solid; a name with no c or h in either case is never solid |
| Maps.SolidExamples | src/maps/map.py:93-94 | tile layers named "Collision" or "HouseWalls" are solid; a non-tile "Collision" layer and a tile layer "Ground" are not |
| Maps.CellRect | src/maps/map.py:97-102 | a tile's rectangle is one tile large and contains the tile's top-left pixel |
| Maps.CreateCollisionMap | src/maps/map.py:91-104 | the loop builds exactly the collision rectangles of the visible solid layers, in layer and tile order |
| Maps.CollisionRectsExactly | src/maps/map.py:91-104 | a rectangle is in the collision map iff it is the cell of a non-empty tile of a solid layer |
| Maps.CellRectsExactly | src/maps/map.py:95-103 | a rectangle comes from a layer iff it is the cell of one of its non-empty tiles |
| Maps.CollisionRectsCount | src/maps/map.py:91-104 | the collision map has one rectangle per non-empty tile of the solid layers |
| Maps.CellRectsCount | src/maps/map.py:95-103 | a layer contributes one rectangle per non-empty tile |
| Maps.CheckCollision | src/maps/map.py:43-51 | true iff the rectangle strictly overlaps some collision rectangle |
| Maps.CheckTeleport | src/maps/map.py:53-69 | none iff no teleporter shares the position's tile; otherwise the first teleporter that does |
| Maps.InsideCell | src/maps/map.py:53-69 | any position inside a tile is on the same tile as that tile's spawn corner |
| Maps.SpawnRoundTrip | src/maps/map.py:106-120 | saving a spawn loaded from tile coordinates gives back those tile coordinates |
| GameManagerModel.RequestSwitch | src/core/managers/game_manager.py:56-62 | a request for a loaded map records it as pending; an unknown one changes nothing; the current map is kept |
| GameManagerModel.ApplySwitch | src/core/managers/game_manager.py:64-70 | a pending switch makes the pending map current and clears the request; no request changes nothing |
| GameManagerModel.SwitchKeepsInvariant | src/core/managers/game_manager.py:56-70 | a pending switch always names a loaded map, and applying leaves nothing pending |
| GameManagerModel.RequestThenApply | src/core/managers/game_manager.py:56-70 | requesting a loaded map then applying makes it current; an unknown request leaves applying as before |
| GameManagerModel.LastRequestWins | src/core/managers/game_manager.py:56-62 | of two requests for loaded maps only the second matters |
| GameManagerModel.GameManager.constructor | src/core/managers/game_manager.py:27-42 | the manager starts on the given map with nothing pending, and with the given bag or a fresh empty one |
| GameManagerModel.GameManager.CurrentMap | src/core/managers/game_manager.py:44-46 | the current map exists iff its key is loaded, and is that map |
| GameManagerModel.GameManager.CurrentEnemyTrainers | src/core/managers/game_manager.py:48-50 | the current trainers exist iff the key has an entry, and are that entry |
| GameManagerModel.GameManager.SwitchMap | src/core/managers/game_manager.py:56-62 | the switch state advances by RequestSwitch, everything else is kept |
| GameManagerModel.GameManager.TrySwitchMap | src/core/managers/game_manager.py:64-70 | the switch state advances by ApplySwitch; on a switch the player is moved to the new map's spawn with its navigation kept |
| GameManagerModel.GameManager.CheckCollision | src/core/managers/game_manager.py:72-79 | fails without a current map; true on a map collision; otherwise, when the map has trainers, true iff the rectangle overlaps one of them |
| Navigation.TileOf | src/scenes/navigation_overlay.py:145-158 | the tile computed by floor division contains the position |
| Navigation.TileOfCell | src/scenes/navigation_overlay.py:145-158 | every position inside a tile is mapped to that tile |
| Navigation.GoalTile | src/scenes/navigation_overlay.py:140-153 | a destination exists exactly for HOME, SHOP and GYM |
| Navigation.GoalTilesFromSpawnTile | src/scenes/navigation_overlay.py:140-153 | for a spawn on a tile: HOME is that tile, SHOP is 2 right and 1 down, GYM is 9 right and 6 up |
| Navigation.SharedSpawnGoesNowhere | src/scenes/navigation_overlay.py:128-167 | with the map's spawn equal to the player's position, as after try_switch_map, navigating HOME always ends with no path |
| Navigation.FixedSpawnReachesHome | src/scenes/navigation_overlay.py:128-167 | with the spawn kept on its loaded tile, navigating HOME from any other in-grid tile gives a route ending on the spawn tile |
| Navigation.StartNavigation | src/scenes/navigation_overlay.py:128-167 | without a manager nothing happens; a missing map or player is a failure; an unknown name routes nothing; otherwise the player gets the route minus its first tile, where the route reaches the goal and no route is shorter (Manhattan length when both tiles are in the grid), or nothing when no route exists |
| Navigation.PressStepFires | src/scenes/navigation_overlay.py:26-43 | a button fires iff released over it after a press over it, and firing clears the press |
| Navigation.AtMostOncePerPress | src/scenes/navigation_overlay.py:26-43 | over any run of frames a button fires at most once per press begun over it |
| Navigation.NavButton.constructor | src/scenes/navigation_overlay.py:15-18 | a new button is neither hovered nor pressed |
| Navigation.NavButton.Update | src/scenes/navigation_overlay.py:26-43 | one frame of the button equals the press step |
| Shop.FirstNamed | src/scenes/shop_overlay.py:110-115 | finds the first entry with the name, or reports that none has it |
| Shop.PurchaseSucceedsIffAffordable | src/scenes/shop_overlay.py:110-118 | a purchase succeeds iff the first Coins entry holds at least the price; a failed one changes nothing |
| Shop.PurchaseEffect | src/scenes/shop_overlay.py:118-141 | success takes the price off the coins and adds one to the first entry of the item, or appends a new entry of count 1; nothing else changes |
| Shop.NamesKept | src/scenes/shop_overlay.py:122-133 | changing counts does not change which entry is first found by name |
| Shop.PurchaseKeepsCount | src/scenes/shop_overlay.py:118-141 | a purchase lowers the bag's total count by the price and raises it by one; a failed one keeps it |
| Shop.TotalUpdate | src/scenes/shop_overlay.py:122-133 | changing one entry changes the total by the difference of counts |
| Shop.TotalAppend | src/scenes/shop_overlay.py:136-141 | appending an entry adds its count to the total |
| Shop.MessageShownWhileTimerRuns | src/scenes/shop_overlay.py:170-175 | while the elapsed time stays below the timer the message stays and the timer counts down by exactly the elapsed time |
| Shop.SumNonNegative | src/scenes/shop_overlay.py:170-175 | frame times that are never negative add up to a non-negative time |
| Shop.StoppedStaysStopped | src/scenes/shop_overlay.py:171 | once the timer is not positive nothing changes any more |
| Shop.MessageStuckAtZero | src/scenes/shop_overlay.py:171-175 | as written, two frames of one second leave the timer at exactly zero and the message is never cleared |
| Shop.MessageClearedAfterTimer | src/scenes/shop_overlay.py:171-175 | clearing at zero as well, the message is gone once the elapsed time reaches the timer |
| Shop.ClearedStaysCleared | src/scenes/shop_overlay.py:171-175 | with the clearing at zero a cleared message stays cleared |
| Shop.CallbacksVisible | src/scenes/shop_overlay.py:157-168 | after a frame's callbacks the overlay is still shown iff it was shown and the close button was not clicked |
| Shop.CallbackEffect | src/scenes/shop_overlay.py:82-160 | a buy button's callback is buy_item on its offer and keeps the overlay's visibility; the close button's only hides the overlay |
| Shop.ClickedButtonsSnoc | src/interface/components/button.py:49-73 | one more button in the loop adds its index iff its click goes through |
| Shop.ClickedButtonsExactly | src/interface/components/button.py:49-73 | button i is clicked iff the mouse is pressed over it and its latch is open; the clicked indices increase, so no callback runs twice in a frame |
| Shop.HeldMouseBuysOnce | src/interface/components/button.py:49-73 | a button clicked in one frame is not clicked again in the next while the mouse stays pressed |
| Shop.ShopOverlay.constructor | src/scenes/shop_overlay.py:6-90 | a new overlay is hidden with no message, its panel centred on the screen; one buy button per offer below each other, then the close button, all unclicked and with callbacks |
| Shop.ShopOverlay.SetMessage | src/scenes/shop_overlay.py:151-155 | the message is shown for two seconds |
| Shop.ShopOverlay.BuyItem | src/scenes/shop_overlay.py:92-149 | the bag's items become the purchase's result and the message reports success or the lack of coins |
| Shop.ShopOverlay.CloseOverlay | src/scenes/shop_overlay.py:157-160 | the overlay is hidden and the message kept |
| Shop.ShopOverlay.PressButton | src/interface/components/button.py:49-73 | one button's latch step, and its callback when the click goes through |
| Shop.ShopOverlay.RunButtons | src/scenes/shop_overlay.py:167-168 | the clicked buttons are those with the mouse pressed over them and an open latch, in order; every latch takes its step; the bag, notice and visibility are the clicked callbacks' result |
| Shop.ShopOverlay.Update | src/scenes/shop_overlay.py:162-175 | a hidden overlay changes nothing; a visible one runs the clicked buttons' purchases and close in button order, then ticks its timer as written; the close button's click is reported to the scene |
| Battle.FightHitsOpponent | src/scenes/battle_scene.py:119-124 | Fight takes 10 HP from the side whose turn it is not and hands the turn over |
| Battle.ItemHealsActor | src/scenes/battle_scene.py:129-135 | Item heals the acting side by 10, capped at its maximum, and hands the turn over |
| Battle.SwitchAndRun | src/scenes/battle_scene.py:137-146 | Switch only hands the turn over; Run changes nothing |
| Battle.ActKeepsWithinMax | src/scenes/battle_scene.py:117-146 | no action raises a monster's HP above its maximum |
| Battle.TurnAlternates | src/scenes/battle_scene.py:146 | without Run the turn after n actions is the first turn's iff n is even |
| Battle.ActsSnoc | src/scenes/battle_scene.py:117-146 | a further action applies to the state left by the earlier ones |
| Battle.OverIsFinal | src/scenes/battle_scene.py:158-159 | the battle is over once either monster has no HP left, and stays over |
| Battle.FiredCaptionsExactly | src/scenes/battle_scene.py:19-32 | in a frame, an action is taken iff some button with that caption is under the mouse, pressed, and was not pressed the frame before |
| Battle.FiredCaptionsSnoc | src/scenes/battle_scene.py:153-156 | one more button in the loop adds its caption to the frame's actions iff it fires |
| Battle.PressedPanelFiresNothing | src/scenes/battle_scene.py:19-32 | when every button remembers the mouse as pressed, a frame with the mouse still down fires nothing |
| Battle.HeldMouseActsOnce | src/scenes/battle_scene.py:19-32 | after a frame with the mouse down, the next frame with it still down takes no action anywhere on the panel |
| Battle.EdgeStepFiresOnRisingEdge | src/scenes/battle_scene.py:19-32 | an enabled button fires iff the mouse goes down over it after being up, never twice without a release; a disabled one keeps its state |
| Battle.Monster.constructor | src/scenes/battle_scene.py:51-58 | a monster takes its name, HP, maximum and level from the record |
| Battle.EdgeButton.constructor | src/scenes/battle_scene.py:11-17 | a new button is unpressed with no offset |
| Battle.EdgeButton.Update | src/scenes/battle_scene.py:19-32 | one frame equals the edge step |
| Battle.EdgeButton.ResetPress | src/scenes/battle_scene.py:34-35 | the remembered press is cleared |
| Battle.PanelLayout | src/scenes/battle_scene.py:70-81 | the battle and catch scenes' button row is centred to within a pixel, no two buttons overlap, and each sits 30 pixels above the bottom of the screen |
| Battle.BattleScene.constructor | src/scenes/battle_scene.py:64-86 | four buttons Fight, Item, Switch, Run at the centred row's rectangles, with no offset and no press recorded; the player moves first and the battle is not over |
| Battle.BattleScene.Enter | src/scenes/battle_scene.py:91-109 | the given monsters take part, the player moves first, no button remembers a press, the battle is not over |
| Battle.BattleScene.HandleAction | src/scenes/battle_scene.py:117-146 | the monsters and turn change as the action says, and the scene is left iff the action is Run |
| Battle.BattleScene.PressButton | src/scenes/battle_scene.py:19-32 | one button's edge step, and its action when it fires |
| Battle.BattleScene.RunButtons | src/scenes/battle_scene.py:155-156 | the actions taken are the captions of the buttons that fire, from the mouse and each button's previous press, in button order; every button's offset and press record take their edge step; the actions are applied in that order |
| Battle.BattleScene.Update | src/scenes/battle_scene.py:153-164 | while the battle runs, the actions are exactly the fired buttons' captions in order and each button takes its edge step; once over, no action and no button changes; it is over after the frame iff it was or a monster has no HP; the scene is left on Return or Run |
| Catch.FightStepEffect | src/scenes/catch_pokemon_scene.py:93-106 | Fight takes one HP, never below zero, and records the caught monster at full HP the first time the HP reaches zero |
| Catch.EnoughFightsCatch | src/scenes/catch_pokemon_scene.py:93-106 | at least as many fights as the enemy has HP (and at least one) catch it |
| Catch.FightsSnoc | src/scenes/catch_pokemon_scene.py:93-106 | a further fight applies to the state left by the earlier ones |
| Catch.HoldFiredExactly | src/scenes/catch_pokemon_scene.py:16-26 | in a frame, a callback runs iff the mouse is down over a button with that caption, whatever happened before |
| Catch.HoldCountOccurrences | src/scenes/catch_pokemon_scene.py:120-124 | the number of Fight callbacks in a frame is the number of times Fight occurs among the fired captions |
| Catch.HoldFiredSnoc | src/scenes/catch_pokemon_scene.py:120-124 | one more button in the loop adds its caption, and its Fight count, iff it fires |
| Catch.HeldFiresEveryFrame | src/scenes/catch_pokemon_scene.py:16-26 | a button held down over it fires on every frame |
| Catch.HoldButton.constructor | src/scenes/catch_pokemon_scene.py:9-14 | a new button has no offset |
| Catch.HoldButton.Update | src/scenes/catch_pokemon_scene.py:16-26 | one frame equals the hold step |
| Catch.CatchScene.constructor | src/scenes/catch_pokemon_scene.py:50-77 | nothing is caught yet; four buttons Fight, Item, Switch and Run at the same centred row of rectangles as the battle scene, with no offset |
| Catch.CatchScene.FightAction | src/scenes/catch_pokemon_scene.py:93-106 | one fight step on the enemy, the saved monsters kept |
| Catch.CatchScene.PressButton | src/scenes/catch_pokemon_scene.py:16-26 | one button's hold step, and a fight step when a Fight button fires |
| Catch.CatchScene.RunButtons | src/scenes/catch_pokemon_scene.py:120-124 | the number of fights is the number of Fight buttons under the pressed mouse; Run is asked for iff a Run button fires; each button's offset is its hold step; the fights are applied |
| Catch.CatchScene.Update | src/scenes/catch_pokemon_scene.py:108-142 | as many fights as Fight buttons fire are applied and every button takes its hold step; the scene is left iff Return is pressed or a Run button fires; on Return a caught monster is saved once the enemy has no HP |
| Widgets.LatchStepEffect | src/interface/components/button.py:48-73 | the hovered image shows iff the mouse is over; a click fires iff pressed over it with the latch open; releasing opens the latch |
| Widgets.AtMostOneClickPerPress | src/interface/components/button.py:60-73 | over any run of frames a button clicks at most once per press |
| Widgets.HoverMovesByOffset | src/interface/components/button.py:31-32 | hovering moves the drawn button by exactly its offset, 3 pixels down by default |
| Widgets.HoverButton.constructor | src/interface/components/button.py:25-46 | the hit box is as given, the offsets default to (0, 3), the button starts unhovered |
| Widgets.HoverButton.Update | src/interface/components/button.py:48-73 | one frame equals the latch step, and the callback runs iff a click fires and there is one |
| SliderWidget.Progress | src/interface/components/slider.py:30-33 | a handle on the bar is a fraction between 0 and 1 of the way along it |
| SliderWidget.HandleEventEffect | src/interface/components/slider.py:23-35 | a press on the handle starts a drag; a release ends it; motion while dragging keeps the handle on the bar and the value in range and reports it to the callback |
| SliderWidget.DragValueBetween | src/interface/components/slider.py:31-33 | the value from a handle on the bar lies between the ends |
| SliderWidget.RoundedLerpBetween | src/interface/components/slider.py:33 | rounding a point between two integers stays between them |
| SliderWidget.DragToEnds | src/interface/components/slider.py:29-33 | dragging past either end gives exactly that end's value |
| SliderWidget.HandleOnBar | src/interface/components/slider.py:21 | the handle of a value in range lies on the bar |
| SliderWidget.QuotientInUnit | src/interface/components/slider.py:21 | a quotient of a part by its whole of the same sign lies in [0, 1] |
| SliderWidget.Slider.constructor | src/interface/components/slider.py:6-21 | the slider holds its initial value with the handle at that value's place, not dragging |
| SliderWidget.Slider.HandleEvent | src/interface/components/slider.py:23-35 | handling an event equals the reaction step |
| Settings.Checkbox.constructor | src/scenes/setting_scene.py:10-17 | the box is at the given place with the given state |
| Settings.Checkbox.Update | src/scenes/setting_scene.py:19-24 | a click inside toggles the box, anything else keeps it |
| Settings.Share | src/scenes/setting_scene.py:58-62 | a value in range is a fraction between 0 and 1 of the range |
| Settings.KnobOnBar | src/scenes/setting_scene.py:58-62 | the knob of a value in range lies on the bar |
| Settings.KnobAtEnds | src/scenes/setting_scene.py:58-62 | the knobs of the two end values sit at the bar's two ends |
| Settings.DragValueInRange | src/scenes/setting_scene.py:83-99 | the value under the mouse while dragging always lies in range |
| Settings.DragValueAtEnds | src/scenes/setting_scene.py:83-99 | dragging past either end gives exactly that end's value |
| Settings.SceneSliderStepEffect | src/scenes/setting_scene.py:64-99 | dragging holds iff the button is down and it was dragging or the press hits knob or bar; while dragging the value follows the mouse, otherwise it is kept, and it never leaves the range |
| Settings.SceneSlider.constructor | src/scenes/setting_scene.py:43-56 | the slider starts at its default value, not dragging |
| Settings.SceneSlider.Update | src/scenes/setting_scene.py:64-99 | one frame equals the slider step |
| Settings.VolumeEffect | src/scenes/setting_scene.py:151-161 | muted means volume 0 with the last non-zero value remembered; unmuted plays the slider's percentage, within [0, 1] for values in 0..100 |
| Settings.RememberedNeverZero | src/scenes/setting_scene.py:131-156 | starting from 50, the remembered volume is never zero |
| Settings.RememberedStaysNonZero | src/scenes/setting_scene.py:154-156 | a non-zero remembered volume stays non-zero whatever the frames |
| Settings.SettingScene.constructor | src/scenes/setting_scene.py:116-131 | an unticked mute box, a 0..100 slider at 50, an unclicked 150×80 back button at (300, 300) and a remembered volume of 50 |
| Settings.SettingScene.Update | src/scenes/setting_scene.py:139-161 | the back button takes its latch step and reports a click (the change to the menu scene); then the checkbox and slider take one step each and the volume follows the volume rule |
| SettingsOverlay.OverlaySliderStepEffect | src/scenes/setting_overlay.py:63-80 | dragging starts only on the knob and holds while pressed; while dragging the value follows the mouse, and it never leaves the range |
| SettingsOverlay.BarPressIgnored | src/scenes/setting_overlay.py:70-74 | a press on the bar away from the knob changes nothing |
| SettingsOverlay.OverlaySlider.constructor | src/scenes/setting_overlay.py:45-56 | the slider starts at its default value, not dragging |
| SettingsOverlay.OverlaySlider.Update | src/scenes/setting_overlay.py:63-80 | one frame equals the overlay slider step |
| SettingsOverlay.SettingOverlay.constructor | src/scenes/setting_overlay.py:100-128 | an unticked mute box, a 0..100 slider at 50, unclicked save, load and back buttons at (530, 380), (680, 380) and (605, 460), distinct and with callbacks, and a remembered volume of 50 |
| SettingsOverlay.SettingOverlay.Update | src/scenes/setting_overlay.py:144-158 | the save, load and back buttons take their latch steps in order and report their clicks; then the checkbox and slider take one step each and the volume follows the volume rule |
| ShopNpc.NewNpc | src/entities/shop_npc.py:14-39 | the NPC's pixel position is its tile times the tile size and its rectangle is one tile large at that corner |
| ShopNpc.NpcCoversItsTile | src/entities/shop_npc.py:34-39 | a pixel is in the NPC's rectangle iff it lies on the NPC's tile |
| ShopNpc.PixelInTile | src/entities/shop_npc.py:20-23 | a pixel lies within a tile's span iff it floor-divides to that tile |
| ShopNpc.IsPlayerNear | src/entities/shop_npc.py:55-61 | near implies both centre offsets are within the distance; offsets whose sum is within it are near |
| ShopNpc.SquareBounds | src/entities/shop_npc.py:55-61 | the Euclidean disc lies inside the box and contains the diamond of the same radius |
| ShopNpc.NearMonotone | src/entities/shop_npc.py:55-61 | a larger distance accepts every player a smaller one does |
| ShopNpc.SamePlaceIsNear | src/entities/shop_npc.py:55-61 | a player on the NPC's own rectangle is near at any distance |
| Backpack.CellsDisjoint | src/scenes/backpack_overlay.py:80-84 | two item slots never overlap |
| Backpack.CellsInPanel | src/scenes/backpack_overlay.py:72-84 | every slot is within the panel's width; it fits in the panel's height iff it is one of the first fifteen |
| Backpack.LayoutShape | src/scenes/backpack_overlay.py:68-100 | one button per item, in item order, carrying that item, no two overlapping |
| Backpack.DataChangedIsInequality | src/scenes/backpack_overlay.py:114 | the change test is exactly list inequality |
| Backpack.SyncKeepsButtonsMatching | src/scenes/backpack_overlay.py:102-120 | after a sync the copies equal the bag's lists and the buttons are the layout of the items |
| Backpack.SyncIdempotent | src/scenes/backpack_overlay.py:102-120 | syncing twice against the same bag is syncing once |
| Backpack.SyncKeepsButtonsOfSameItems | src/scenes/backpack_overlay.py:112-120 | unchanged items keep the buttons already built |
| Backpack.BackpackOverlay.constructor | src/scenes/backpack_overlay.py:23-57 | the overlay is centred on the screen, visible, with no items and no buttons |
| Backpack.BackpackOverlay.RefreshItemButtons | src/scenes/backpack_overlay.py:68-100 | the buttons become the layout of the items, all else kept |
| Backpack.BackpackOverlay.SyncWithGameManager | src/scenes/backpack_overlay.py:102-120 | without a manager nothing changes; otherwise one sync step against the bag |
| GameScene.OpenSettingStep | src/scenes/game_scene.py:121-122 | the settings page becomes current and the backpack's visibility is kept |
| GameScene.OpenBackpackStep | src/scenes/game_scene.py:124-127 | the backpack page becomes current and the backpack visible |
| GameScene.CloseStep | src/scenes/game_scene.py:129-132 | no page is current; the backpack is hidden iff its page was the current one |
| GameScene.ResetStep | src/scenes/setting_overlay.py:141-142 | no page is current and the backpack's visibility is kept |
| GameScene.StepsKeepConsistent | src/scenes/game_scene.py:121-132 | the backpack page is current only with a visible backpack; every page switch leaves that true from any state, and the scene starts with it (no page, backpack visible) |
| GameScene.OpenThenClose | src/scenes/game_scene.py:121-132 | opening then closing the backpack hides it; opening then closing the settings restores the visibility; closing twice is closing once |
| GameScene.ResetAgreesWithClose | src/scenes/game_scene.py:129-132 | resetting the page equals closing unless the backpack page is current with a visible backpack |
| GameScene.FirstOverlap | src/scenes/game_scene.py:165-168 | finds the first rectangle the player overlaps, or reports that it overlaps none |
| GameScene.NpcRects | src/scenes/game_scene.py:165-166 | the shop keepers' rectangles, one per keeper in order |
| GameScene.EKeyPriority | src/scenes/game_scene.py:156-180 | E acts only with no page open; it opens the first touched shop; otherwise it starts a battle near an enemy; otherwise it starts a catch on a bush |
| GameScene.WarningsExactly | src/scenes/game_scene.py:198-229 | the warned enemies are exactly those within 120 pixels, centre to centre |
| GameScene.SelectionIsUnique | src/scenes/game_scene.py:198-232 | the closest-enemy choice (the first of the nearest within range) is unique |
| GameScene.ClosestIsWarned | src/scenes/game_scene.py:198-232 | the closest enemy is one of the warned ones |
| GameScene.ScanEnemies | src/scenes/game_scene.py:198-232 | the scan returns exactly the warnings and the closest-enemy choice |
| GameScene.BushesApart | src/scenes/game_scene.py:42-53 | no two bushes overlap and none overlaps the player's starting tile |
| GameScene.TilesApart | src/scenes/game_scene.py:42-53 | rectangles on distinct tile offsets never overlap |
| GameScene.StepApart | src/scenes/game_scene.py:42-53 | a smaller tile index ends before the next begins |
| GameScene.GameScene.constructor | src/scenes/game_scene.py:42-112 | the bushes and shop keeper are placed, no page is open, the backpack is visible and empty, nothing is warned |
| GameScene.GameScene.OpenSettingOverlay | src/scenes/game_scene.py:121-122 | the pages advance by the open-settings step |
| GameScene.GameScene.OpenBackpackOverlay | src/scenes/game_scene.py:124-127 | the pages advance by the open-backpack step, the backpack's contents kept |
| GameScene.GameScene.CloseOverlay | src/scenes/game_scene.py:129-132 | the pages advance by the close step, the backpack's contents kept |
| GameScene.GameScene.ResetOverlayType | src/scenes/setting_overlay.py:141-142 | the pages advance by the reset step |
| GameScene.GameScene.Update | src/scenes/game_scene.py:156-232 | E gives the interaction by priority; otherwise the warnings and closest enemy are rescanned (cleared without a player) |
| GameScene.CloseShopOverlay | src/scenes/shop_overlay.py:157-160 | the shop is hidden with its message kept and the scene's pages advance by the close step |

## Left out

- Drawing: every `draw` method, fonts, images and colours, and the minimap, are not modelled because they have no effect on game state.
- Keyboard and mouse polling (`input_manager`, `pg.mouse`, `pg.key`) is not modelled. Methods receive the mouse position, the button state and the key flags as parameters.
- `Player.handle_input` and the manual movement with its collision checks are not modelled. `Update` reports that manual input would run.
- The movement step `(dx / distance) * speed * dt` is not modelled. It uses a square root and frame time, so it is the `motion` parameter of the waypoint follower. Arrival is proved for the exact step.
- Floating point is modelled as reals. Rounding error in float arithmetic is not modelled.
- File and JSON I/O is not modelled. Save and load, `Map.from_dict` and `to_dict` are reduced to the spawn round trip.
- `BattleScene.Enter` receives the two monsters instead of reading them from the save file. It requires them to be distinct objects, which the source guarantees because it builds two objects.
- `CatchScene.Update` records the caught monster in the saved list but does not model writing the file.
- Settings.SettingScene.Update reports the back button's click instead of changing to the menu scene, because the scene manager is not part of this model.
- SettingsOverlay.SettingOverlay.Update reports the save and load buttons' clicks but does not save or load the game, which is file I/O. Its back button's `close_overlay` is reported as `close`; GameScene.ResetStep models its effect on the scene.
- Sound output is not modelled. The settings pages return the volume they would set.
- The scene manager, the online manager, the logger and `print` calls are not modelled. A scene change is a returned `leave` flag or `Interaction` value.
- Loading maps with pytmx and `Map.__init__` are not modelled. A map is given by its layers, teleporters and spawn.
- `Map.update` and `ShopNPC.update` do nothing in the source, so they have no model.
- Bags.Bag: the bag class is not part of this model. A bag is its two lists, and shop and backpack read the same `items` list. The `getattr` fallback to `_items_data` is not modelled.
- Maps.LowerChar: only ASCII letters are lowered. Python's `lower()` also folds non-ASCII letters, which cannot make a layer name contain "collision" or "house" that did not already.
- Pygame's truncation of float coordinates when building a `Rect` is not modelled. Callers pass integer rectangles: the player's E-key rectangle and its scan rectangle are inputs, and so are the enemies' rectangles.
- The E key on a shop keeper calls `npc.open_shop`, which the shop keeper class does not define. The model returns `OpenShop(i)` and does not model the resulting error.
- The E key with no player, and the missing `current_enemy_trainers` entry during the scan, raise errors in the source. These errors are not modelled; the enemy list is a parameter.
- `closest_enemy` is modelled as an index into the enemy list, not as an object reference.
- Closing the navigation overlay calls a method that the game scene does not define. The source's `try` swallows that error after the route is set, so the model stops once the player has its path.
- The per-frame overlay dispatch (src/scenes/game_scene.py:185-193) is not modelled; it only calls the modelled overlay updates.
- The game-logic sequence at the end of the game scene's update (src/scenes/game_scene.py:237-249) is not modelled. Besides the modelled `try_switch_map` and player update, it calls `enemy.update` for each enemy trainer, `bag.update` and `online_manager.update`; the enemy trainer, bag and online manager classes are not part of this model.
- The backpack's `close_overlay` and `update` only forward to other code, so they are not modelled.
- SliderWidget.Slider.constructor requires a usable bar (positive width and distinct ends). Distinct ends are what the source needs too: src/interface/components/slider.py:21 divides by `max_value - min_value` when placing the handle, so equal ends raise at construction. A width of zero or below is accepted by the source's constructor and is not modelled.
- SliderWidget.Slider.HandleEvent requires a usable bar. A zero width raises on the first drag motion (src/interface/components/slider.py:33 divides by the width); a negative width does not divide by zero but clamps the handle against a reversed range, and that case is not modelled.
- Settings.SceneSlider.Update and SettingsOverlay.OverlaySlider.Update require a usable bar. Equal ends divide by zero when the handle is placed (src/scenes/setting_scene.py:61-62, src/scenes/setting_overlay.py:60-61) and a zero width divides by zero on a drag (setting_scene.py:87 and 98, setting_overlay.py:79); a negative width is not modelled.
- GameManagerModel.GameManager.TrySwitchMap requires that a pending switch names a loaded map. The constructor and `SwitchMap` establish and keep this invariant; the source would raise otherwise.
- Pathfinder.Search: termination is proved with the shrinking undiscovered part of the grid. No explicit bound on the number of pops is stated.
- Aliasing is not modelled: `try_switch_map` makes the player share the map's spawn `Position` object (see Findings and the Navigation.StartNavigation line below), and the backpack keeps the bag's own list. The model compares values. If the bag hands the shop and the backpack the same list object, the source's change test compares that list with itself after an in-place purchase; the model's change test does not capture that.
- `StartNavigation` follows the source as written, including its dropping of the route's first tile (see Findings).
- Navigation.StartNavigation reads the spawn as a value. In the source, after the first `try_switch_map` the spawn is the player's own position object, which moves with the player; HOME is then always the player's tile and SHOP and GYM are offsets from the player. Navigation.SharedSpawnGoesNowhere models that state (see Findings).
- `ShopOverlay.Update` follows the source as written, including its timer behaviour (see Findings). The close button's `close_overlay` also calls the game scene's `close_overlay`; the overlay reports the click and GameScene.CloseShopOverlay models the pair.

## Findings

| source | as written | input that shows it | evidently intended | confidence | as-written member | corrected member |
|---|---|---|---|---|---|---|
| src/scenes/shop_overlay.py:171-175 | the message is cleared only when the timer goes strictly below zero, and the countdown stops once the timer is not positive | `set_message`, then two frames of 1.0 s: the timer ends at exactly 0.0 and the message is shown forever | clear the message once the timer reaches zero | high (not executed) | Shop.MessageStuckAtZero | Shop.MessageClearedAfterTimer |
| src/core/managers/game_manager.py:70 | `try_switch_map` makes the player's position the map's spawn object, and every later move updates it in place, so `start_navigation` reads HOME from the player's own tile | after any map switch, press HOME anywhere on the map: the goal is the player's tile, `find_path` returns [] and "No path found!" is printed | copy the spawn into the player's position, so HOME stays on the map's spawn tile | medium (not executed) | Navigation.SharedSpawnGoesNowhere | Navigation.FixedSpawnReachesHome |
| src/entities/player.py:25-30 | `set_path` drops the first tile of the route as if it were the player's own tile, but `find_path` never includes the start tile | player on tile (5, 5) and destination (6, 5): the route is [(6, 5)], the path becomes [] and the player never moves | keep the whole route returned by `find_path` | high (not executed) | PlayerEntity.AdjacentGoalNeverReached | PlayerEntity.CorrectedRouteReachesGoal |
