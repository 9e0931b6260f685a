/** The turn-based battle scene (src/scenes/battle_scene.py): four buttons
    (Fight, Item, Switch, Run) act for whichever side has the turn, and the
    battle is over once either monster's HP is at or below zero. Reading the
    monsters from the save file is not modelled: `Enter` receives them. */
module Battle {
  import opened Common
  import opened Bags

  datatype Side = PlayerSide | EnemySide

  function Other(s: Side): Side {
    if s == PlayerSide then EnemySide else PlayerSide
  }

  /** The button labels, which are also the action names. */
  const FIGHT := "Fight"
  const ITEM := "Item"
  const SWITCH := "Switch"
  const RUN := "Run"
  const Labels: seq<string> := [FIGHT, ITEM, SWITCH, RUN]

  const BUTTON_WIDTH := 120
  const BUTTON_HEIGHT := 50
  const BUTTON_MARGIN := 20

  /** The four button rectangles of the battle and catch scenes: a row of
      120×50 buttons 20 apart, centred across the screen, 30 pixels above
      its bottom edge. */
  function PanelRects(screenWidth: int, screenHeight: int): (r: seq<Rect>)
    ensures |r| == |Labels|
  {
    var total := 4 * BUTTON_WIDTH + 3 * BUTTON_MARGIN;
    var startX := (screenWidth - total) / 2;
    var y := screenHeight - BUTTON_HEIGHT - 30;
    seq(4, i requires 0 <= i < 4 => Rect(startX + i * (BUTTON_WIDTH + BUTTON_MARGIN), y, BUTTON_WIDTH, BUTTON_HEIGHT))
  }

  /** The row is centred: the gaps left and right of it differ by at most
      one pixel. No two buttons overlap, and every button sits 30 pixels
      above the bottom of the screen. */
  lemma PanelLayout(screenWidth: int, screenHeight: int)
    ensures var r := PanelRects(screenWidth, screenHeight);
      var right := screenWidth - (r[3].x + r[3].w);
      0 <= right - r[0].x <= 1 &&
      (forall i, j :: 0 <= i < j < |r| ==> !r[i].CollideRect(r[j])) &&
      (forall i :: 0 <= i < |r| ==> r[i].y + r[i].h == screenHeight - 30)
  {
  }

  /** HP damage of Fight and HP healed by Item. */
  const FIGHT_DAMAGE := 10
  const ITEM_HEAL := 10

  /** The two monsters' HP and the turn. */
  datatype Fighters = Fighters(playerHp: int, playerMax: int, enemyHp: int, enemyMax: int, turn: Side)

  /** handle_action as a function of the state before it. */
  function Act(f: Fighters, action: string): Fighters {
    if action == RUN then f
    else
      var hit :=
        if action == FIGHT then
          if f.turn == PlayerSide then f.(enemyHp := f.enemyHp - FIGHT_DAMAGE)
          else f.(playerHp := f.playerHp - FIGHT_DAMAGE)
        else if action == ITEM then
          if f.turn == PlayerSide then f.(playerHp := Min(f.playerHp + ITEM_HEAL, f.playerMax))
          else f.(enemyHp := Min(f.enemyHp + ITEM_HEAL, f.enemyMax))
        else f;
      hit.(turn := Other(f.turn))
  }

  /** Fight costs the side without the turn exactly 10 HP (no lower bound),
      and hands the turn over. */
  lemma FightHitsOpponent(f: Fighters)
    ensures var g := Act(f, FIGHT);
      g.turn == Other(f.turn) && g.playerMax == f.playerMax && g.enemyMax == f.enemyMax &&
      (f.turn == PlayerSide ==> g.enemyHp == f.enemyHp - 10 && g.playerHp == f.playerHp) &&
      (f.turn == EnemySide ==> g.playerHp == f.playerHp - 10 && g.enemyHp == f.enemyHp)
  {
  }

  /** Item heals the side with the turn by 10, never beyond its maximum, and
      never lowers HP that was within the maximum. */
  lemma ItemHealsActor(f: Fighters)
    ensures Act(f, ITEM).turn == Other(f.turn)
    ensures f.turn == PlayerSide ==>
      var g := Act(f, ITEM);
      g.enemyHp == f.enemyHp && g.playerHp <= f.playerMax &&
      (g.playerHp == f.playerHp + 10 || g.playerHp == f.playerMax) &&
      (f.playerHp <= f.playerMax ==> f.playerHp <= g.playerHp)
    ensures f.turn == EnemySide ==>
      var g := Act(f, ITEM);
      g.playerHp == f.playerHp && g.enemyHp <= f.enemyMax &&
      (g.enemyHp == f.enemyHp + 10 || g.enemyHp == f.enemyMax) &&
      (f.enemyHp <= f.enemyMax ==> f.enemyHp <= g.enemyHp)
  {
  }

  /** Switch only passes the turn; Run changes nothing at all. */
  lemma SwitchAndRun(f: Fighters)
    ensures Act(f, SWITCH) == f.(turn := Other(f.turn))
    ensures Act(f, RUN) == f
  {
  }

  predicate WithinMax(f: Fighters) {
    f.playerHp <= f.playerMax && f.enemyHp <= f.enemyMax
  }

  /** No action lifts a monster above its maximum HP. */
  lemma ActKeepsWithinMax(f: Fighters, action: string)
    requires WithinMax(f)
    ensures WithinMax(Act(f, action))
    ensures Act(f, action).playerMax == f.playerMax && Act(f, action).enemyMax == f.enemyMax
  {
  }

  function Acts(f: Fighters, actions: seq<string>): Fighters
    decreases |actions|
  {
    if actions == [] then f else Acts(Act(f, actions[0]), actions[1..])
  }

  /** The turn alternates: after an even number of actions other than Run it
      is back with the side that started. */
  lemma {:induction false} TurnAlternates(f: Fighters, actions: seq<string>)
    requires forall i :: 0 <= i < |actions| ==> actions[i] != RUN
    ensures Acts(f, actions).turn == if |actions| % 2 == 0 then f.turn else Other(f.turn)
    decreases |actions|
  {
    if actions != [] {
      TurnAlternates(Act(f, actions[0]), actions[1..]);
    }
  }

  /** The battle_over rule of update. */
  function OverAfter(over: bool, f: Fighters): bool {
    over || f.playerHp <= 0 || f.enemyHp <= 0
  }

  lemma OverIsFinal(over: bool, f: Fighters)
    ensures over ==> OverAfter(over, f)
    ensures OverAfter(over, f) <==> over || f.playerHp <= 0 || f.enemyHp <= 0
  {
  }

  // ---------------------------------------------------------------------------
  // The scene's buttons: fire on the frame the mouse goes down over them.

  /** One frame of Button.update for a button whose previous mouse state was
      `prev`: the hover offset, the recorded mouse state and whether the
      callback ran. A disabled button records nothing. */
  function EdgeStep(offset: int, prev: bool, over: bool, down: bool, enabled: bool): (int, bool, bool) {
    if !enabled then (offset, prev, false)
    else (if over then 5 else 0, down, over && down && !prev)
  }

  /** The callback runs only on a rising edge over the button, so holding the
      mouse down never fires twice in a row; while disabled the button keeps
      its old record. */
  lemma EdgeStepFiresOnRisingEdge(offset: int, prev: bool, over: bool, down: bool, enabled: bool)
    ensures EdgeStep(offset, prev, over, down, enabled).2 <==> enabled && over && down && !prev
    ensures enabled ==> EdgeStep(offset, prev, over, down, enabled).1 == down
    ensures !enabled ==> EdgeStep(offset, prev, over, down, enabled) == (offset, prev, false)
    ensures var s := EdgeStep(offset, prev, over, down, enabled);
      s.2 ==> forall o, en :: !EdgeStep(s.0, s.1, o, true, en).2
  {
  }

  /** Each button's hover offset and recorded mouse state after one frame in
      which every button of the panel (its rectangles and captions) is
      enabled; `recs` holds the states before the frame. */
  function PanelStep(panel: seq<(Rect, string)>, recs: seq<(int, bool)>, mouseX: int, mouseY: int, down: bool): (r: seq<(int, bool)>)
    requires |recs| == |panel|
    ensures |r| == |panel|
  {
    seq(|panel|, i requires 0 <= i < |panel| =>
      var s := EdgeStep(recs[i].0, recs[i].1, panel[i].0.CollidePoint(mouseX, mouseY), down, true); (s.0, s.1))
  }

  /** The captions of the buttons that fire in that frame, in button order. */
  function FiredCaptions(panel: seq<(Rect, string)>, recs: seq<(int, bool)>, mouseX: int, mouseY: int, down: bool): seq<string>
    requires |recs| == |panel|
    decreases |panel|
  {
    if panel == [] then []
    else
      var n := |panel| - 1;
      FiredCaptions(panel[..n], recs[..n], mouseX, mouseY, down) +
      (if EdgeStep(recs[n].0, recs[n].1, panel[n].0.CollidePoint(mouseX, mouseY), down, true).2 then [panel[n].1] else [])
  }

  lemma FiredCaptionsSnoc(panel: seq<(Rect, string)>, recs: seq<(int, bool)>, i: int, mouseX: int, mouseY: int, down: bool)
    requires |recs| == |panel| && 0 <= i < |panel|
    ensures FiredCaptions(panel[..i + 1], recs[..i + 1], mouseX, mouseY, down) ==
            FiredCaptions(panel[..i], recs[..i], mouseX, mouseY, down) +
            (if EdgeStep(recs[i].0, recs[i].1, panel[i].0.CollidePoint(mouseX, mouseY), down, true).2 then [panel[i].1] else [])
  {
    assert panel[..i + 1][..i] == panel[..i] && recs[..i + 1][..i] == recs[..i];
  }

  /** An action is taken in a frame exactly when some button with that
      caption has the mouse over it, pressed, and was not pressed before. */
  lemma {:induction false} FiredCaptionsExactly(panel: seq<(Rect, string)>, recs: seq<(int, bool)>, mouseX: int, mouseY: int, down: bool, c: string)
    requires |recs| == |panel|
    ensures c in FiredCaptions(panel, recs, mouseX, mouseY, down) <==>
            exists i :: 0 <= i < |panel| && panel[i].1 == c && panel[i].0.CollidePoint(mouseX, mouseY) && down && !recs[i].1
    decreases |panel|
  {
    if panel != [] {
      var n := |panel| - 1;
      FiredCaptionsExactly(panel[..n], recs[..n], mouseX, mouseY, down, c);
      if c in FiredCaptions(panel[..n], recs[..n], mouseX, mouseY, down) {
        var i :| 0 <= i < n && panel[..n][i].1 == c && panel[..n][i].0.CollidePoint(mouseX, mouseY) && down && !recs[..n][i].1;
        assert panel[i] == panel[..n][i] && recs[i] == recs[..n][i];
      }
      if exists i :: 0 <= i < |panel| && panel[i].1 == c && panel[i].0.CollidePoint(mouseX, mouseY) && down && !recs[i].1 {
        var i :| 0 <= i < |panel| && panel[i].1 == c && panel[i].0.CollidePoint(mouseX, mouseY) && down && !recs[i].1;
        if i < n {
          assert panel[..n][i] == panel[i] && recs[..n][i] == recs[i];
        }
      }
    }
  }

  /** A button already recorded as pressed never fires while the mouse stays
      down. */
  lemma {:induction false} PressedPanelFiresNothing(panel: seq<(Rect, string)>, recs: seq<(int, bool)>, mouseX: int, mouseY: int)
    requires |recs| == |panel| && forall i :: 0 <= i < |recs| ==> recs[i].1
    ensures FiredCaptions(panel, recs, mouseX, mouseY, true) == []
    decreases |panel|
  {
    if panel != [] {
      var n := |panel| - 1;
      PressedPanelFiresNothing(panel[..n], recs[..n], mouseX, mouseY);
    }
  }

  /** Each click acts once: after a frame with the mouse down, a next frame
      with the mouse still down fires no button, wherever the mouse is. */
  lemma HeldMouseActsOnce(panel: seq<(Rect, string)>, recs: seq<(int, bool)>, x1: int, y1: int, x2: int, y2: int)
    requires |recs| == |panel|
    ensures FiredCaptions(panel, PanelStep(panel, recs, x1, y1, true), x2, y2, true) == []
  {
    PressedPanelFiresNothing(panel, PanelStep(panel, recs, x1, y1, true), x2, y2);
  }

  class Monster {
    const name: string
    var hp: int
    const maxHp: int
    const level: int

    constructor (data: MonsterRecord)
      ensures name == data.name && hp == data.hp && maxHp == data.maxHp && level == data.level
    {
      name, hp, maxHp, level := data.name, data.hp, data.maxHp, data.level;
    }
  }

  class EdgeButton {
    const rect: Rect
    const caption: string
    var offsetY: int
    var prevPressed: bool

    constructor (r: Rect, text: string)
      ensures rect == r && caption == text && offsetY == 0 && !prevPressed
    {
      rect, caption := r, text;
      offsetY, prevPressed := 0, false;
    }

    method Update(mouseX: int, mouseY: int, mouseDown: bool, enabled: bool) returns (fired: bool)
      modifies this
      ensures (offsetY, prevPressed, fired) ==
              EdgeStep(old(offsetY), old(prevPressed), rect.CollidePoint(mouseX, mouseY), mouseDown, enabled)
    {
      fired := false;
      if !enabled {
        return;
      }
      var hover := rect.CollidePoint(mouseX, mouseY);
      offsetY := if hover then 5 else 0;
      if hover && mouseDown && !prevPressed {
        fired := true;
      }
      prevPressed := mouseDown;
    }

    method ResetPress()
      modifies this
      ensures !prevPressed && offsetY == old(offsetY)
    {
      prevPressed := false;
    }
  }

  class BattleScene {
    var playerMonster: Monster
    var enemyMonster: Monster
    var turn: Side
    var battleOver: bool
    const buttons: seq<EdgeButton>

    function State(): Fighters
      reads this, playerMonster, enemyMonster
    {
      Fighters(playerMonster.hp, playerMonster.maxHp, enemyMonster.hp, enemyMonster.maxHp, turn)
    }

    /** The buttons' rectangles and captions, in order. */
    function Panel(): (p: seq<(Rect, string)>)
      ensures |p| == |buttons|
    {
      seq(|buttons|, i requires 0 <= i < |buttons| => (buttons[i].rect, buttons[i].caption))
    }

    /** The buttons' hover offsets and recorded mouse states, in order. */
    function Records(): (r: seq<(int, bool)>)
      reads set b | b in buttons
      ensures |r| == |buttons|
    {
      seq(|buttons|, i requires 0 <= i < |buttons| reads set b | b in buttons => (buttons[i].offsetY, buttons[i].prevPressed))
    }

    /** Each button is its own object. */
    predicate DistinctButtons() {
      forall i, j :: 0 <= i < j < |buttons| ==> buttons[i] != buttons[j]
    }

    /** The two monsters are separate objects, and so are the buttons. */
    predicate Valid()
      reads this
    {
      playerMonster != enemyMonster && DistinctButtons()
    }

    /** The scene with its four buttons, Fight, Item, Switch and Run, in a
        centred row at the bottom of the screen, none pressed; the monsters
        are the ones the save file provides. */
    constructor (screenWidth: int, screenHeight: int, player: MonsterRecord, enemy: MonsterRecord)
      ensures Valid() && turn == PlayerSide && !battleOver
      ensures |buttons| == |Labels|
      ensures forall i :: 0 <= i < |Labels| ==>
                buttons[i].rect == PanelRects(screenWidth, screenHeight)[i] && buttons[i].caption == Labels[i]
      ensures forall i :: 0 <= i < |buttons| ==> buttons[i].offsetY == 0 && !buttons[i].prevPressed
    {
      var rects := PanelRects(screenWidth, screenHeight);
      var made: seq<EdgeButton> := [];
      for i := 0 to |Labels|
        invariant |made| == i
        invariant forall j :: 0 <= j < i ==>
                    made[j].rect == rects[j] && made[j].caption == Labels[j] && made[j].offsetY == 0 && !made[j].prevPressed
        invariant forall j, k :: 0 <= j < k < i ==> made[j] != made[k]
      {
        var b := new EdgeButton(rects[i], Labels[i]);
        made := made + [b];
      }
      buttons := made;
      playerMonster := new Monster(player);
      enemyMonster := new Monster(enemy);
      turn := PlayerSide;
      battleOver := false;
    }

    /** enter: new monsters, the player's turn, every button's press record
        cleared, the battle running again. */
    method Enter(player: Monster, enemy: Monster)
      requires player != enemy && DistinctButtons()
      modifies this, set b | b in buttons
      ensures Valid() && playerMonster == player && enemyMonster == enemy
      ensures turn == PlayerSide && !battleOver
      ensures forall b :: b in buttons ==> !b.prevPressed
    {
      playerMonster, enemyMonster := player, enemy;
      turn := PlayerSide;
      for i := 0 to |buttons|
        invariant forall j :: 0 <= j < i ==> !buttons[j].prevPressed
        invariant playerMonster == player && enemyMonster == enemy && turn == PlayerSide
      {
        buttons[i].ResetPress();
      }
      battleOver := false;
    }

    /** handle_action; `leave` reports the request to go back to the game
        scene that Run makes. */
    method HandleAction(action: string) returns (leave: bool)
      requires Valid()
      modifies this, playerMonster, enemyMonster
      ensures Valid() && playerMonster == old(playerMonster) && enemyMonster == old(enemyMonster)
      ensures State() == Act(old(State()), action) && battleOver == old(battleOver)
      ensures leave <==> action == RUN
    {
      if action == FIGHT {
        if turn == PlayerSide {
          enemyMonster.hp := enemyMonster.hp - FIGHT_DAMAGE;
        } else {
          playerMonster.hp := playerMonster.hp - FIGHT_DAMAGE;
        }
      } else if action == ITEM {
        if turn == PlayerSide {
          playerMonster.hp := Min(playerMonster.hp + ITEM_HEAL, playerMonster.maxHp);
        } else {
          enemyMonster.hp := Min(enemyMonster.hp + ITEM_HEAL, enemyMonster.maxHp);
        }
      } else if action == SWITCH {
      } else if action == RUN {
        return true;
      }
      turn := Other(turn);
      return false;
    }

    /** One button's update inside update, with its callback when it fires. */
    method PressButton(i: nat, mouseX: int, mouseY: int, mouseDown: bool) returns (fired: bool, run: bool)
      requires Valid() && i < |buttons|
      modifies this, playerMonster, enemyMonster, buttons[i]
      ensures Valid() && playerMonster == old(playerMonster) && enemyMonster == old(enemyMonster)
      ensures (buttons[i].offsetY, buttons[i].prevPressed, fired) ==
              EdgeStep(old(buttons[i].offsetY), old(buttons[i].prevPressed), buttons[i].rect.CollidePoint(mouseX, mouseY), mouseDown, true)
      ensures State() == if fired then Act(old(State()), buttons[i].caption) else old(State())
      ensures battleOver == old(battleOver)
      ensures run <==> fired && buttons[i].caption == RUN
    {
      fired := buttons[i].Update(mouseX, mouseY, mouseDown, true);
      run := false;
      if fired {
        run := HandleAction(buttons[i].caption);
      }
    }

    /** The button loop of update while the battle runs: the actions of the
        buttons that fire, in button order; `run` reports that Run asked to
        leave. */
    method RunButtons(mouseX: int, mouseY: int, mouseDown: bool) returns (actions: seq<string>, run: bool)
      requires Valid()
      modifies this, playerMonster, enemyMonster, set b | b in buttons
      ensures Valid() && playerMonster == old(playerMonster) && enemyMonster == old(enemyMonster)
      ensures actions == FiredCaptions(Panel(), old(Records()), mouseX, mouseY, mouseDown)
      ensures Records() == PanelStep(Panel(), old(Records()), mouseX, mouseY, mouseDown)
      ensures State() == Acts(old(State()), actions)
      ensures battleOver == old(battleOver)
      ensures run <==> RUN in actions
    {
      actions, run := [], false;
      ghost var recs0 := Records();
      ghost var panel := Panel();
      ghost var recs1 := PanelStep(panel, recs0, mouseX, mouseY, mouseDown);
      for i := 0 to |buttons|
        invariant Valid() && playerMonster == old(playerMonster) && enemyMonster == old(enemyMonster)
        invariant State() == Acts(old(State()), actions)
        invariant battleOver == old(battleOver)
        invariant run <==> RUN in actions
        invariant actions == FiredCaptions(panel[..i], recs0[..i], mouseX, mouseY, mouseDown)
        invariant forall j :: 0 <= j < i ==> (buttons[j].offsetY, buttons[j].prevPressed) == recs1[j]
        invariant forall j :: i <= j < |buttons| ==> (buttons[j].offsetY, buttons[j].prevPressed) == recs0[j]
      {
        var fired, asked := PressButton(i, mouseX, mouseY, mouseDown);
        assert (buttons[i].offsetY, buttons[i].prevPressed) == recs1[i];
        FiredCaptionsSnoc(panel, recs0, i, mouseX, mouseY, mouseDown);
        if fired {
          ActsSnoc(old(State()), actions, buttons[i].caption);
          actions := actions + [buttons[i].caption];
          run := run || asked;
        }
      }
      assert panel[..|buttons|] == panel && recs0[..|buttons|] == recs0;
      assert Records() == recs1;
    }

    /** update: while the battle runs, every button is updated in order and
        the actions of those that fire are carried out (`actions`); then the
        battle is over once either HP is at or below zero. `leave` reports a
        request to go back to the game scene (Run, or the Return key). */
    method Update(mouseX: int, mouseY: int, mouseDown: bool, returnKey: bool) returns (actions: seq<string>, leave: bool)
      requires Valid()
      modifies this, playerMonster, enemyMonster, set b | b in buttons
      ensures Valid() && playerMonster == old(playerMonster) && enemyMonster == old(enemyMonster)
      ensures actions == if old(battleOver) then [] else FiredCaptions(Panel(), old(Records()), mouseX, mouseY, mouseDown)
      ensures Records() == if old(battleOver) then old(Records()) else PanelStep(Panel(), old(Records()), mouseX, mouseY, mouseDown)
      ensures State() == Acts(old(State()), actions)
      ensures battleOver == OverAfter(old(battleOver), State())
      ensures leave <==> returnKey || RUN in actions
    {
      actions, leave := [], false;
      if !battleOver {
        actions, leave := RunButtons(mouseX, mouseY, mouseDown);
      }
      if playerMonster.hp <= 0 || enemyMonster.hp <= 0 {
        battleOver := true;
      }
      if returnKey {
        leave := true;
      }
    }
  }

  lemma {:induction false} ActsSnoc(f: Fighters, actions: seq<string>, a: string)
    ensures Acts(f, actions + [a]) == Act(Acts(f, actions), a)
    decreases |actions|
  {
    if actions != [] {
      assert (actions + [a])[1..] == actions[1..] + [a];
      ActsSnoc(Act(f, actions[0]), actions[1..], a);
    }
  }
}
