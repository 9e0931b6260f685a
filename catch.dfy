/** The catch scene (src/scenes/catch_pokemon_scene.py): Fight lowers the wild
    monster's HP by one, never below zero; when it reaches zero the monster is
    recorded once, and pressing Return then adds that record to the saved
    bag's monster list. Writing the save file back is not modelled. */
module Catch {
  import opened Common
  import opened Bags
  import Battle

  /** The wild monster's HP and the record kept for the bag, if any. */
  datatype Capture = Capture(enemyHp: int, caught: Option<MonsterRecord>)

  /** What fight_action records: the wild monster at full health. */
  function CaughtRecord(name: string, maxHp: int, level: int, spritePath: string): MonsterRecord {
    MonsterRecord(name, maxHp, maxHp, level, spritePath)
  }

  /** fight_action as a function of the state before it. */
  function FightStep(c: Capture, name: string, maxHp: int, level: int, spritePath: string): Capture {
    var hp := if c.enemyHp - 1 < 0 then 0 else c.enemyHp - 1;
    Capture(hp, if hp == 0 && c.caught.None? then Some(CaughtRecord(name, maxHp, level, spritePath)) else c.caught)
  }

  /** HP goes down by one and stops at zero; the record is made on reaching
      zero and is never replaced afterwards. */
  lemma FightStepEffect(c: Capture, name: string, maxHp: int, level: int, spritePath: string)
    ensures var d := FightStep(c, name, maxHp, level, spritePath);
      d.enemyHp == Max(c.enemyHp - 1, 0) && d.enemyHp >= 0
    ensures c.caught.Some? ==> FightStep(c, name, maxHp, level, spritePath).caught == c.caught
    ensures c.caught.None? ==>
      (FightStep(c, name, maxHp, level, spritePath).caught.Some? <==> c.enemyHp <= 1) &&
      (c.enemyHp <= 1 ==> FightStep(c, name, maxHp, level, spritePath).caught == Some(CaughtRecord(name, maxHp, level, spritePath)))
  {
  }

  function Fights(c: Capture, n: nat, name: string, maxHp: int, level: int, spritePath: string): Capture
    decreases n
  {
    if n == 0 then c else Fights(FightStep(c, name, maxHp, level, spritePath), n - 1, name, maxHp, level, spritePath)
  }

  /** Enough fights always catch the monster: after at least as many fights as
      it has HP (and at least one), HP is zero and a record exists, and it
      is the first record ever made. */
  lemma {:induction false} EnoughFightsCatch(c: Capture, n: nat, name: string, maxHp: int, level: int, spritePath: string)
    requires n >= 1 && n >= c.enemyHp
    ensures Fights(c, n, name, maxHp, level, spritePath).enemyHp == 0
    ensures Fights(c, n, name, maxHp, level, spritePath).caught ==
            if c.caught.Some? then c.caught else Some(CaughtRecord(name, maxHp, level, spritePath))
    decreases n
  {
    var d := FightStep(c, name, maxHp, level, spritePath);
    if n > 1 {
      EnoughFightsCatch(d, n - 1, name, maxHp, level, spritePath);
    }
  }

  /** One frame of this scene's Button.update: the hover offset and whether
      the callback runs, which it does on every frame the mouse is held over
      the button. */
  function HoldStep(over: bool, down: bool): (int, bool) {
    (if over then 5 else 0, over && down)
  }

  function HoldFires(frames: seq<(bool, bool)>): nat
    decreases |frames|
  {
    if frames == [] then 0 else (if HoldStep(frames[0].0, frames[0].1).1 then 1 else 0) + HoldFires(frames[1..])
  }

  /** Holding the mouse over the button for k frames runs the callback k
      times: there is no edge detection. */
  lemma {:induction false} HeldFiresEveryFrame(frames: seq<(bool, bool)>)
    requires forall i :: 0 <= i < |frames| ==> frames[i] == (true, true)
    ensures HoldFires(frames) == |frames|
    decreases |frames|
  {
    if frames != [] {
      HeldFiresEveryFrame(frames[1..]);
    }
  }

  /** The captions of the buttons (their rectangles and captions, in order)
      whose callback runs in one frame, in button order. */
  function HoldFired(rects: seq<Rect>, captions: seq<string>, mouseX: int, mouseY: int, down: bool): seq<string>
    requires |captions| == |rects|
    decreases |rects|
  {
    if rects == [] then []
    else
      var n := |rects| - 1;
      HoldFired(rects[..n], captions[..n], mouseX, mouseY, down) +
      (if HoldStep(rects[n].CollidePoint(mouseX, mouseY), down).1 then [captions[n]] else [])
  }

  /** How many buttons captioned `c` run their callback in one frame. */
  function HoldCount(rects: seq<Rect>, captions: seq<string>, mouseX: int, mouseY: int, down: bool, c: string): nat
    requires |captions| == |rects|
    decreases |rects|
  {
    if rects == [] then 0
    else
      var n := |rects| - 1;
      HoldCount(rects[..n], captions[..n], mouseX, mouseY, down, c) +
      (if captions[n] == c && HoldStep(rects[n].CollidePoint(mouseX, mouseY), down).1 then 1 else 0)
  }

  /** The count is the number of times the caption occurs among the fired
      captions. */
  lemma {:induction false} HoldCountOccurrences(rects: seq<Rect>, captions: seq<string>, mouseX: int, mouseY: int, down: bool, c: string)
    requires |captions| == |rects|
    ensures HoldCount(rects, captions, mouseX, mouseY, down, c) == multiset(HoldFired(rects, captions, mouseX, mouseY, down))[c]
    decreases |rects|
  {
    if rects != [] {
      var n := |rects| - 1;
      HoldCountOccurrences(rects[..n], captions[..n], mouseX, mouseY, down, c);
    }
  }

  lemma HoldFiredSnoc(rects: seq<Rect>, captions: seq<string>, i: int, mouseX: int, mouseY: int, down: bool)
    requires |captions| == |rects| && 0 <= i < |rects|
    ensures HoldFired(rects[..i + 1], captions[..i + 1], mouseX, mouseY, down) ==
            HoldFired(rects[..i], captions[..i], mouseX, mouseY, down) +
            (if HoldStep(rects[i].CollidePoint(mouseX, mouseY), down).1 then [captions[i]] else [])
    ensures HoldCount(rects[..i + 1], captions[..i + 1], mouseX, mouseY, down, Battle.FIGHT) ==
            HoldCount(rects[..i], captions[..i], mouseX, mouseY, down, Battle.FIGHT) +
            (if captions[i] == Battle.FIGHT && HoldStep(rects[i].CollidePoint(mouseX, mouseY), down).1 then 1 else 0)
  {
    assert rects[..i + 1][..i] == rects[..i] && captions[..i + 1][..i] == captions[..i];
  }

  /** A callback runs in a frame exactly when the mouse is down over a button
      with that caption, whatever happened in earlier frames. */
  lemma {:induction false} HoldFiredExactly(rects: seq<Rect>, captions: seq<string>, mouseX: int, mouseY: int, down: bool, c: string)
    requires |captions| == |rects|
    ensures c in HoldFired(rects, captions, mouseX, mouseY, down) <==>
            exists i :: 0 <= i < |rects| && captions[i] == c && rects[i].CollidePoint(mouseX, mouseY) && down
    decreases |rects|
  {
    if rects != [] {
      var n := |rects| - 1;
      HoldFiredExactly(rects[..n], captions[..n], mouseX, mouseY, down, c);
      if c in HoldFired(rects[..n], captions[..n], mouseX, mouseY, down) {
        var i :| 0 <= i < n && captions[..n][i] == c && rects[..n][i].CollidePoint(mouseX, mouseY) && down;
        assert rects[i] == rects[..n][i] && captions[i] == captions[..n][i];
      }
      if exists i :: 0 <= i < |rects| && captions[i] == c && rects[i].CollidePoint(mouseX, mouseY) && down {
        var i :| 0 <= i < |rects| && captions[i] == c && rects[i].CollidePoint(mouseX, mouseY) && down;
        if i < n {
          assert rects[..n][i] == rects[i] && captions[..n][i] == captions[i];
        }
      }
    }
  }

  class HoldButton {
    const rect: Rect
    const caption: string
    var offsetY: int

    constructor (r: Rect, text: string)
      ensures rect == r && caption == text && offsetY == 0
    {
      rect, caption := r, text;
      offsetY := 0;
    }

    method Update(mouseX: int, mouseY: int, mouseDown: bool) returns (fired: bool)
      modifies this
      ensures (offsetY, fired) == HoldStep(rect.CollidePoint(mouseX, mouseY), mouseDown)
    {
      if rect.CollidePoint(mouseX, mouseY) {
        offsetY := 5;
      } else {
        offsetY := 0;
      }
      fired := rect.CollidePoint(mouseX, mouseY) && mouseDown;
    }
  }

  class CatchScene {
    const playerMonster: Battle.Monster
    const enemyMonster: Battle.Monster
    /** The wild monster's sprite path in the save data. */
    const enemySpritePath: string
    var caughtMonster: Option<MonsterRecord>
    /** The monster list of the bag in the save data. */
    var savedMonsters: seq<MonsterRecord>
    const buttons: seq<HoldButton>

    function State(): Capture
      reads this, enemyMonster
    {
      Capture(enemyMonster.hp, caughtMonster)
    }

    /** The buttons' rectangles, in order. */
    function Rects(): (r: seq<Rect>)
      ensures |r| == |buttons|
    {
      seq(|buttons|, i requires 0 <= i < |buttons| => buttons[i].rect)
    }

    /** The buttons' captions, in order. */
    function Captions(): (r: seq<string>)
      ensures |r| == |buttons|
    {
      seq(|buttons|, i requires 0 <= i < |buttons| => buttons[i].caption)
    }

    /** The scene with its four buttons, Fight, Item, Switch and Run, laid out
        in a centred row at the bottom of the screen. */
    constructor (player: Battle.Monster, enemy: Battle.Monster, spritePath: string,
                 saved: seq<MonsterRecord>, screenWidth: int, screenHeight: int)
      ensures playerMonster == player && enemyMonster == enemy && enemySpritePath == spritePath
      ensures caughtMonster.None? && savedMonsters == saved
      ensures Rects() == Battle.PanelRects(screenWidth, screenHeight) && Captions() == Battle.Labels
      ensures forall i :: 0 <= i < |buttons| ==> buttons[i].offsetY == 0
    {
      playerMonster, enemyMonster, enemySpritePath := player, enemy, spritePath;
      caughtMonster := None;
      savedMonsters := saved;
      var rects := Battle.PanelRects(screenWidth, screenHeight);
      var made: seq<HoldButton> := [];
      for i := 0 to |Battle.Labels|
        invariant |made| == i
        invariant forall j :: 0 <= j < i ==> made[j].rect == rects[j] && made[j].caption == Battle.Labels[j] && made[j].offsetY == 0
      {
        var b := new HoldButton(rects[i], Battle.Labels[i]);
        made := made + [b];
      }
      buttons := made;
    }

    method FightAction()
      modifies this, enemyMonster
      ensures State() == FightStep(old(State()), enemyMonster.name, enemyMonster.maxHp, enemyMonster.level, enemySpritePath)
      ensures savedMonsters == old(savedMonsters)
    {
      enemyMonster.hp := enemyMonster.hp - 1;
      if enemyMonster.hp < 0 {
        enemyMonster.hp := 0;
      }
      if enemyMonster.hp == 0 && caughtMonster.None? {
        caughtMonster := Some(MonsterRecord(enemyMonster.name, enemyMonster.maxHp, enemyMonster.maxHp,
                                            enemyMonster.level, enemySpritePath));
      }
    }

    /** One button's update inside update, with its callback: Fight acts,
        the others change nothing here. */
    method PressButton(i: nat, mouseX: int, mouseY: int, mouseDown: bool) returns (fired: bool)
      requires i < |buttons|
      modifies this, enemyMonster, buttons[i]
      ensures (buttons[i].offsetY, fired) == HoldStep(buttons[i].rect.CollidePoint(mouseX, mouseY), mouseDown)
      ensures State() == if fired && buttons[i].caption == Battle.FIGHT
                         then FightStep(old(State()), enemyMonster.name, enemyMonster.maxHp, enemyMonster.level, enemySpritePath)
                         else old(State())
      ensures savedMonsters == old(savedMonsters)
    {
      fired := buttons[i].Update(mouseX, mouseY, mouseDown);
      if fired && buttons[i].caption == Battle.FIGHT {
        FightAction();
      }
    }

    /** The button loop of update: every button in order, with its
        callback; `run` reports that a Run button fired. */
    method RunButtons(mouseX: int, mouseY: int, mouseDown: bool) returns (fights: nat, run: bool)
      modifies this, enemyMonster, set b | b in buttons
      ensures State() == Fights(old(State()), fights, enemyMonster.name, enemyMonster.maxHp, enemyMonster.level, enemySpritePath)
      ensures savedMonsters == old(savedMonsters)
      ensures fights == HoldCount(Rects(), Captions(), mouseX, mouseY, mouseDown, Battle.FIGHT)
      ensures run <==> Battle.RUN in HoldFired(Rects(), Captions(), mouseX, mouseY, mouseDown)
      ensures forall j :: 0 <= j < |buttons| ==>
        buttons[j].offsetY == HoldStep(buttons[j].rect.CollidePoint(mouseX, mouseY), mouseDown).0
    {
      fights := 0;
      run := false;
      ghost var rects := Rects();
      ghost var captions := Captions();
      ghost var offsets := seq(|buttons|, j requires 0 <= j < |buttons| =>
        HoldStep(buttons[j].rect.CollidePoint(mouseX, mouseY), mouseDown).0);
      for i := 0 to |buttons|
        invariant State() == Fights(old(State()), fights, enemyMonster.name, enemyMonster.maxHp, enemyMonster.level, enemySpritePath)
        invariant savedMonsters == old(savedMonsters)
        invariant fights == HoldCount(rects[..i], captions[..i], mouseX, mouseY, mouseDown, Battle.FIGHT)
        invariant run <==> Battle.RUN in HoldFired(rects[..i], captions[..i], mouseX, mouseY, mouseDown)
        invariant forall j :: 0 <= j < i ==> buttons[j].offsetY == offsets[j]
      {
        var fired := PressButton(i, mouseX, mouseY, mouseDown);
        assert buttons[i].offsetY == offsets[i];
        HoldFiredSnoc(rects, captions, i, mouseX, mouseY, mouseDown);
        if fired && buttons[i].caption == Battle.FIGHT {
          FightsSnoc(old(State()), fights, enemyMonster.name, enemyMonster.maxHp, enemyMonster.level, enemySpritePath);
          fights := fights + 1;
        } else if fired && buttons[i].caption == Battle.RUN {
          run := true;
        }
      }
      assert rects[..|buttons|] == rects && captions[..|buttons|] == captions;
    }

    /** update: run the buttons (Fight acts, Item and Switch do nothing, Run
        asks to leave), then on Return add the caught monster to the saved
        bag if the wild one is down, and ask to leave. */
    method Update(mouseX: int, mouseY: int, mouseDown: bool, returnKey: bool) returns (fights: nat, leave: bool)
      modifies this, enemyMonster, set b | b in buttons
      ensures State() == Fights(old(State()), fights, enemyMonster.name, enemyMonster.maxHp, enemyMonster.level, enemySpritePath)
      ensures returnKey && State().enemyHp <= 0 && caughtMonster.Some? ==>
              savedMonsters == old(savedMonsters) + [caughtMonster.value]
      ensures !(returnKey && State().enemyHp <= 0 && caughtMonster.Some?) ==> savedMonsters == old(savedMonsters)
      ensures fights == HoldCount(Rects(), Captions(), mouseX, mouseY, mouseDown, Battle.FIGHT)
      ensures leave <==> returnKey || Battle.RUN in HoldFired(Rects(), Captions(), mouseX, mouseY, mouseDown)
      ensures forall j :: 0 <= j < |buttons| ==>
        buttons[j].offsetY == HoldStep(buttons[j].rect.CollidePoint(mouseX, mouseY), mouseDown).0
    {
      fights, leave := RunButtons(mouseX, mouseY, mouseDown);
      if returnKey {
        if enemyMonster.hp <= 0 && caughtMonster.Some? {
          savedMonsters := savedMonsters + [caughtMonster.value];
        }
        leave := true;
      }
    }
  }

  lemma {:induction false} FightsSnoc(c: Capture, n: nat, name: string, maxHp: int, level: int, spritePath: string)
    ensures Fights(c, n + 1, name, maxHp, level, spritePath) ==
            FightStep(Fights(c, n, name, maxHp, level, spritePath), name, maxHp, level, spritePath)
    decreases n
  {
    if n > 0 {
      FightsSnoc(FightStep(c, name, maxHp, level, spritePath), n - 1, name, maxHp, level, spritePath);
    }
  }
}
