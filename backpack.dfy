/** The backpack overlay (src/scenes/backpack_overlay.py): a copy of the
    bag's item and monster lists, and one button per item laid out on a grid
    of three columns. The buttons are rebuilt only when the item list seen
    in the bag differs from the overlay's copy. */
module Backpack {
  import opened Common
  import opened Bags
  import opened GameManagerModel

  const PANEL_WIDTH := 600
  const PANEL_HEIGHT := 600
  /** The grid's corner relative to the panel's. */
  const GRID_DX := 320
  const GRID_DY := 100
  const CELL_SIZE := 60
  const SPACING_X := 10
  /** Ten pixels of spacing plus forty for the caption under each cell. */
  const SPACING_Y := 50
  const ITEMS_PER_ROW := 3

  /** An item button: its hit box and the image shown in both its plain and
      hovered states (the item's sprite). */
  datatype ItemButton = ItemButton(hitbox: Rect, spritePath: string)

  /** The top-left corner of the cell of item `idx`, for a panel at (x, y). */
  function CellOrigin(x: int, y: int, idx: nat): (int, int) {
    (x + GRID_DX + (idx % ITEMS_PER_ROW) * (CELL_SIZE + SPACING_X),
     y + GRID_DY + (idx / ITEMS_PER_ROW) * (CELL_SIZE + SPACING_Y))
  }

  function CellRect(x: int, y: int, idx: nat): Rect {
    var o := CellOrigin(x, y, idx);
    Rect(o.0, o.1, CELL_SIZE, CELL_SIZE)
  }

  /** refresh_item_buttons' result: one (button, item) pair per item, in
      item order. */
  function Layout(x: int, y: int, items: seq<Item>): seq<(ItemButton, Item)> {
    seq(|items|, i requires 0 <= i < |items| => (ItemButton(CellRect(x, y, i), items[i].spritePath), items[i]))
  }

  /** Distinct indices get distinct cells, and the cells do not even touch:
      the column step (70) and row step (110) both exceed the cell size. */
  lemma CellsDisjoint(x: int, y: int, i: nat, j: nat)
    requires i != j
    ensures CellOrigin(x, y, i) != CellOrigin(x, y, j)
    ensures !CellRect(x, y, i).CollideRect(CellRect(x, y, j))
  {
    var ci, ri, cj, rj := i % 3, i / 3, j % 3, j / 3;
    assert i == 3 * ri + ci && j == 3 * rj + cj;
    if ri == rj {
      assert ci != cj;
      if ci < cj {
        assert ci * 70 + 70 <= cj * 70;
      } else {
        assert cj * 70 + 70 <= ci * 70;
      }
    } else if ri < rj {
      assert ri * 110 + 110 <= rj * 110;
    } else {
      assert rj * 110 + 110 <= ri * 110;
    }
  }

  /** Every cell lies within the panel's width; only the first five rows
      (fifteen items) fit within its height. */
  lemma CellsInPanel(x: int, y: int, idx: nat)
    ensures var r := CellRect(x, y, idx); x <= r.x && r.x + r.w <= x + PANEL_WIDTH && y <= r.y
    ensures var r := CellRect(x, y, idx); r.y + r.h <= y + PANEL_HEIGHT <==> idx < 15
  {
    var row := idx / 3;
    if idx < 15 {
      assert row <= 4;
    } else {
      assert row >= 5;
    }
  }

  /** The layout has one pair per item, carrying that item, on a cell of its
      own. */
  lemma LayoutShape(x: int, y: int, items: seq<Item>)
    ensures |Layout(x, y, items)| == |items|
    ensures forall i :: 0 <= i < |items| ==> Layout(x, y, items)[i].1 == items[i]
    ensures forall i, j :: 0 <= i < j < |items| ==>
      !Layout(x, y, items)[i].0.hitbox.CollideRect(Layout(x, y, items)[j].0.hitbox)
  {
    forall i, j | 0 <= i < j < |items|
      ensures !Layout(x, y, items)[i].0.hitbox.CollideRect(Layout(x, y, items)[j].0.hitbox)
    {
      CellsDisjoint(x, y, i, j);
    }
  }

  /** sync_with_game_manager's change test. The length comparison adds
      nothing: unequal lengths already make the lists unequal. */
  predicate DataChanged(mine: seq<Item>, current: seq<Item>) {
    |current| != |mine| || mine != current
  }

  lemma DataChangedIsInequality(mine: seq<Item>, current: seq<Item>)
    ensures DataChanged(mine, current) <==> mine != current
  {
  }

  /** The overlay's copy of the bag and its buttons. */
  datatype Contents = Contents(items: seq<Item>, monsters: seq<MonsterRecord>,
                               buttons: seq<(ItemButton, Item)>)

  /** One sync against the bag's current lists. */
  function SyncStep(x: int, y: int, c: Contents, bagItems: seq<Item>, bagMonsters: seq<MonsterRecord>): Contents {
    Contents(bagItems, bagMonsters, if DataChanged(c.items, bagItems) then Layout(x, y, bagItems) else c.buttons)
  }

  /** The overlay's invariant: the buttons are the layout of its item copy. */
  predicate ButtonsMatch(x: int, y: int, c: Contents) {
    c.buttons == Layout(x, y, c.items)
  }

  /** Sync keeps the buttons in step with the items, copies both lists, and
      a second sync against the same bag changes nothing. */
  lemma SyncKeepsButtonsMatching(x: int, y: int, c: Contents, bagItems: seq<Item>, bagMonsters: seq<MonsterRecord>)
    requires ButtonsMatch(x, y, c)
    ensures ButtonsMatch(x, y, SyncStep(x, y, c, bagItems, bagMonsters))
    ensures SyncStep(x, y, c, bagItems, bagMonsters).items == bagItems
    ensures SyncStep(x, y, c, bagItems, bagMonsters).monsters == bagMonsters
  {
  }

  lemma SyncIdempotent(x: int, y: int, c: Contents, bagItems: seq<Item>, bagMonsters: seq<MonsterRecord>)
    ensures var c' := SyncStep(x, y, c, bagItems, bagMonsters);
            SyncStep(x, y, c', bagItems, bagMonsters) == c'
  {
  }

  /** Unchanged items keep the very buttons already built, whatever they are. */
  lemma SyncKeepsButtonsOfSameItems(x: int, y: int, c: Contents, bagMonsters: seq<MonsterRecord>)
    ensures SyncStep(x, y, c, c.items, bagMonsters).buttons == c.buttons
  {
  }

  class BackpackOverlay {
    var visible: bool
    /** The panel's top-left corner, centred on the screen. */
    const x: int
    const y: int
    var items: seq<Item>
    var monsters: seq<MonsterRecord>
    var itemButtons: seq<(ItemButton, Item)>

    function State(): Contents
      reads this
    {
      Contents(items, monsters, itemButtons)
    }

    /** The screen size comes from the game settings, which are not part of
        this model. The overlay starts visible and empty. */
    constructor (screenWidth: int, screenHeight: int)
      ensures visible
      ensures x == (screenWidth - PANEL_WIDTH) / 2 && y == (screenHeight - PANEL_HEIGHT) / 2
      ensures State() == Contents([], [], []) && ButtonsMatch(x, y, State())
    {
      visible := true;
      x := (screenWidth - PANEL_WIDTH) / 2;
      y := (screenHeight - PANEL_HEIGHT) / 2;
      items, monsters, itemButtons := [], [], [];
    }

    /** refresh_item_buttons: rebuild the buttons, one per item in order. */
    method RefreshItemButtons()
      modifies this
      ensures itemButtons == Layout(x, y, items)
      ensures items == old(items) && monsters == old(monsters) && visible == old(visible)
    {
      var its := items;
      var buttons := [];
      for idx := 0 to |its|
        invariant buttons == Layout(x, y, its[..idx])
      {
        var o := CellOrigin(x, y, idx);
        var btn := ItemButton(Rect(o.0, o.1, CELL_SIZE, CELL_SIZE), its[idx].spritePath);
        assert Layout(x, y, its[..idx + 1]) == Layout(x, y, its[..idx]) + [(btn, its[idx])];
        buttons := buttons + [(btn, its[idx])];
      }
      assert its[..|its|] == its;
      itemButtons := buttons;
    }

    /** sync_with_game_manager: without a manager nothing happens; otherwise
        both lists are copied from the bag, and the buttons rebuilt if the
        items differ from the previous copy. */
    method SyncWithGameManager(gm: GameManager?)
      modifies this
      ensures gm == null ==> State() == old(State())
      ensures gm != null ==> State() == SyncStep(x, y, old(State()), gm.bag.items, gm.bag.monsters)
      ensures visible == old(visible)
    {
      if gm == null {
        return;
      }
      var currentMonsters := gm.bag.monsters;
      var currentItems := gm.bag.items;
      var dataChanged := |currentItems| != |items| || items != currentItems;
      monsters := currentMonsters;
      items := currentItems;
      if dataChanged {
        RefreshItemButtons();
      }
    }
  }
}
