/** The player's bag as the scenes use it: a list of item records and a list
    of monster records, both plain dictionaries in the game. The Bag class
    itself (src/data/bag.py) is not part of this model; only the two lists
    that the shop, the backpack and the catch scene read and update are. */
module Bags {

  /** An item record: {"name", "count", "sprite_path"}. */
  datatype Item = Item(name: string, count: int, spritePath: string)

  /** A monster record: {"name", "hp", "max_hp", "level", "sprite_path"}. */
  datatype MonsterRecord = MonsterRecord(name: string, hp: int, maxHp: int, level: int, spritePath: string)

  class Bag {
    var items: seq<Item>
    var monsters: seq<MonsterRecord>

    constructor (items0: seq<Item>, monsters0: seq<MonsterRecord>)
      ensures items == items0 && monsters == monsters0
    {
      items, monsters := items0, monsters0;
    }
  }
}
