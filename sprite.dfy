/** Static scenery `Item<StaticSprite>` (level/items/sprite.rs). */
module Sprite {
  import opened Actions
  import opened Items
  import Events

  /** `on_event`: scenery never acts. */
  function OnEvent(s: Item, e: Events.Event): (r: seq<Action>)
    ensures |r| == 0
  {
    []
  }

  /** `on_reaction`: scenery ignores reactions. */
  function OnReaction(s: Item, a: Action): (r: Item)
    ensures r == s
  {
    s
  }
}
