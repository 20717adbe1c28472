/** The level exit `Item<Exit>` (level/items/exit.rs). */
module Exit {
  import opened Actions
  import opened Items
  import Events

  /** `on_event`: an exit the wizard has reached announces the win at its own slot on every
      event; otherwise it is silent. */
  function OnEvent(x: Item, e: Events.Event): (r: seq<Action>)
    ensures |r| <= MAX_ACTIONS_PER_EVENT
    ensures x.isWin ==> r == [Action(x.Target(), Win)]
    ensures !x.isWin ==> r == []
  {
    if x.isWin then [Action(x.Target(), Win)] else []
  }

  /** `on_reaction`: a move made by the wizard (the only move the grid reports to the item
      sharing the destination cell) latches the win flag; nothing else changes. */
  function OnReaction(x: Item, a: Action): (r: Item)
    ensures r.isWin <==> x.isWin || (a.kind.Move? && a.kind.who == Actions.Wizard)
    ensures r == x.(isWin := r.isWin)
  {
    match a.kind
    case Move(_, Wizard) => x.(isWin := true)
    case _ => x
  }

  /** Once reached, the exit stays reached whatever reactions follow, and keeps signalling. */
  lemma WinLatches(x: Item, a: Action, e: Events.Event)
    requires x.isWin
    ensures OnReaction(x, a).isWin
    ensures OnEvent(OnReaction(x, a), e) == [Action(x.Target(), Win)]
  {
  }
}
