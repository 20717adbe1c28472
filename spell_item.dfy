/** The spell projectile `Spell` (level/items/spell.rs). */
module SpellItem {
  import opened Ints
  import opened Geometry
  import opened Actions
  import opened Items
  import Events

  /** `SpellCommands`, declared outside the modelled files: the four directions are the
      ones the spell reacts to; every other command is `Other`. */
  datatype SpellCommand = CmdUp | CmdDown | CmdLeft | CmdRight | Other

  const UNINITIALIZED: u8 := 0

  datatype Spell = Spell(zOrder: nat, coords: Point, imgId: TileRef, state: u8,
                         startAnimation: u128, time: u128, commands: seq<SpellCommand>)
  {
    function Target(): (t: Target)
      ensures t.x == coords.x && t.y == coords.y && t.z == zOrder
    {
      Actions.Target(coords.x, coords.y, zOrder)
    }

    function ZLevel(): nat { zOrder }

    function TileId(): TileRef { imgId }

    /** `set_z`: only the layer changes. */
    function SetZ(z: nat): (r: Spell)
      ensures r.ZLevel() == z && r == this.(zOrder := z)
    {
      this.(zOrder := z)
    }
  }

  /** `Spell::new`: uninitialised, counters at zero, with the given program. */
  function NewSpell(coords: Point, zOrder: nat, imgId: TileRef, commands: seq<SpellCommand>): (s: Spell)
    ensures s.state == UNINITIALIZED && s.commands == commands
    ensures s.Target() == Actions.Target(coords.x, coords.y, zOrder) && s.TileId() == imgId
    ensures s.startAnimation == 0 && s.time == 0
  {
    Spell(zOrder, coords, imgId, UNINITIALIZED, 0, 0, commands)
  }

  /** The direction a command launches the spell in. */
  function CommandDirection(c: SpellCommand): (r: Option<Direction>)
    ensures r.None? <==> c == Other
  {
    match c
    case CmdUp => Some(Up)
    case CmdDown => Some(Down)
    case CmdLeft => Some(Left)
    case CmdRight => Some(Right)
    case Other => None
  }

  /** `on_event`: the first event an uninitialised spell sees initialises it and, when its
      first command is a direction, asks the grid to launch it that way. The first command
      is indexed unconditionally: `None` stands for the index panic of an uninitialised
      spell with no commands. */
  function OnEvent(s: Spell, e: Events.Event): (r: Option<(Spell, seq<Action>)>)
    ensures r.None? <==> s.state == UNINITIALIZED && |s.commands| == 0
    ensures r.Some? ==> |r.value.1| <= 1 <= MAX_ACTIONS_PER_EVENT
    ensures r.Some? ==> r.value.0 == s.(state := if s.state == UNINITIALIZED then 1 else s.state)
    ensures r.Some? ==> (|r.value.1| == 1 <==> s.state == UNINITIALIZED && CommandDirection(s.commands[0]).Some?)
    ensures r.Some? && |r.value.1| == 1 ==>
      r.value.1[0] == Action(s.Target(), InitSpell(CommandDirection(s.commands[0]).value))
  {
    if s.state == UNINITIALIZED then
      if |s.commands| == 0 then None
      else
        var s1 := s.(state := 1);
        match CommandDirection(s.commands[0])
        case Some(d) => Some((s1, [Action(s1.Target(), InitSpell(d))]))
        case None => Some((s1, []))
    else
      Some((s, []))
  }

  /** `on_reaction`: a spell ignores reactions. */
  function OnReaction(s: Spell, a: Action): (r: Spell)
    ensures r == s
  {
    s
  }

  /** A spell launches at most once: after its first event it never emits again. */
  lemma LaunchesOnce(s: Spell, e1: Events.Event, e2: Events.Event)
    ensures OnEvent(s, e1).Some? ==>
      var s1 := OnEvent(s, e1).value.0;
      s1.state != UNINITIALIZED && OnEvent(s1, e2) == Some((s1, []))
  {
  }
}
