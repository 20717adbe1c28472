/** The engine's whole input vocabulary (game/events.rs): button edges and timer ticks. */
module Events {
  import opened Ints

  datatype ButtonId = Up | Down | Left | Right | Reset
  datatype ButtonState = Pressed | Released

  datatype Event = Button(id: ButtonId, state: ButtonState) | Tick(time: u128)
}
