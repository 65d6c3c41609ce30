/**
 * The platform's key and mouse-button codes, as far as the game tells
 * them apart. Every other code is folded into `OtherKey` / `OtherButton`.
 */
module Events {

  datatype Keycode =
    | W | Up | S | Down | A | Left | D | Right
    | LShift | LCtrl | LAlt
    | Escape
    | OtherKey(code: nat)

  datatype MouseButton = LeftButton | MiddleButton | RightButton | OtherButton(code: nat)

  /** Keys that steer the vertical axis. */
  const VerticalKeys: set<Keycode> := {W, Up, S, Down}

  /** Keys that steer the horizontal axis. */
  const HorizontalKeys: set<Keycode> := {A, Left, D, Right}
}
