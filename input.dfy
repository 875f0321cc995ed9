/** Keyboard input as the window layer delivers it: a key code and whether the
    key was pressed, released or held. */
module Input {

  datatype InputCode =
    | Q | W | E | R | T | Y | U | I | O | P | A | S | D | F | G | H | J | K | L
    | Z | X | C | V | B | N | M
    | Space | LCtrl | LShift | LAlt | RCtrl | RShift | RAlt | Tab | Escape
    | ArrowUp | ArrowDown | ArrowLeft | ArrowRight

  datatype InputState = Pressed | Released | Held

  datatype InputEvent = InputEvent(code: InputCode, state: InputState)
}
