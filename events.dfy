/** The shape of the input events the editor reads (crossterm's `Event`).

    The editor inspects only a key event's code and its modifier set. The
    event's kind is kept only to show that the editor ignores it. Every other
    category of event is a constructor of its own, carrying data the editor
    never looks at. */
module Events {

  /** The flags of crossterm's `KeyModifiers` bit set. */
  datatype Modifier = Shift | Control | Alt | Super | Hyper | Meta

  /** A key code: a printable character, or one of the keys the editor ignores. */
  datatype KeyCode =
    | Char(c: char)
    | Enter
    | Esc
    | Backspace
    | Tab
    | FunctionKey(n: nat)
    | OtherKey

  datatype KeyEventKind = Press | Repeat | Release

  datatype Event =
    | Key(code: KeyCode, modifiers: set<Modifier>, kind: KeyEventKind)
    | FocusGained
    | FocusLost
    | Mouse
    | Paste(text: string)
    | Resize(columns: nat, rows: nat)
}
